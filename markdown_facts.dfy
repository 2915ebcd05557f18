/**
  What `md` promises, proved about its specification `Markdown.Md`: the
  toggle rule, plain text passing through unchanged, the shape of the
  terminal output, the one-to-one match of browser directives and style
  arguments, the plain pieces of the disabled mode, and that the
  changed-argument bracket has no terminal styling.
 */
module MarkdownFacts {
  import opened Values
  import opened Markdown

  predicate IsMarkerChar(c: char) {
    c == '*' || c == '_' || c == '`'
  }

  /** Text in which the scan finds nothing to toggle. */
  predicate NoMarkers(s: string) {
    forall k :: 0 <= k < |s| ==> !IsMarkerChar(s[k])
  }

  /** No marker character from position `a` up to `b` of `str`: the form the
      scan lemmas use, which names positions of `str` and no slices of it. */
  predicate PlainBetween(str: string, a: nat, b: nat)
    decreases b - a
  {
    a >= b || (a < |str| && !IsMarkerChar(str[a]) && PlainBetween(str, a + 1, b))
  }

  /** A slice without markers gives its positions without markers. */
  lemma {:induction false} PlainBetweenOf(str: string, a: nat, b: nat)
    requires a <= b <= |str| && NoMarkers(str[a..b])
    ensures PlainBetween(str, a, b)
    decreases b - a
  {
    if a < b {
      assert str[a..b][0] == str[a];
      var s, t := str[a..b], str[a + 1..b];
      forall k | 0 <= k < |t|
        ensures !IsMarkerChar(t[k])
      {
        assert t[k] == s[k + 1];
      }
      PlainBetweenOf(str, a + 1, b);
    }
  }

  /** A string none of whose characters is a marker character has no markers. */
  lemma NoMarkersOf(s: string)
    requires forall c :: c in s ==> !IsMarkerChar(c)
    ensures NoMarkers(s)
  {
    forall k | 0 <= k < |s|
      ensures !IsMarkerChar(s[k])
    {
      assert s[k] in s;
    }
  }

  /** Two strings without markers joined have none. */
  lemma NoMarkersAppend(a: string, b: string)
    requires NoMarkers(a) && NoMarkers(b)
    ensures NoMarkers(a + b)
  {
    forall k | 0 <= k < |a + b|
      ensures !IsMarkerChar((a + b)[k])
    {
      if k >= |a| {
        assert (a + b)[k] == b[k - |a|];
      }
    }
  }

  /** The toggle rule has exactly three cases: close an open marker before a
      boundary, open a closed one after a boundary, or copy its text and change
      nothing. No other marker's state moves. */
  lemma ToggleRule(mode: Mode, b: Buf, m: Marker, open: string, close: string,
                   next: Option<string>, prev: Option<string>)
    ensures var (b', ch) := Process(mode, b, m, open, close, next, prev);
      && (m in b.tokens && Boundary(next) ==> m !in b'.tokens && ch.None?)
      && (m !in b.tokens && Boundary(prev) ==> m in b'.tokens && ch.None?)
      && ((m !in b.tokens || !Boundary(next)) && (m in b.tokens || !Boundary(prev)) ==>
            b' == b && ch == Some(MarkerText(m)))
      && (forall m' :: m' != m ==> (m' in b'.tokens <==> m' in b.tokens))
  {
  }

  /** What a toggle writes: the ANSI code itself in a terminal; in a browser
      one `%c` and one style, or the style merged into the previous one when
      the buffer already ends in `%c`; nothing when styling is disabled. */
  lemma EmitForms(mode: Mode, b: Buf, m: Marker, value: string, open: bool)
    ensures var r := SetStyles(mode, b, m, value, open);
      && (mode.disable ==> r.formatted == b.formatted && r.styles == b.styles)
      && (!mode.disable && !mode.browser ==> r.formatted == b.formatted + value && r.styles == b.styles)
      && (!mode.disable && mode.browser && !EndsWithStyle(b.formatted) ==>
            r.formatted == b.formatted + "%c" && r.styles == b.styles + [Text(value)])
      && (!mode.disable && mode.browser && EndsWithStyle(b.formatted) && |b.styles| > 0 ==>
            r.formatted == b.formatted && r.styles == AppendLast(b.styles, value) &&
            r.styles[..|b.styles| - 1] == b.styles[..|b.styles| - 1] &&
            r.styles[|b.styles| - 1] == AppendText(b.styles[|b.styles| - 1], value))
      && (!mode.disable && mode.browser && EndsWithStyle(b.formatted) && |b.styles| == 0 ==>
            r.formatted == b.formatted && r.styles == b.styles)
  {
  }

  /** A character that starts no marker is copied and becomes `prev`. */
  lemma PlainStep(mode: Mode, b: Buf, prev: Option<string>, str: string, j: nat)
    requires j < |str| && !IsMarkerChar(str[j])
    ensures ScanFrom(mode, b, prev, str, j)
         == ScanFrom(mode, b.(formatted := b.formatted + [str[j]]), Some([str[j]]), str, j + 1)
  {
    assert MarkerAt(str, j) == None;
    ScanFromStep(mode, b, prev, str, j);
  }

  /** A run of text without markers is copied into the buffer as it is, and
      the last of its characters becomes `prev`. */
  lemma {:induction false} PlainRun(mode: Mode, b: Buf, prev: Option<string>, str: string, j: nat, k: nat)
    requires j <= k <= |str| && PlainBetween(str, j, k)
    ensures ScanFrom(mode, b, prev, str, j)
         == ScanFrom(mode, b.(formatted := b.formatted + str[j..k]), if j < k then Some([str[k - 1]]) else prev, str, k)
    decreases k - j
  {
    if j < k {
      PlainStep(mode, b, prev, str, j);
      var b1 := b.(formatted := b.formatted + [str[j]]);
      PlainRun(mode, b1, Some([str[j]]), str, j + 1, k);
      assert str[j..k] == [str[j]] + str[j + 1..k];
      assert b1.formatted + str[j + 1..k] == b.formatted + str[j..k];
      assert b1.(formatted := b1.formatted + str[j + 1..k]) == b.(formatted := b.formatted + str[j..k]);
      assert (if j + 1 < k then Some([str[k - 1]]) else Some([str[j]])) == Some([str[k - 1]]);
    } else {
      assert b.formatted + str[j..k] == b.formatted;
      assert b.(formatted := b.formatted + str[j..k]) == b;
    }
  }

  /** A non-empty run of text without markers, as `PlainRun` states it. */
  lemma PlainRunSome(mode: Mode, b: Buf, prev: Option<string>, str: string, j: nat, k: nat)
    requires j < k <= |str| && PlainBetween(str, j, k)
    ensures ScanFrom(mode, b, prev, str, j)
         == ScanFrom(mode, Buf(b.tokens, b.formatted + str[j..k], b.styles), Some([str[k - 1]]), str, k)
  {
    PlainRun(mode, b, prev, str, j, k);
    assert b.(formatted := b.formatted + str[j..k]) == Buf(b.tokens, b.formatted + str[j..k], b.styles);
  }

  /** A segment without markers passes through unchanged. */
  lemma PlainSegment(mode: Mode, b: Buf, str: string)
    requires NoMarkers(str)
    ensures ScanFrom(mode, b, None, str, 0) == b.(formatted := b.formatted + str)
  {
    assert str[0..|str|] == str;
    PlainBetweenOf(str, 0, |str|);
    PlainRun(mode, b, None, str, 0, |str|);
  }

  /** Without browser styling the scan never touches the styles array. */
  lemma {:induction false} ScanKeepsStyles(mode: Mode, b: Buf, prev: Option<string>, str: string, j: nat)
    requires j <= |str|
    requires !mode.browser || mode.disable
    ensures ScanFrom(mode, b, prev, str, j).styles == b.styles
    decreases |str| - j
  {
    if j < |str| {
      var r := Step(mode, b, prev, str, j);
      assert r.0.styles == b.styles;
      ScanKeepsStyles(mode, r.0, r.1, str, r.2);
    }
  }

  /** The scan never opens or closes the changed-argument bracket. */
  lemma {:induction false} ScanKeepsTilde(mode: Mode, b: Buf, prev: Option<string>, str: string, j: nat)
    requires j <= |str|
    ensures Tilde in ScanFrom(mode, b, prev, str, j).tokens <==> Tilde in b.tokens
    decreases |str| - j
  {
    if j < |str| {
      var r := Step(mode, b, prev, str, j);
      assert Tilde in r.0.tokens <==> Tilde in b.tokens;
      ScanKeepsTilde(mode, r.0, r.1, str, r.2);
    }
  }

  /** The object arguments, in order, as they follow the format string. */
  function RichArgs(args: seq<Value>): (r: seq<Item>)
    ensures forall k :: 0 <= k < |r| ==> r[k].Raw? && IsRich(r[k].value) && r[k].value in args
  {
    if args == [] then []
    else
      var last := args[|args| - 1];
      RichArgs(args[..|args| - 1]) + (if IsRich(last) then [Raw(last)] else [])
  }

  predicate SingleText(r: seq<Item>) {
    |r| == 1 && r[0].Text?
  }

  /** The text the single terminal string has so far. */
  function Prior(result: seq<Item>): string
    requires result == [] || SingleText(result)
  {
    if result == [] then "" else result[0].text
  }

  /** In a terminal the end of a segment appends the segment's text and the
      argument to the one format string, whether or not the argument is
      marked as changed: the `~` bracket writes nothing there. */
  lemma TerminalFinish(mode: Mode, result: seq<Item>, b: Buf, args: seq<Value>, hints: set<nat>, i: nat)
    requires !mode.browser && !mode.disable
    requires Tilde !in b.tokens
    requires result == [] || SingleText(result)
    ensures var a := FinishSegment(mode, result, b, args, hints, i);
      && a.result == [Text(Prior(result) + b.formatted + ArgText(args, i))]
      && a.styles == b.styles + RichAt(args, i)
      && a.tokens == b.tokens
  {
    TerminalStyled(mode, result, b, args, i < |args| && i in hints, i);
  }

  /** In a terminal the end of a segment appends the segment text and the
      argument to the single string, hinted or not. */
  lemma TerminalStyled(mode: Mode, result: seq<Item>, b: Buf, args: seq<Value>, hinted: bool, i: nat)
    requires !mode.browser && !mode.disable
    requires Tilde !in b.tokens
    requires result == [] || SingleText(result)
    ensures FinishStyled(mode, result, b, args, hinted, i)
         == Acc(b.tokens, [Text(Prior(result) + b.formatted + ArgText(args, i))], b.styles + RichAt(args, i))
  {
    StyledShape(mode, result, b, args, hinted, i);
    if hinted {
      BracketVanishes(mode, b, RichAt(args, i));
      ConcatEmpty(Prior(result) + b.formatted + ArgText(args, i));
    }
  }

  /** In a terminal the `~` bracket around an argument leaves no trace: the
      token flips twice and nothing is written. */
  lemma BracketVanishes(mode: Mode, b: Buf, r: seq<Item>)
    requires !mode.browser && !mode.disable && Tilde !in b.tokens
    ensures var b1 := ToggleChanged(mode, b, ChangedOn(mode));
      var b3 := ToggleChanged(mode, Buf(b1.tokens, "", b1.styles + r), ChangedOff(mode));
      b1.formatted == b.formatted && b1.styles == b.styles
      && b3 == Buf(b.tokens, "", b.styles + r)
  {
    TerminalChanged(mode, b);
    var b1 := ToggleChanged(mode, b, ChangedOn(mode));
    TerminalChanged(mode, Buf(b1.tokens, "", b1.styles + r));
    assert b1.tokens - {Tilde} == b.tokens;
  }

  /** The empty sequence is a unit of concatenation. */
  lemma ConcatEmpty<T>(s: seq<T>)
    ensures [] + s == s && s + [] == s
  {
  }

  /** Concatenation regrouped to the right. */
  lemma ConcatAssoc<T>(x: seq<T>, y: seq<T>, z: seq<T>)
    ensures x + y + z == x + (y + z)
  {
  }

  /** Appending to a single text extends that text. */
  lemma AppendLastSingle(x: string, y: string)
    ensures AppendLast([Text(x)], y) == [Text(x + y)]
    ensures y == "" ==> x + y == x
  {
  }

  /** With styling on, the end of a segment in one formula: the segment text
      and the argument extend the single format string, inside the `~`
      bracket when the argument is hinted. */
  lemma StyledShape(mode: Mode, result: seq<Item>, b: Buf, args: seq<Value>, hinted: bool, i: nat)
    requires result == [] || SingleText(result)
    ensures var a := FinishStyled(mode, result, b, args, hinted, i);
      var b1 := if hinted then ToggleChanged(mode, b, ChangedOn(mode)) else b;
      var s2 := b1.styles + RichAt(args, i);
      var q := Prior(result) + b1.formatted + ArgText(args, i);
      var b3 := ToggleChanged(mode, Buf(b1.tokens, "", s2), ChangedOff(mode));
      a == if hinted then Acc(b3.tokens, [Text(q + b3.formatted)], b3.styles) else Acc(b1.tokens, [Text(q)], s2)
  {
    var b1 := if hinted then ToggleChanged(mode, b, ChangedOn(mode)) else b;
    AppendTwo(result, b1.formatted, i < |args|, ArgText(args, i));
    if hinted {
      var s2 := b1.styles + RichAt(args, i);
      var b3 := ToggleChanged(mode, Buf(b1.tokens, "", s2), ChangedOff(mode));
      AppendLastSingle(Prior(result) + b1.formatted + ArgText(args, i), b3.formatted);
    }
  }

  /** The segment text, then the argument (when there is one), extend the
      single format string. */
  lemma AppendTwo(result: seq<Item>, f: string, has: bool, x: string)
    requires result == [] || SingleText(result)
    requires !has ==> x == ""
    ensures var r0 := if result == [] then [Text("")] else result;
      var r1 := if f != "" then AppendLast(r0, f) else r0;
      (if has then AppendLast(r1, x) else r1) == [Text(Prior(result) + f + x)]
  {
    var p := Prior(result);
    AppendLastSingle(p, f);
    AppendLastSingle(p + f, x);
  }

  /** In a terminal the `~` bracket only flips its token. */
  lemma TerminalChanged(mode: Mode, b: Buf)
    requires !mode.browser && !mode.disable
    ensures ToggleChanged(mode, b, "") == b.(tokens := if Tilde in b.tokens then b.tokens - {Tilde} else b.tokens + {Tilde})
  {
    assert b.formatted + "" == b.formatted;
  }

  lemma RichArgsStep(args: seq<Value>, i: nat)
    requires i < |args|
    ensures RichArgs(args[..i + 1]) == RichArgs(args[..i]) + RichAt(args, i)
  {
    assert args[..i + 1][..i] == args[..i];
  }

  /** In a terminal one segment keeps the single string, and only its
      object argument joins the styles. */
  lemma TerminalSegment(mode: Mode, acc: Acc, strings: seq<string>, args: seq<Value>, hints: set<nat>, i: nat)
    requires !mode.browser && !mode.disable
    requires i < |strings| && Tilde !in acc.tokens
    requires acc.result == [] || SingleText(acc.result)
    ensures var next := Segment(mode, acc, strings, args, hints, i);
      SingleText(next.result) && Tilde !in next.tokens && next.styles == acc.styles + RichAt(args, i)
  {
    var b0 := Buf(acc.tokens, "", acc.styles);
    var b := ScanFrom(mode, b0, None, strings[i], 0);
    ScanKeepsStyles(mode, b0, None, strings[i], 0);
    ScanKeepsTilde(mode, b0, None, strings[i], 0);
    TerminalFinish(mode, acc.result, b, args, hints, i);
  }

  lemma {:induction false} TerminalSegments(mode: Mode, acc: Acc, strings: seq<string>, args: seq<Value>,
                                            hints: set<nat>, i: nat)
    requires !mode.browser && !mode.disable
    requires |args| < |strings| && i <= |strings|
    requires Tilde !in acc.tokens
    requires i == 0 ==> acc.result == [] && acc.styles == []
    requires i > 0 ==> SingleText(acc.result) && acc.styles == RichArgs(args[..if i < |args| then i else |args|])
    ensures var out := SegmentsFrom(mode, acc, strings, args, hints, i);
      SingleText(out.result) && out.styles == RichArgs(args)
    decreases |strings| - i
  {
    if i < |strings| {
      TerminalSegment(mode, acc, strings, args, hints, i);
      var next := Segment(mode, acc, strings, args, hints, i);
      if i < |args| {
        RichArgsStep(args, i);
      } else {
        assert RichAt(args, i) == [];
        assert acc.styles + [] == acc.styles;
      }
      SegmentsStep(mode, acc, next, strings, args, hints, i);
      TerminalSegments(mode, next, strings, args, hints, i + 1);
    } else {
      assert args[..|args|] == args;
    }
  }

  /** In a terminal the message is one string followed by exactly the object
      arguments, in order. */
  lemma TerminalShape(env: Env, strings: seq<string>, args: seq<Value>, hints: set<nat>, trace: string)
    requires !env.isBrowser && !(env.isUnsupportedConsole && HasRich(args))
    requires |args| < |strings|
    ensures var r := Md(env, strings, args, hints, trace);
      |r| == 1 + |RichArgs(args)| && r[0].Text? && r[1..] == RichArgs(args)
  {
    var mode := ModeOf(env, args);
    TerminalSegments(mode, Acc({}, [], []), strings, args, hints, 0);
  }

  /** One segment in a terminal ends the same with or without hints, and the
      `~` bracket stays closed. */
  lemma HintsSegment(mode: Mode, acc: Acc, strings: seq<string>, args: seq<Value>, hints: set<nat>, i: nat)
    requires !mode.browser && i < |strings|
    requires Tilde !in acc.tokens
    requires !mode.disable ==> acc.result == [] || SingleText(acc.result)
    ensures var next := Segment(mode, acc, strings, args, hints, i);
      && next == Segment(mode, acc, strings, args, {}, i)
      && Tilde !in next.tokens
      && (!mode.disable ==> SingleText(next.result))
  {
    var b0 := Buf(acc.tokens, "", acc.styles);
    var b := ScanFrom(mode, b0, None, strings[i], 0);
    ScanKeepsTilde(mode, b0, None, strings[i], 0);
    if !mode.disable {
      TerminalFinish(mode, acc.result, b, args, hints, i);
      TerminalFinish(mode, acc.result, b, args, {}, i);
    }
    var next := FinishSegment(mode, acc.result, b, args, hints, i);
    assert next == FinishSegment(mode, acc.result, b, args, {}, i);
  }

  lemma {:induction false} HintsSegments(mode: Mode, acc: Acc, strings: seq<string>, args: seq<Value>,
                                         hints: set<nat>, i: nat)
    requires !mode.browser && i <= |strings|
    requires Tilde !in acc.tokens
    requires !mode.disable ==> acc.result == [] || SingleText(acc.result)
    ensures SegmentsFrom(mode, acc, strings, args, hints, i) == SegmentsFrom(mode, acc, strings, args, {}, i)
    decreases |strings| - i
  {
    if i < |strings| {
      HintsSegment(mode, acc, strings, args, hints, i);
      var next := Segment(mode, acc, strings, args, hints, i);
      SegmentsStep(mode, acc, next, strings, args, hints, i);
      SegmentsStep(mode, acc, next, strings, args, {}, i);
      HintsSegments(mode, next, strings, args, hints, i + 1);
    }
  }

  /** Changed-argument hints only style the browser output: in a terminal
      `md` gives the same message with or without them. */
  lemma HintsInvisibleInTerminal(env: Env, strings: seq<string>, args: seq<Value>, hints: set<nat>, trace: string)
    requires !env.isBrowser
    ensures Md(env, strings, args, hints, trace) == Md(env, strings, args, {}, trace)
  {
    HintsSegments(ModeOf(env, args), Acc({}, [], []), strings, args, hints, 0);
  }

  /** The terminal suffix `md` gives a trace. */
  function TraceText(trace: string): string {
    if trace == "" then "" else "  " + [Esc] + "[2m(@ " + trace + ")" + [Esc] + "[22m"
  }

  /** The segments `0..n` with the arguments between them, as one string. */
  function Woven(strings: seq<string>, args: seq<Value>, n: nat): string
    requires n <= |strings|
  {
    if n == 0 then "" else Woven(strings, args, n - 1) + strings[n - 1] + ArgText(args, n - 1)
  }

  /** The outer loop over a last segment is that segment. */
  lemma LastSegment(mode: Mode, acc: Acc, strings: seq<string>, args: seq<Value>, hints: set<nat>, i: nat)
    requires i + 1 == |strings|
    ensures SegmentsFrom(mode, acc, strings, args, hints, i) == Segment(mode, acc, strings, args, hints, i)
  {
  }

  /** The outer loop from `i` is the outer loop from `i + 1` after segment `i`. */
  lemma SegmentsStep(mode: Mode, acc: Acc, next: Acc, strings: seq<string>, args: seq<Value>, hints: set<nat>, i: nat)
    requires i < |strings| && Segment(mode, acc, strings, args, hints, i) == next
    ensures SegmentsFrom(mode, acc, strings, args, hints, i) == SegmentsFrom(mode, next, strings, args, hints, i + 1)
  {
  }

  /** The outer loop over two last segments is those two segments in order. */
  lemma LastTwoSegments(mode: Mode, acc: Acc, strings: seq<string>, args: seq<Value>, hints: set<nat>, i: nat)
    requires i + 2 == |strings|
    ensures SegmentsFrom(mode, acc, strings, args, hints, i)
         == Segment(mode, Segment(mode, acc, strings, args, hints, i), strings, args, hints, i + 1)
  {
    LastSegment(mode, Segment(mode, acc, strings, args, hints, i), strings, args, hints, i + 1);
  }

  /** What the outer loop has built after `i` segments without markers. */
  function PlainAcc(strings: seq<string>, args: seq<Value>, i: nat): Acc
    requires i <= |strings|
  {
    if i == 0 then Acc({}, [], [])
    else Acc({}, [Text(Woven(strings, args, i))], RichArgs(args[..if i < |args| then i else |args|]))
  }

  /** A segment without markers hands its text unchanged to the finishing step. */
  lemma PlainSegmentText(mode: Mode, acc: Acc, strings: seq<string>, args: seq<Value>, hints: set<nat>, i: nat)
    requires i < |strings| && NoMarkers(strings[i])
    ensures Segment(mode, acc, strings, args, hints, i)
         == FinishSegment(mode, acc.result, Buf(acc.tokens, strings[i], acc.styles), args, hints, i)
  {
    PlainSegment(mode, Buf(acc.tokens, "", acc.styles), strings[i]);
    assert "" + strings[i] == strings[i];
  }

  /** One segment without markers in a terminal: its text and its argument
      extend the one string, and its object argument joins the styles. */
  lemma PlainTerminalSegment(mode: Mode, strings: seq<string>, args: seq<Value>, hints: set<nat>, i: nat)
    requires !mode.browser && !mode.disable
    requires |args| < |strings| && i < |strings| && NoMarkers(strings[i])
    ensures Segment(mode, PlainAcc(strings, args, i), strings, args, hints, i) == PlainAcc(strings, args, i + 1)
  {
    var acc := PlainAcc(strings, args, i);
    PlainTerminalStep(mode, acc, strings, args, hints, i);
    PlainAccStep(strings, args, i);
  }

  /** The scan and the end of a segment without markers, in a terminal. */
  lemma PlainTerminalStep(mode: Mode, acc: Acc, strings: seq<string>, args: seq<Value>, hints: set<nat>, i: nat)
    requires !mode.browser && !mode.disable
    requires i < |strings| && NoMarkers(strings[i])
    requires Tilde !in acc.tokens && (acc.result == [] || SingleText(acc.result))
    ensures Segment(mode, acc, strings, args, hints, i)
         == Acc(acc.tokens, [Text(Prior(acc.result) + strings[i] + ArgText(args, i))], acc.styles + RichAt(args, i))
  {
    PlainSegmentText(mode, acc, strings, args, hints, i);
    TerminalFinish(mode, acc.result, Buf(acc.tokens, strings[i], acc.styles), args, hints, i);
  }

  /** `PlainAcc` grows by one segment and its argument. */
  lemma PlainAccStep(strings: seq<string>, args: seq<Value>, i: nat)
    requires |args| < |strings| && i < |strings|
    ensures var acc := PlainAcc(strings, args, i);
      && Tilde !in acc.tokens && (acc.result == [] || SingleText(acc.result))
      && PlainAcc(strings, args, i + 1)
         == Acc(acc.tokens, [Text(Prior(acc.result) + strings[i] + ArgText(args, i))], acc.styles + RichAt(args, i))
  {
    var acc := PlainAcc(strings, args, i);
    assert Prior(acc.result) == Woven(strings, args, i);
    if i < |args| {
      RichArgsStep(args, i);
    } else {
      assert acc.styles + [] == acc.styles;
    }
  }

  /** In a terminal the outer loop over segments without markers builds `PlainAcc`. */
  lemma PlainTerminalSegments(mode: Mode, strings: seq<string>, args: seq<Value>, hints: set<nat>)
    requires !mode.browser && !mode.disable
    requires |args| < |strings|
    requires forall k :: 0 <= k < |strings| ==> NoMarkers(strings[k])
    ensures SegmentsFrom(mode, PlainAcc(strings, args, 0), strings, args, hints, 0) == PlainAcc(strings, args, |strings|)
  {
    var i := |strings|;
    while i > 0
      invariant 0 <= i <= |strings|
      invariant SegmentsFrom(mode, PlainAcc(strings, args, i), strings, args, hints, i) == PlainAcc(strings, args, |strings|)
    {
      i := i - 1;
      PlainLoopStep(mode, strings, args, hints, i);
    }
  }

  /** One turn of the outer loop over segments without markers, in a terminal. */
  lemma PlainLoopStep(mode: Mode, strings: seq<string>, args: seq<Value>, hints: set<nat>, i: nat)
    requires !mode.browser && !mode.disable
    requires |args| < |strings| && i < |strings| && NoMarkers(strings[i])
    requires SegmentsFrom(mode, PlainAcc(strings, args, i + 1), strings, args, hints, i + 1) == PlainAcc(strings, args, |strings|)
    ensures SegmentsFrom(mode, PlainAcc(strings, args, i), strings, args, hints, i) == PlainAcc(strings, args, |strings|)
  {
    PlainTerminalSegment(mode, strings, args, hints, i);
    SegmentsStep(mode, PlainAcc(strings, args, i), PlainAcc(strings, args, i + 1), strings, args, hints, i);
  }

  /** In a terminal, segments without markers are copied as they are, with
      each argument's JSON text (or `%o`) between them and the trace after
      them; the object arguments follow, in order. */
  lemma TerminalPlain(env: Env, strings: seq<string>, args: seq<Value>, hints: set<nat>, trace: string)
    requires !env.isBrowser && !(env.isUnsupportedConsole && HasRich(args))
    requires |args| < |strings|
    requires forall k :: 0 <= k < |strings| ==> NoMarkers(strings[k])
    ensures Md(env, strings, args, hints, trace)
         == [Text(Woven(strings, args, |strings|) + TraceText(trace))] + RichArgs(args)
  {
    var mode := ModeOf(env, args);
    PlainTerminalSegments(mode, strings, args, hints);
    assert args[..|args|] == args;
    AppendLastSingle(Woven(strings, args, |strings|), TraceText(trace));
  }

  /** A template `<prefix>${x}<suffix>`, such as `The answer is ${x}`, in a terminal. */
  lemma AnswerShape(env: Env, strings: seq<string>, args: seq<Value>, hints: set<nat>, trace: string)
    requires !env.isBrowser && |strings| == 2 && NoMarkers(strings[0]) && NoMarkers(strings[1])
    requires |args| == 1 && (!IsRich(args[0]) || !env.isUnsupportedConsole)
    ensures Md(env, strings, args, hints, trace)
         == [Text(strings[0] + ArgText(args, 0) + strings[1] + TraceText(trace))] + RichArgs(args)
  {
    SingleRich(args);
    forall k | 0 <= k < |strings|
      ensures NoMarkers(strings[k])
    {
      assert k == 0 || k == 1;
    }
    TerminalPlain(env, strings, args, hints, trace);
    WovenPair(strings, args);
  }

  lemma SingleRich(args: seq<Value>)
    requires |args| == 1
    ensures HasRich(args) == IsRich(args[0])
  {
    if HasRich(args) {
      var k :| 0 <= k < |args| && IsRich(args[k]);
    }
  }

  lemma WovenPair(strings: seq<string>, args: seq<Value>)
    requires |strings| == 2 && |args| < 2
    ensures Woven(strings, args, |strings|) == strings[0] + ArgText(args, 0) + strings[1]
  {
    assert Woven(strings, args, 0) == "";
    ConcatEmpty(strings[0]);
    assert Woven(strings, args, 1) == strings[0] + ArgText(args, 0);
    assert ArgText(args, 1) == "";
    ConcatEmpty(strings[0] + ArgText(args, 0) + strings[1]);
  }

  /** A number is inlined bare, as its decimal text. */
  lemma AnswerInt(env: Env, strings: seq<string>, args: seq<Value>, hints: set<nat>, trace: string, n: int)
    requires !env.isBrowser && |strings| == 2 && NoMarkers(strings[0]) && strings[1] == "" && trace == ""
    requires args == [Int(n)]
    ensures Md(env, strings, args, hints, trace) == [Text(strings[0] + IntToString(n))]
  {
    AnswerShape(env, strings, args, hints, trace);
    assert RichArgs(args) == RichArgs([]) + [];
    assert strings[0] + IntToString(n) + strings[1] + TraceText(trace) == strings[0] + IntToString(n);
  }

  /** `The answer is ${42}` prints `The answer is 42`. */
  lemma AnswerNumber(env: Env, strings: seq<string>, args: seq<Value>, hints: set<nat>, trace: string)
    requires !env.isBrowser && |strings| == 2 && NoMarkers(strings[0]) && strings[1] == "" && trace == ""
    requires args == [Int(42)]
    ensures Md(env, strings, args, hints, trace) == [Text(strings[0] + "42")]
  {
    AnswerInt(env, strings, args, hints, trace, 42);
    FortyTwo();
  }

  lemma FortyTwo()
    ensures IntToString(42) == "42"
  {
    assert NatToString(4) == ['4'];
    assert NatToString(42) == NatToString(4) + [DigitChar(2)];
  }

  /** A string is inlined in JSON quotes, so `"42"` is not mistaken for `42`. */
  lemma AnswerString(env: Env, strings: seq<string>, args: seq<Value>, hints: set<nat>, trace: string)
    requires !env.isBrowser && |strings| == 2 && NoMarkers(strings[0]) && strings[1] == "" && trace == ""
    requires args == [Str("42")]
    ensures Md(env, strings, args, hints, trace) == [Text(strings[0] + "\"42\"")]
  {
    AnswerShape(env, strings, args, hints, trace);
    QuotedFortyTwo();
    assert RichArgs(args) == RichArgs([]) + [];
    assert strings[0] + "\"42\"" + strings[1] + TraceText(trace) == strings[0] + "\"42\"";
  }

  lemma QuotedFortyTwo()
    ensures Quote("42") == "\"42\""
  {
    EscapeOrdinary("42");
  }

  /** An object becomes `%o` and is passed after the text. */
  lemma AnswerObject(env: Env, strings: seq<string>, args: seq<Value>, hints: set<nat>, trace: string, id: nat)
    requires !env.isBrowser && !env.isUnsupportedConsole
    requires |strings| == 2 && NoMarkers(strings[0]) && strings[1] == "" && trace == ""
    requires args == [Obj(id)]
    ensures Md(env, strings, args, hints, trace) == [Text(strings[0] + "%o"), Raw(Obj(id))]
  {
    AnswerShape(env, strings, args, hints, trace);
    assert RichArgs(args) == RichArgs([]) + [Raw(Obj(id))];
    assert strings[0] + "%o" + strings[1] + TraceText(trace) == strings[0] + "%o";
  }

  /** A backtick opens in a terminal: its ANSI code replaces it, and `prev`
      becomes a boundary. */
  lemma BacktickOpens(mode: Mode, b: Buf, prev: Option<string>, str: string, j: nat)
    requires !mode.browser && !mode.disable && j < |str| && str[j] == '`'
    requires Backtick !in b.tokens && Boundary(prev)
    ensures ScanFrom(mode, b, prev, str, j)
         == ScanFrom(mode, Buf(b.tokens + {Backtick}, b.formatted + AnsiOn(Backtick), b.styles), None, str, j + 1)
  {
    ScanFromStep(mode, b, prev, str, j);
    var r := Step(mode, b, prev, str, j);
    assert MarkerAt(str, j) == Some((Backtick, 1));
    assert r.2 == j + 1 && r.1 == None;
    assert r.0 == Buf(b.tokens + {Backtick}, b.formatted + AnsiOn(Backtick), b.styles);
  }

  /** A backtick closes in a terminal when it is open and a boundary follows. */
  lemma BacktickCloses(mode: Mode, b: Buf, prev: Option<string>, str: string, j: nat)
    requires !mode.browser && !mode.disable && j < |str| && str[j] == '`'
    requires Backtick in b.tokens && Boundary(At(str, j + 1))
    ensures ScanFrom(mode, b, prev, str, j)
         == ScanFrom(mode, Buf(b.tokens - {Backtick}, b.formatted + AnsiOff(Backtick), b.styles), None, str, j + 1)
  {
    ScanFromStep(mode, b, prev, str, j);
    var r := Step(mode, b, prev, str, j);
    assert MarkerAt(str, j) == Some((Backtick, 1));
    assert r.2 == j + 1 && r.1 == None;
    assert r.0 == Buf(b.tokens - {Backtick}, b.formatted + AnsiOff(Backtick), b.styles);
  }

  /** A code span in a terminal: a backtick after a boundary, text without
      markers, and a backtick before a boundary become the text between the
      two ANSI codes, and the token map is as before. */
  lemma CodeSpan(mode: Mode, b: Buf, prev: Option<string>, str: string, j: nat, k: nat)
    requires !mode.browser && !mode.disable
    requires j < k < |str| && str[j] == '`' && str[k] == '`' && PlainBetween(str, j + 1, k)
    requires Backtick !in b.tokens && Boundary(prev) && Boundary(At(str, k + 1))
    ensures ScanFrom(mode, b, prev, str, j)
         == ScanFrom(mode, b.(formatted := b.formatted + AnsiOn(Backtick) + str[j + 1..k] + AnsiOff(Backtick)), None, str, k + 1)
  {
    var code := str[j + 1..k];
    var b1 := Buf(b.tokens + {Backtick}, b.formatted + AnsiOn(Backtick), b.styles);
    var b2 := b1.(formatted := b1.formatted + code);
    var prev2 := if j + 1 < k then Some([str[k - 1]]) else None;
    BacktickOpens(mode, b, prev, str, j);
    PlainRun(mode, b1, None, str, j + 1, k);
    BacktickCloses(mode, b2, prev2, str, k);
    assert b2.tokens - {Backtick} == b.tokens;
    assert b2.formatted + AnsiOff(Backtick) == b.formatted + AnsiOn(Backtick) + code + AnsiOff(Backtick);
    assert Buf(b2.tokens - {Backtick}, b2.formatted + AnsiOff(Backtick), b2.styles)
        == b.(formatted := b.formatted + AnsiOn(Backtick) + code + AnsiOff(Backtick));
  }

  /** A marker after a boundary opens: the scan goes on after it from the
      buffer with the on-style emitted, and `prev` becomes a boundary. */
  lemma MarkerOpens(mode: Mode, b: Buf, prev: Option<string>, str: string, j: nat, m: Marker, w: nat)
    requires j < |str| && MarkerAt(str, j) == Some((m, w))
    requires m !in b.tokens && Boundary(prev)
    ensures ScanFrom(mode, b, prev, str, j)
         == ScanFrom(mode, SetStyles(mode, b, m, OnStyle(m, mode), true), None, str, j + w)
  {
    ScanFromStep(mode, b, prev, str, j);
  }

  /** An open marker before a boundary closes: the scan goes on after it from
      the buffer with the off-style emitted. */
  lemma MarkerCloses(mode: Mode, b: Buf, prev: Option<string>, str: string, k: nat, m: Marker, w: nat)
    requires k < |str| && MarkerAt(str, k) == Some((m, w)) && k + w <= |str|
    requires m in b.tokens && Boundary(At(str, k + w))
    ensures ScanFrom(mode, b, prev, str, k)
         == ScanFrom(mode, SetStyles(mode, b, m, OffStyle(m, mode), false), None, str, k + w)
  {
    ScanFromStep(mode, b, prev, str, k);
  }

  /** The text a marker is recognised from. */
  lemma MarkerAtText(str: string, j: nat)
    requires j < |str| && MarkerAt(str, j).Some?
    ensures var (m, w) := MarkerAt(str, j).value;
      str[j..j + w] == MarkerText(m) && m != Tilde
  {
  }

  /** A styled span between boundaries, for any of the five markers: the
      marker's text after a boundary, text without markers, and the same
      marker's text before a boundary. In a terminal the text comes out
      between the marker's two ANSI codes; in a browser between two `%c`
      directives, with the on and off CSS pushed in that order; with styling
      disabled as it stands. The token map is as before. */
  lemma MarkedSpan(mode: Mode, b: Buf, prev: Option<string>, str: string, j: nat, k: nat, m: Marker, w: nat)
    requires j < |str| && MarkerAt(str, j) == Some((m, w))
    requires j + w <= k < |str| && MarkerAt(str, k) == Some((m, w))
    requires PlainBetween(str, j + w, k)
    requires m !in b.tokens && Boundary(prev) && Boundary(At(str, k + w))
    ensures str[j..j + w] == MarkerText(m) && str[k..k + w] == MarkerText(m)
    ensures var x := str[j + w..k];
      && (!mode.browser && !mode.disable ==>
            ScanFrom(mode, b, prev, str, j)
            == ScanFrom(mode, b.(formatted := b.formatted + AnsiOn(m) + x + AnsiOff(m)), None, str, k + w))
      && (mode.browser && !mode.disable && !EndsWithStyle(b.formatted) && x != "" && !EndsWithStyle(x) ==>
            ScanFrom(mode, b, prev, str, j)
            == ScanFrom(mode, Buf(b.tokens, b.formatted + "%c" + x + "%c",
                                  b.styles + [Text(CssOn(m, mode.css)), Text(CssOff(m, mode.css))]),
                        None, str, k + w))
      && (mode.disable ==>
            ScanFrom(mode, b, prev, str, j)
            == ScanFrom(mode, b.(formatted := b.formatted + x), None, str, k + w))
  {
    MarkerAtText(str, j);
    MarkerAtText(str, k);
    SpanSteps(mode, b, prev, str, j, k, m, w);
    SpanForms(mode, b, m, str[j + w..k]);
  }

  /** The three scan steps of a span: open, copy, close. */
  lemma SpanSteps(mode: Mode, b: Buf, prev: Option<string>, str: string, j: nat, k: nat, m: Marker, w: nat)
    requires j < |str| && MarkerAt(str, j) == Some((m, w))
    requires j + w <= k < |str| && MarkerAt(str, k) == Some((m, w))
    requires PlainBetween(str, j + w, k)
    requires m !in b.tokens && Boundary(prev) && Boundary(At(str, k + w))
    ensures var b1 := SetStyles(mode, b, m, OnStyle(m, mode), true);
      ScanFrom(mode, b, prev, str, j)
      == ScanFrom(mode, SetStyles(mode, b1.(formatted := b1.formatted + str[j + w..k]), m, OffStyle(m, mode), false),
                  None, str, k + w)
  {
    var b1 := SetStyles(mode, b, m, OnStyle(m, mode), true);
    var b2 := b1.(formatted := b1.formatted + str[j + w..k]);
    var prev2 := if j + w < k then Some([str[k - 1]]) else None;
    MarkerOpens(mode, b, prev, str, j, m, w);
    PlainRun(mode, b1, None, str, j + w, k);
    MarkerCloses(mode, b2, prev2, str, k, m, w);
  }

  /** Opening a closed marker, copying `x` and closing it again, per mode. */
  lemma SpanForms(mode: Mode, b: Buf, m: Marker, x: string)
    requires m !in b.tokens
    ensures var b1 := SetStyles(mode, b, m, OnStyle(m, mode), true);
      var b3 := SetStyles(mode, b1.(formatted := b1.formatted + x), m, OffStyle(m, mode), false);
      && (!mode.browser && !mode.disable ==> b3 == b.(formatted := b.formatted + AnsiOn(m) + x + AnsiOff(m)))
      && (mode.browser && !mode.disable && !EndsWithStyle(b.formatted) && x != "" && !EndsWithStyle(x) ==>
            b3 == Buf(b.tokens, b.formatted + "%c" + x + "%c",
                      b.styles + [Text(CssOn(m, mode.css)), Text(CssOff(m, mode.css))]))
      && (mode.disable ==> b3 == b.(formatted := b.formatted + x))
  {
    var b1 := SetStyles(mode, b, m, OnStyle(m, mode), true);
    assert b1.tokens - {m} == b.tokens;
    if mode.browser && !mode.disable && !EndsWithStyle(b.formatted) && x != "" && !EndsWithStyle(x) {
      BrowserSpan(b.formatted, x);
      assert b.styles + [Text(CssOn(m, mode.css))] + [Text(CssOff(m, mode.css))]
          == b.styles + [Text(CssOn(m, mode.css)), Text(CssOff(m, mode.css))];
    }
  }

  /** The buffer after `%c` and a text that is neither empty nor ending in
      `%c` does not end in `%c`. */
  lemma BrowserSpan(f: string, x: string)
    requires x != "" && !EndsWithStyle(x)
    ensures !EndsWithStyle(f + "%c" + x)
  {
    var s := f + "%c" + x;
    assert s[|s| - 1] == x[|x| - 1];
    if |x| >= 2 {
      assert s[|s| - 2] == x[|x| - 2];
    } else {
      assert s[|s| - 2] == 'c';
    }
  }

  /** A backtick at the end of a segment, after a boundary, opens a code span
      that stays open when the segment ends. */
  lemma OpenAtEnd(mode: Mode, tokens: set<Marker>, styles: seq<Item>, a: string)
    requires !mode.browser && !mode.disable && Backtick !in tokens
    requires NoMarkers(a) && (a == "" || IsSeparator(a[|a| - 1]))
    ensures ScanFrom(mode, Buf(tokens, "", styles), None, a + "`", 0)
         == Buf(tokens + {Backtick}, a + AnsiOn(Backtick), styles)
  {
    var str := a + "`";
    var b := Buf(tokens, "", styles);
    if a == "" {
      BacktickOpens(mode, b, None, str, 0);
    } else {
      assert str[0..|a|] == a;
      PlainBetweenOf(str, 0, |a|);
      PlainRunSome(mode, b, None, str, 0, |a|);
      assert "" + str[0..|a|] == a;
      BacktickOpens(mode, Buf(tokens, a, styles), Some([str[|a| - 1]]), str, |a|);
    }
  }

  /** A backtick at the start of a segment, before a boundary, closes the
      code span an earlier segment left open. */
  lemma CloseAtStart(mode: Mode, tokens: set<Marker>, styles: seq<Item>, c: string)
    requires !mode.browser && !mode.disable && Backtick in tokens
    requires NoMarkers(c) && (c == "" || IsSeparator(c[0]))
    ensures ScanFrom(mode, Buf(tokens, "", styles), None, "`" + c, 0)
         == Buf(tokens - {Backtick}, AnsiOff(Backtick) + c, styles)
  {
    var str := "`" + c;
    var b1 := Buf(tokens - {Backtick}, "" + AnsiOff(Backtick), styles);
    BacktickCloses(mode, Buf(tokens, "", styles), None, str, 0);
    if c != "" {
      assert str[1..|str|] == c;
      PlainBetweenOf(str, 1, |str|);
      PlainRunSome(mode, b1, None, str, 1, |str|);
    }
    assert "" + AnsiOff(Backtick) == AnsiOff(Backtick);
  }

  /** The token map survives from one segment to the next: a backtick that
      ends the text before an argument and one that starts the text after it
      make a code span around the argument. */
  lemma CodeAcrossSegments(env: Env, strings: seq<string>, args: seq<Value>, a: string, c: string)
    requires !env.isBrowser && strings == [a + "`", "`" + c] && |args| == 1 && !IsRich(args[0])
    requires NoMarkers(a) && (a == "" || IsSeparator(a[|a| - 1]))
    requires NoMarkers(c) && (c == "" || IsSeparator(c[0]))
    ensures Md(env, strings, args, {}, "")
         == [Text(a + AnsiOn(Backtick) + Serialize(args[0]) + AnsiOff(Backtick) + c)]
  {
    SingleRich(args);
    var mode := ModeOf(env, args);
    CodeSegments(mode, strings, args, a, c);
    assert ArgText(args, 0) == Serialize(args[0]);
  }

  /** The outer loop over the two segments of `CodeAcrossSegments`. */
  lemma CodeSegments(mode: Mode, strings: seq<string>, args: seq<Value>, a: string, c: string)
    requires !mode.browser && !mode.disable
    requires strings == [a + "`", "`" + c] && |args| == 1 && !IsRich(args[0])
    requires NoMarkers(a) && (a == "" || IsSeparator(a[|a| - 1]))
    requires NoMarkers(c) && (c == "" || IsSeparator(c[0]))
    ensures SegmentsFrom(mode, Acc({}, [], []), strings, args, {}, 0)
         == Acc({}, [Text(a + AnsiOn(Backtick) + ArgText(args, 0) + AnsiOff(Backtick) + c)], [])
  {
    LastTwoSegments(mode, Acc({}, [], []), strings, args, {}, 0);
    var on, off := AnsiOn(Backtick), AnsiOff(Backtick);
    OpenAtEnd(mode, {}, [], a);
    OpeningSegment(mode, strings, args, a + on);
    assert RichAt(args, 0) == [];
    var t0 := a + on + ArgText(args, 0);
    CloseAtStart(mode, {Backtick}, [], c);
    ClosingSegment(mode, strings, args, t0, off + c);
    ConcatAssoc(a + on + ArgText(args, 0), off, c);
  }

  /** The first segment of `CodeAcrossSegments`: its text, which leaves the
      backtick open, and the argument. */
  lemma OpeningSegment(mode: Mode, strings: seq<string>, args: seq<Value>, f0: string)
    requires !mode.browser && !mode.disable
    requires |strings| == 2 && |args| == 1
    requires ScanFrom(mode, Buf({}, "", []), None, strings[0], 0) == Buf({Backtick}, f0, [])
    ensures Segment(mode, Acc({}, [], []), strings, args, {}, 0)
         == Acc({Backtick}, [Text(f0 + ArgText(args, 0))], RichAt(args, 0))
  {
    TerminalSegmentIs(mode, Acc({}, [], []), strings, args, 0, Buf({Backtick}, f0, []));
    ConcatEmpty(f0);
    ConcatEmpty(RichAt(args, 0));
  }

  /** The second segment of `CodeAcrossSegments`: its text, which closes the
      backtick, and no argument. */
  lemma ClosingSegment(mode: Mode, strings: seq<string>, args: seq<Value>, t0: string, f1: string)
    requires !mode.browser && !mode.disable
    requires |strings| == 2 && |args| == 1
    requires ScanFrom(mode, Buf({Backtick}, "", []), None, strings[1], 0) == Buf({}, f1, [])
    ensures Segment(mode, Acc({Backtick}, [Text(t0)], []), strings, args, {}, 1)
         == Acc({}, [Text(t0 + f1)], [])
  {
    TerminalSegmentIs(mode, Acc({Backtick}, [Text(t0)], []), strings, args, 1, Buf({}, f1, []));
    assert ArgText(args, 1) == "" && RichAt(args, 1) == [];
    AppendLastSingle(t0 + f1, "");
  }

  /** In a terminal, a segment whose scan ends in `b` adds the text of `b`
      and the argument to the single string. */
  lemma TerminalSegmentIs(mode: Mode, acc: Acc, strings: seq<string>, args: seq<Value>, i: nat, b: Buf)
    requires !mode.browser && !mode.disable
    requires i < |strings| && ScanFrom(mode, Buf(acc.tokens, "", acc.styles), None, strings[i], 0) == b
    requires Tilde !in b.tokens && (acc.result == [] || SingleText(acc.result))
    ensures Segment(mode, acc, strings, args, {}, i)
         == Acc(b.tokens, [Text(Prior(acc.result) + b.formatted + ArgText(args, i))], b.styles + RichAt(args, i))
  {
    TerminalFinish(mode, acc.result, b, args, {}, i);
  }

  /** The characters the SEPARATOR pattern lists one by one, besides `\s`. */
  predicate InSeparatorList(c: char) {
    c in {'-', '\U{2013}', '\U{2014}', '!', '$', '%', '^', '&', '*', '(', ')', '_', '+', '|', '~', '=',
          '`', '{', '}', '[', ']', ':', '/', '\\', '"', '\'', '\U{201C}', '\U{201D}', '\U{2018}',
          '\U{2019}', ';', '<', '>', '?', ',', '.', '@', '#'}
  }

  /** The four ASCII ranges of `IsSeparator` are exactly the characters the
      pattern lists: a separator is whitespace or a listed character. */
  lemma SeparatorChars(c: char)
    ensures IsSeparator(c) <==> IsWhitespace(c) || InSeparatorList(c)
  {
  }

  /** `checkNextOrPrev`: the start or end of a segment is a boundary; a
      character is one exactly when it is a separator; the marker characters
      themselves are separators, letters and digits are not. */
  lemma BoundaryRule(c: char)
    ensures Boundary(None)
    ensures Boundary(Some([c])) <==> IsSeparator(c)
    ensures IsMarkerChar(c) || c == '~' ==> Boundary(Some([c]))
    ensures 'a' <= c <= 'z' || 'A' <= c <= 'Z' || '0' <= c <= '9' ==> !Boundary(Some([c]))
  {
  }

  /** The end of `md`: without a trace the result and then the styles; with
      one and styling disabled, ` (@ trace)` as a piece of its own; otherwise
      the trace extends the single format string (after a `%c` with its own
      CSS in a browser, dimmed in a terminal), and the styles come last. */
  lemma TraceForms(mode: Mode, acc: Acc, trace: string)
    requires acc.result == [] || SingleText(acc.result)
    ensures var r := Finish(mode, acc, trace);
      var suffix := if mode.browser then "%c(@ " + trace + ")" else "  " + [Esc] + "[2m(@ " + trace + ")" + [Esc] + "[22m";
      && (trace == "" ==> r == acc.result + acc.styles)
      && (trace != "" && mode.disable ==> r == acc.result + [Text(" (@ " + trace + ")")] + acc.styles)
      && (trace != "" && !mode.disable ==>
            r == [Text(Prior(acc.result) + suffix)] + acc.styles + (if mode.browser then [Text(mode.css.trace)] else []))
  {
    if trace != "" && !mode.disable {
      var r0 := if acc.result == [] then [Text("")] else acc.result;
      assert r0 == [Text(Prior(acc.result))];
    }
  }

  /** Whether an argument is rich, as `some` finds it, agrees with the rich
      arguments collected in order. */
  lemma {:induction false} HasRichArgs(args: seq<Value>)
    ensures HasRich(args) <==> RichArgs(args) != []
    decreases |args|
  {
    if args != [] {
      var init, last := args[..|args| - 1], args[|args| - 1];
      HasRichArgs(init);
      if HasRich(init) {
        var k :| 0 <= k < |init| && IsRich(init[k]);
        assert args[k] == init[k];
      }
      if HasRich(args) && !IsRich(last) {
        var k :| 0 <= k < |args| && IsRich(args[k]);
        assert init[k] == args[k];
      }
      if IsRich(last) {
        assert IsRich(args[|args| - 1]);
      }
    }
  }

  /** The mode `md` runs in: a browser or a terminal as detected, and styling
      disabled exactly on an unsupported console when some argument is an
      object or a function. */
  lemma DisableRule(env: Env, args: seq<Value>)
    ensures ModeOf(env, args).browser == env.isBrowser
    ensures ModeOf(env, args).disable <==> env.isUnsupportedConsole && RichArgs(args) != []
  {
    HasRichArgs(args);
  }

  /** The `~` bracket: with no neighbours both boundary tests pass, so every
      call flips the bracket and leaves the other tokens alone. Opening emits
      the style passed; closing emits the empty close style, whatever style
      was passed. */
  lemma BracketFlips(mode: Mode, b: Buf, style: string)
    ensures var r := ToggleChanged(mode, b, style);
      && (Tilde in r.tokens <==> Tilde !in b.tokens)
      && r.tokens - {Tilde} == b.tokens - {Tilde}
      && r == SetStyles(mode, b, Tilde, if Tilde in b.tokens then "" else style, Tilde !in b.tokens)
  {
  }

  /** An inlined text never begins with `%`. */
  lemma SerializeNotDirective(v: Value)
    requires !IsRich(v)
    ensures Serialize(v)[0] != '%'
  {
    if v.Int? {
      assert Serialize(v) == IntToString(v.n);
    }
  }

  /** Argument `i` in the format string and after it: `%o` exactly when the
      argument is an object or a function, which is then the one value pushed
      after the format string; a primitive is inlined as its JSON text, which
      a string's reads back from; past the last argument nothing. */
  lemma ArgForms(args: seq<Value>, i: nat)
    ensures ArgText(args, i) == "%o" <==> RichAt(args, i) != []
    ensures RichAt(args, i) != [] ==> i < |args| && IsRich(args[i]) && RichAt(args, i) == [Raw(args[i])]
    ensures i >= |args| ==> ArgText(args, i) == "" && RichAt(args, i) == []
    ensures i < |args| && !IsRich(args[i]) ==> ArgText(args, i) == Serialize(args[i]) && RichAt(args, i) == []
    ensures i < |args| && args[i].Str? ==> Unquote(ArgText(args, i)) == Some(args[i].s)
  {
    if i < |args| && !IsRich(args[i]) {
      SerializeNotDirective(args[i]);
      if args[i].Str? {
        QuoteRoundTrip(args[i].s);
      }
    }
  }
}
