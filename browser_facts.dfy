/**
  In a browser `md` hands the console one format string followed by the
  style and object arguments. The console pairs each `%c` with the next
  argument as CSS and each `%o` with the next argument as an object, so the
  message is only right when the directives and the arguments after the
  format string match one to one, in order. This module proves that they do,
  as long as the text the caller supplies carries no `%` of its own.
 */
module BrowserFacts {
  import opened Values
  import opened Markdown
  import opened MarkdownFacts

  /** The directives a console finds reading `s` from the left: `c` for each
      `%c`, `o` for each `%o`. */
  function Directives(s: string): seq<char>
    decreases |s|
  {
    if |s| < 2 then []
    else if s[0] == '%' && (s[1] == 'c' || s[1] == 'o') then [s[1]] + Directives(s[2..])
    else Directives(s[1..])
  }

  /** Every `%` in `s` starts a directive. */
  predicate WellFormed(s: string) {
    forall k :: 0 <= k < |s| ==> DirectiveAt(s, k)
  }

  /** A `%` at index `k` of `s` is followed by `c` or `o`. */
  predicate DirectiveAt(s: string, k: nat) {
    k < |s| && s[k] == '%' ==> k + 1 < |s| && (s[k + 1] == 'c' || s[k + 1] == 'o')
  }

  /** The directive each argument after the format string answers. */
  function Kinds(styles: seq<Item>): (r: seq<char>)
    ensures |r| == |styles|
  {
    seq(|styles|, k requires 0 <= k < |styles| => if styles[k].Text? then 'c' else 'o')
  }

  lemma KindsPush(styles: seq<Item>, x: Item)
    ensures Kinds(styles + [x]) == Kinds(styles) + [if x.Text? then 'c' else 'o']
  {
    var l, r := Kinds(styles + [x]), Kinds(styles) + [if x.Text? then 'c' else 'o'];
    assert forall k :: 0 <= k < |l| ==> l[k] == r[k];
  }

  lemma KindsMerge(styles: seq<Item>, v: string)
    requires |styles| > 0 && styles[|styles| - 1].Text?
    ensures Kinds(AppendLast(styles, v)) == Kinds(styles)
  {
    var l, r := Kinds(AppendLast(styles, v)), Kinds(styles);
    assert forall k :: 0 <= k < |l| ==> l[k] == r[k];
  }

  /** Reading the two halves separately finds the same directives, provided
      no directive is split between them. */
  lemma {:induction false} DirectivesAppend(x: string, y: string)
    requires WellFormed(x)
    ensures Directives(x + y) == Directives(x) + Directives(y)
    decreases |x|
  {
    if |x| == 0 {
      assert x + y == y;
    } else if |x| == 1 {
      assert DirectiveAt(x, 0);
      if |y| > 0 {
        assert (x + y)[1..] == y;
      }
    } else if x[0] == '%' && (x[1] == 'c' || x[1] == 'o') {
      assert (x + y)[2..] == x[2..] + y;
      assert WellFormed(x[2..]) by {
        forall k | 0 <= k < |x[2..]|
          ensures DirectiveAt(x[2..], k)
        {
          assert DirectiveAt(x, k + 2);
        }
      }
      DirectivesAppend(x[2..], y);
    } else {
      assert (x + y)[1..] == x[1..] + y;
      assert WellFormed(x[1..]) by {
        forall k | 0 <= k < |x[1..]|
          ensures DirectiveAt(x[1..], k)
        {
          assert DirectiveAt(x, k + 1);
        }
      }
      DirectivesAppend(x[1..], y);
    }
  }

  lemma {:induction false} NoPercentDirectives(s: string)
    requires NoPercent(s)
    ensures Directives(s) == [] && WellFormed(s)
    decreases |s|
  {
    if |s| >= 2 {
      NoPercentDirectives(s[1..]);
    }
  }

  lemma WellFormedAppend(x: string, y: string)
    requires WellFormed(x) && WellFormed(y)
    ensures WellFormed(x + y)
  {
    var s := x + y;
    forall k | 0 <= k < |s|
      ensures DirectiveAt(s, k)
    {
      if k < |x| {
        assert DirectiveAt(x, k);
      } else {
        assert DirectiveAt(y, k - |x|);
      }
    }
  }

  /** A directive followed by text without `%`. */
  lemma DirectiveThen(d: char, t: string)
    requires d == 'c' || d == 'o'
    requires NoPercent(t)
    ensures Directives(['%', d] + t) == [d] && WellFormed(['%', d] + t)
  {
    var s := ['%', d] + t;
    assert s[2..] == t;
    NoPercentDirectives(t);
    forall k | 0 <= k < |s|
      ensures DirectiveAt(s, k)
    {
      if k >= 2 {
        assert s[k] == t[k - 2];
      }
    }
  }

  /** The state of one segment's scan in a browser: the format string so far
      is `p + b.formatted`, every `%` in it starts a directive, its directives
      match the styles, and a buffer ending in `%c` has a CSS style last. */
  predicate Inv(p: string, b: Buf) {
    && WellFormed(p) && WellFormed(b.formatted)
    && Directives(p) + Directives(b.formatted) == Kinds(b.styles)
    && (EndsWithStyle(b.formatted) ==> |b.styles| > 0 && b.styles[|b.styles| - 1].Text?)
  }

  /** Text without `%` keeps the invariant. */
  lemma InvAppend(p: string, b: Buf, t: string)
    requires Inv(p, b) && NoPercent(t)
    ensures Inv(p, b.(formatted := b.formatted + t))
  {
    var f := b.formatted;
    NoPercentDirectives(t);
    DirectivesAppend(f, t);
    WellFormedAppend(f, t);
    assert Directives(f) + [] == Directives(f);
    if |t| > 0 {
      NoDirectiveEnd(f, t);
    }
    if |t| == 0 {
      assert f + t == f;
    }
  }

  /** Text without `%` after a well-formed string leaves no `%c` at the end. */
  lemma NoDirectiveEnd(f: string, t: string)
    requires WellFormed(f) && NoPercent(t) && |t| > 0
    ensures !EndsWithStyle(f + t)
  {
    var s := f + t;
    if |s| >= 2 {
      if |t| == 1 {
        assert s[|s| - 2] == f[|f| - 1];
        assert DirectiveAt(f, |f| - 1);
      } else {
        assert s[|s| - 2] == t[|t| - 2];
      }
    }
  }

  /** Emitting a style keeps the invariant, in both of its forms. */
  lemma InvSetStyles(mode: Mode, p: string, b: Buf, m: Marker, v: string, open: bool)
    requires mode.browser && !mode.disable
    requires Inv(p, b)
    ensures Inv(p, SetStyles(mode, b, m, v, open))
  {
    var f := b.formatted;
    if EndsWithStyle(f) {
      KindsMerge(b.styles, v);
    } else {
      DirectiveThen('c', "");
      assert ['%', 'c'] + "" == "%c";
      DirectivesAppend(f, "%c");
      WellFormedAppend(f, "%c");
      KindsPush(b.styles, Text(v));
      assert (f + "%c")[|f|] == '%' && (f + "%c")[|f| + 1] == 'c';
    }
  }

  lemma InvStep(mode: Mode, p: string, b: Buf, prev: Option<string>, str: string, j: nat)
    requires mode.browser && !mode.disable
    requires j < |str| && NoPercent(str)
    requires Inv(p, b)
    ensures Inv(p, Step(mode, b, prev, str, j).0)
  {
    var mk := MarkerAt(str, j);
    if mk.None? {
      assert NoPercent([str[j]]);
      InvAppend(p, b, [str[j]]);
    } else {
      var m, w := mk.value.0, mk.value.1;
      var open, close := OnStyle(m, mode), OffStyle(m, mode);
      var next := At(str, j + w);
      if m in b.tokens && Boundary(next) {
        InvSetStyles(mode, p, b, m, close, false);
      } else if m !in b.tokens && Boundary(prev) {
        InvSetStyles(mode, p, b, m, open, true);
      } else {
        InvAppend(p, b, MarkerText(m));
      }
    }
  }

  lemma {:induction false} InvScan(mode: Mode, p: string, b: Buf, prev: Option<string>, str: string, j: nat)
    requires mode.browser && !mode.disable
    requires j <= |str| && NoPercent(str)
    requires Inv(p, b)
    ensures Inv(p, ScanFrom(mode, b, prev, str, j))
    decreases |str| - j
  {
    if j < |str| {
      var r := Step(mode, b, prev, str, j);
      InvStep(mode, p, b, prev, str, j);
      ScanFromStep(mode, b, prev, str, j);
      InvScan(mode, p, r.0, r.1, str, r.2);
    }
  }

  /** A format string whose directives match the styles so far. */
  predicate Matched(q: string, styles: seq<Item>) {
    WellFormed(q) && Directives(q) == Kinds(styles)
  }

  lemma MatchedPlain(q: string, styles: seq<Item>, t: string)
    requires Matched(q, styles) && NoPercent(t)
    ensures Matched(q + t, styles)
  {
    NoPercentDirectives(t);
    DirectivesAppend(q, t);
    WellFormedAppend(q, t);
    assert Directives(q) + [] == Directives(q);
  }

  lemma MatchedDirective(q: string, styles: seq<Item>, d: char, x: Item)
    requires Matched(q, styles)
    requires d == (if x.Text? then 'c' else 'o')
    ensures Matched(q + ['%', d], styles + [x])
  {
    DirectiveThen(d, "");
    assert ['%', d] + "" == ['%', d];
    DirectivesAppend(q, ['%', d]);
    WellFormedAppend(q, ['%', d]);
    KindsPush(styles, x);
  }

  lemma ChangedOpens(mode: Mode, b: Buf)
    requires mode.browser && !mode.disable && Tilde !in b.tokens
    ensures ToggleChanged(mode, b, ChangedOn(mode)) == SetStyles(mode, b, Tilde, ChangedOn(mode), true)
  {
  }

  lemma ChangedCloses(mode: Mode, tokens: set<Marker>, styles: seq<Item>)
    requires mode.browser && !mode.disable && Tilde in tokens
    ensures ToggleChanged(mode, Buf(tokens, "", styles), ChangedOff(mode)) == Buf(tokens - {Tilde}, "%c", styles + [Text("")])
  {
  }

  /** Opening the `~` bracket for a hinted argument keeps the scan invariant. */
  lemma InvOpen(mode: Mode, p: string, b: Buf, hinted: bool)
    requires mode.browser && !mode.disable
    requires Inv(p, b) && Tilde !in b.tokens
    ensures var b1 := if hinted then ToggleChanged(mode, b, ChangedOn(mode)) else b;
      Matched(p + b1.formatted, b1.styles) && (Tilde in b1.tokens <==> hinted)
      && b1.tokens - {Tilde} == b.tokens
  {
    if hinted {
      ChangedOpens(mode, b);
      InvSetStyles(mode, p, b, Tilde, ChangedOn(mode), true);
    }
    var b1 := if hinted then ToggleChanged(mode, b, ChangedOn(mode)) else b;
    DirectivesAppend(p, b1.formatted);
    WellFormedAppend(p, b1.formatted);
  }

  /** The argument adds `%o` and its object, or its JSON text and nothing. */
  lemma MatchedArg(q: string, styles: seq<Item>, args: seq<Value>, i: nat)
    requires Matched(q, styles)
    requires i < |args| && args[i].Str? ==> NoPercent(args[i].s)
    ensures Matched(q + ArgText(args, i), styles + RichAt(args, i))
  {
    if i < |args| && IsRich(args[i]) {
      MatchedDirective(q, styles, 'o', Raw(args[i]));
      assert ['%', 'o'] == "%o";
    } else if i < |args| {
      SerializeNoPercent(args[i]);
      MatchedPlain(q, styles, Serialize(args[i]));
      assert styles + [] == styles;
    } else {
      assert q + "" == q && styles + [] == styles;
    }
  }

  /** Closing the `~` bracket adds `%c` and an empty style. */
  lemma MatchedClose(mode: Mode, q: string, tokens: set<Marker>, styles: seq<Item>)
    requires mode.browser && !mode.disable
    requires Matched(q, styles) && Tilde in tokens
    ensures var b3 := ToggleChanged(mode, Buf(tokens, "", styles), ChangedOff(mode));
      Matched(q + b3.formatted, b3.styles) && b3.tokens == tokens - {Tilde}
  {
    ChangedCloses(mode, tokens, styles);
    MatchedDirective(q, styles, 'c', Text(""));
    assert ['%', 'c'] == "%c";
  }

  /** The end of a segment keeps the directives and the styles matched. */
  lemma InvFinish(mode: Mode, result: seq<Item>, b: Buf, args: seq<Value>, hinted: bool, i: nat)
    requires mode.browser && !mode.disable
    requires result == [] || SingleText(result)
    requires Inv(Prior(result), b) && Tilde !in b.tokens
    requires i < |args| && args[i].Str? ==> NoPercent(args[i].s)
    ensures var a := FinishStyled(mode, result, b, args, hinted, i);
      SingleText(a.result) && Matched(Prior(a.result), a.styles) && Tilde !in a.tokens
  {
    var p := Prior(result);
    StyledShape(mode, result, b, args, hinted, i);
    InvOpen(mode, p, b, hinted);
    var b1 := if hinted then ToggleChanged(mode, b, ChangedOn(mode)) else b;
    var q := p + b1.formatted + ArgText(args, i);
    var s2 := b1.styles + RichAt(args, i);
    MatchedArg(p + b1.formatted, b1.styles, args, i);
    if hinted {
      MatchedClose(mode, q, b1.tokens, s2);
      var b3 := ToggleChanged(mode, Buf(b1.tokens, "", s2), ChangedOff(mode));
      SingleMatched(q + b3.formatted, b3.styles);
    } else {
      SingleMatched(q, s2);
    }
  }

  lemma SingleMatched(x: string, styles: seq<Item>)
    requires Matched(x, styles)
    ensures SingleText([Text(x)]) && Matched(Prior([Text(x)]), styles)
  {
  }

  /** One outer iteration keeps the format string matched with the styles. */
  lemma InvSegment(mode: Mode, acc: Acc, strings: seq<string>, args: seq<Value>, hints: set<nat>, i: nat)
    requires mode.browser && !mode.disable
    requires i < |strings| && NoPercent(strings[i])
    requires i < |args| && args[i].Str? ==> NoPercent(args[i].s)
    requires acc.result == [] || SingleText(acc.result)
    requires Matched(Prior(acc.result), acc.styles) && Tilde !in acc.tokens
    ensures var next := Segment(mode, acc, strings, args, hints, i);
      SingleText(next.result) && Matched(Prior(next.result), next.styles) && Tilde !in next.tokens
  {
    var b0 := Buf(acc.tokens, "", acc.styles);
    var p := Prior(acc.result);
    assert Directives(p) + Directives("") == Directives(p);
    InvScan(mode, p, b0, None, strings[i], 0);
    var b := ScanFrom(mode, b0, None, strings[i], 0);
    ScanKeepsTilde(mode, b0, None, strings[i], 0);
    InvFinish(mode, acc.result, b, args, i < |args| && i in hints, i);
  }

  /** The outer loop keeps one format string whose directives match the styles. */
  lemma InvSegments(mode: Mode, strings: seq<string>, args: seq<Value>, hints: set<nat>)
    requires mode.browser && !mode.disable
    requires |strings| > 0
    requires forall k :: 0 <= k < |strings| ==> NoPercent(strings[k])
    requires forall k :: 0 <= k < |args| && args[k].Str? ==> NoPercent(args[k].s)
    ensures var out := SegmentsFrom(mode, Acc({}, [], []), strings, args, hints, 0);
      SingleText(out.result) && Matched(Prior(out.result), out.styles)
  {
    var acc := Acc({}, [], []);
    assert Matched("", []);
    var i := 0;
    while i < |strings|
      invariant 0 <= i <= |strings|
      invariant acc.result == [] || SingleText(acc.result)
      invariant i > 0 ==> SingleText(acc.result)
      invariant Matched(Prior(acc.result), acc.styles) && Tilde !in acc.tokens
      invariant SegmentsFrom(mode, Acc({}, [], []), strings, args, hints, 0)
             == SegmentsFrom(mode, acc, strings, args, hints, i)
    {
      acc := InvLoopStep(mode, acc, strings, args, hints, i);
      i := i + 1;
    }
  }

  /** One turn of the outer loop in a browser: the next accumulator keeps
      the format string matched, and the loop goes on from it. */
  lemma InvLoopStep(mode: Mode, acc: Acc, strings: seq<string>, args: seq<Value>, hints: set<nat>, i: nat)
    returns (next: Acc)
    requires mode.browser && !mode.disable
    requires i < |strings|
    requires forall k :: 0 <= k < |strings| ==> NoPercent(strings[k])
    requires forall k :: 0 <= k < |args| && args[k].Str? ==> NoPercent(args[k].s)
    requires acc.result == [] || SingleText(acc.result)
    requires Matched(Prior(acc.result), acc.styles) && Tilde !in acc.tokens
    ensures SingleText(next.result) && Matched(Prior(next.result), next.styles) && Tilde !in next.tokens
    ensures SegmentsFrom(mode, acc, strings, args, hints, i) == SegmentsFrom(mode, next, strings, args, hints, i + 1)
  {
    InvSegment(mode, acc, strings, args, hints, i);
    next := Segment(mode, acc, strings, args, hints, i);
    SegmentsStep(mode, acc, next, strings, args, hints, i);
  }

  /** The trace suffix in a browser: its own `%c` and the trace style. */
  lemma BrowserFinish(mode: Mode, acc: Acc, trace: string)
    requires mode.browser && !mode.disable && SingleText(acc.result)
    ensures Finish(mode, acc, trace)
         == if trace == "" then acc.result + acc.styles
            else [Text(Prior(acc.result) + ("%c" + ("(@ " + trace + ")")))] + (acc.styles + [Text(mode.css.trace)])
  {
    if trace != "" {
      AppendLastSingle(Prior(acc.result), "%c(@ " + trace + ")");
      assert "%c(@ " + trace + ")" == "%c" + ("(@ " + trace + ")");
    }
  }

  lemma MatchedTrace(p: string, styles: seq<Item>, trace: string, style: string)
    requires Matched(p, styles) && NoPercent(trace)
    ensures Matched(p + ("%c" + ("(@ " + trace + ")")), styles + [Text(style)])
  {
    var t := "(@ " + trace + ")";
    assert NoPercent(t);
    MatchedDirective(p, styles, 'c', Text(style));
    assert ['%', 'c'] == "%c";
    MatchedPlain(p + "%c", styles + [Text(style)], t);
    assert p + "%c" + t == p + ("%c" + t);
  }

  /** In a browser, with no `%` in the text the caller supplies, the message
      is one format string followed by one argument per directive in it: a
      CSS string for each `%c` and an object for each `%o`, in order. */
  lemma BrowserDirectives(env: Env, strings: seq<string>, args: seq<Value>, hints: set<nat>, trace: string)
    requires env.isBrowser && !(env.isUnsupportedConsole && HasRich(args))
    requires |strings| > 0
    requires forall k :: 0 <= k < |strings| ==> NoPercent(strings[k])
    requires forall k :: 0 <= k < |args| && args[k].Str? ==> NoPercent(args[k].s)
    requires NoPercent(trace)
    ensures var r := Md(env, strings, args, hints, trace);
      |r| > 0 && r[0].Text? && WellFormed(r[0].text) && Directives(r[0].text) == Kinds(r[1..])
  {
    var mode := ModeOf(env, args);
    InvSegments(mode, strings, args, hints);
    var acc := SegmentsFrom(mode, Acc({}, [], []), strings, args, hints, 0);
    BrowserFinish(mode, acc, trace);
    var r := Finish(mode, acc, trace);
    assert r == Md(env, strings, args, hints, trace);
    if trace != "" {
      MatchedTrace(Prior(acc.result), acc.styles, trace, mode.css.trace);
      assert r[1..] == acc.styles + [Text(mode.css.trace)];
    } else {
      assert r[1..] == acc.styles;
    }
  }

  /** Why `BrowserDirectives` needs text without `%`: a `%c` in the caller's
      own text reaches the format string as a directive with no style after
      it. In a browser, `md` over the single string `%c` logs just `"%c"`. */
  lemma PercentInText(env: Env)
    requires env == Env(true, false)
    ensures var r := Md(env, ["%c"], [], {}, "");
      r == [Text("%c")] && Directives(r[0].text) == ['c'] && Kinds(r[1..]) == []
  {
    var mode := ModeOf(env, []);
    assert !mode.disable && mode.browser;
    var b0 := Buf({}, "", []);
    PlainSegment(mode, b0, "%c");
    assert ScanFrom(mode, b0, None, "%c", 0) == Buf({}, "%c", []);
    LastSegment(mode, Acc({}, [], []), ["%c"], [], {}, 0);
    assert SegmentsFrom(mode, Acc({}, [], []), ["%c"], [], {}, 0) == Acc({}, [Text("%c")], []);
    DirectiveThen('c', "");
  }
}
