/**
  When the console cannot style object arguments, `md` gives up styling for
  the whole message: toggling markers disappear and nothing is added in
  their place, each text piece and each argument becomes an element of its
  own, strings are quoted, objects are passed as they are, and the one space
  beside each argument is trimmed.
 */
module DisabledFacts {
  import opened Values
  import opened Markdown
  import opened MarkdownFacts

  /** `t` is `s` with some marker characters left out, and nothing else changed. */
  predicate Dropped(s: string, t: string)
    decreases |s|
  {
    if s == [] then t == []
    else (|t| > 0 && t[0] == s[0] && Dropped(s[1..], t[1..])) || (IsMarkerChar(s[0]) && Dropped(s[1..], t))
  }

  predicate AllMarkers(u: string) {
    forall k :: 0 <= k < |u| ==> IsMarkerChar(u[k])
  }

  lemma {:induction false} DroppedKeep(u: string, s: string, t: string)
    requires Dropped(s, t)
    ensures Dropped(u + s, u + t)
    decreases |u|
  {
    if u != [] {
      DroppedKeep(u[1..], s, t);
      assert (u + s)[1..] == u[1..] + s;
      assert (u + t)[1..] == u[1..] + t;
    } else {
      assert u + s == s && u + t == t;
    }
  }

  lemma {:induction false} DroppedSkip(u: string, s: string, t: string)
    requires Dropped(s, t) && AllMarkers(u)
    ensures Dropped(u + s, t)
    decreases |u|
  {
    if u != [] {
      DroppedSkip(u[1..], s, t);
      assert (u + s)[1..] == u[1..] + s;
    } else {
      assert u + s == s;
    }
  }

  /** Text without markers cannot lose anything. */
  lemma {:induction false} DroppedPlain(s: string, t: string)
    requires NoMarkers(s) && Dropped(s, t)
    ensures t == s
    decreases |s|
  {
    if s != [] {
      assert !IsMarkerChar(s[0]);
      DroppedPlain(s[1..], t[1..]);
    }
  }

  lemma MarkerSpan(str: string, j: nat)
    requires j < |str| && MarkerAt(str, j).Some?
    ensures var (m, w) := MarkerAt(str, j).value;
      str[j..j + w] == MarkerText(m) && AllMarkers(str[j..j + w])
  {
  }

  /** One step of the scan with styling disabled keeps the characters it
      passes over, or drops a marker and writes nothing. */
  lemma DisabledStep(mode: Mode, b: Buf, prev: Option<string>, str: string, j: nat)
    requires mode.disable && j < |str|
    ensures var r := Step(mode, b, prev, str, j);
      && r.0.styles == b.styles
      && (r.0.formatted == b.formatted + str[j..r.2] || (r.0.formatted == b.formatted && AllMarkers(str[j..r.2])))
  {
    var mk := MarkerAt(str, j);
    if mk.None? {
      assert str[j..j + 1] == [str[j]];
    } else {
      MarkerSpan(str, j);
    }
  }

  /** The scan of a segment with styling disabled removes toggling markers
      and adds nothing. */
  lemma {:induction false} DisabledScan(mode: Mode, b: Buf, prev: Option<string>, str: string, j: nat)
    requires mode.disable && j <= |str|
    ensures var r := ScanFrom(mode, b, prev, str, j);
      && r.styles == b.styles
      && StartsWith(r.formatted, b.formatted)
      && Dropped(str[j..], r.formatted[|b.formatted|..])
    decreases |str| - j
  {
    if j == |str| {
      assert b.formatted[|b.formatted|..] == [];
      assert b.formatted[..|b.formatted|] == b.formatted;
    } else {
      var b1, p1, j1 := DisabledNext(mode, b, prev, str, j);
      DisabledScan(mode, b1, p1, str, j1);
      assert str[j..] == str[j..j1] + str[j1..];
      DroppedCombine(b.formatted, b1.formatted, ScanFrom(mode, b1, p1, str, j1).formatted, str[j..j1], str[j1..]);
    }
  }

  /** The scan from `j` is the scan from where one step leaves it. */
  lemma DisabledNext(mode: Mode, b: Buf, prev: Option<string>, str: string, j: nat)
    returns (b1: Buf, p1: Option<string>, j1: nat)
    requires mode.disable && j < |str|
    ensures j < j1 <= |str|
    ensures ScanFrom(mode, b, prev, str, j) == ScanFrom(mode, b1, p1, str, j1)
    ensures b1.styles == b.styles
    ensures b1.formatted == b.formatted + str[j..j1] || (b1.formatted == b.formatted && AllMarkers(str[j..j1]))
  {
    var s := Step(mode, b, prev, str, j);
    DisabledStep(mode, b, prev, str, j);
    ScanFromStep(mode, b, prev, str, j);
    b1, p1, j1 := s.0, s.1, s.2;
  }

  /** What one step keeps or drops, followed by the rest of the scan. */
  lemma DroppedCombine(f: string, f1: string, r: string, u: string, rest: string)
    requires f1 == f + u || (f1 == f && AllMarkers(u))
    requires StartsWith(r, f1) && Dropped(rest, r[|f1|..])
    ensures StartsWith(r, f) && Dropped(u + rest, r[|f|..])
  {
    var t' := r[|f1|..];
    assert r == f1 + t';
    if f1 == f + u {
      DroppedKeep(u, rest, t');
      assert r[|f|..] == u + t';
    } else {
      DroppedSkip(u, rest, t');
    }
  }

  /** The elements one segment adds with styling disabled: the trimmed text
      unless it is empty, then the argument (a string quoted, anything else
      as it is). */
  function Piece(f: string, args: seq<Value>, i: nat): seq<Item> {
    var t := Trim(f, i > 0, i < |args|);
    (if t != "" then [Text(t)] else []) + (if i < |args| then [PlainArg(args[i])] else [])
  }

  /** The pieces of all segments, in order. */
  function Pieces(texts: seq<string>, args: seq<Value>): seq<Item> {
    if texts == [] then []
    else Pieces(texts[..|texts| - 1], args) + Piece(texts[|texts| - 1], args, |texts| - 1)
  }

  /** The end of a segment without styling: one space is cut from the end
      exactly when an argument follows and the text ends in a space, then one
      from the start exactly when a segment came before and what is left starts
      with a space; the rest is kept unless empty, then the argument follows,
      a string quoted as JSON and anything else as it is. */
  lemma PlainFinish(result: seq<Item>, b: Buf, args: seq<Value>, i: nat)
    ensures var a := FinishPlain(result, b, args, i);
      var f := b.formatted;
      var f1 := if i < |args| && |f| > 0 && f[|f| - 1] == ' ' then f[..|f| - 1] else f;
      var t := if i > 0 && |f1| > 0 && f1[0] == ' ' then f1[1..] else f1;
      && a.result == result + (if t == "" then [] else [Text(t)])
           + (if i < |args| then [if args[i].Str? then Text(Quote(args[i].s)) else Raw(args[i])] else [])
      && a.styles == b.styles && a.tokens == b.tokens
  {
    TrimCuts(b.formatted, i > 0, i < |args|);
  }

  /** Trimming cuts one trailing space exactly when an argument follows and
      the text ends in a space, then one leading space exactly when something
      came before and what is left starts with a space. */
  lemma TrimCuts(f: string, hasPrev: bool, hasNext: bool)
    ensures var f1 := if hasNext && |f| > 0 && f[|f| - 1] == ' ' then f[..|f| - 1] else f;
      Trim(f, hasPrev, hasNext) == if hasPrev && |f1| > 0 && f1[0] == ' ' then f1[1..] else f1
  {
    var hi := if hasNext && EndsWithSpace(f) then |f| - 1 else |f|;
    var f1 := f[..hi];
    assert f1 == f[0..hi];
    if hasPrev && |f1| > 0 && f1[0] == ' ' {
      assert f1[1..] == f[1..hi];
    }
  }

  /** How an argument is passed with styling disabled: a string as its JSON
      text, which reads back to the string, and anything else as it is. */
  lemma PlainArgForms(v: Value)
    ensures PlainArg(v).Text? <==> v.Str?
    ensures v.Str? ==> Unquote(PlainArg(v).text) == Some(v.s)
    ensures !v.Str? ==> PlainArg(v) == Raw(v)
  {
    if v.Str? {
      QuoteRoundTrip(v.s);
    }
  }

  /** `FinishPlain` appends the segment's `Piece`. */
  lemma PieceFinish(result: seq<Item>, b: Buf, args: seq<Value>, i: nat)
    ensures var a := FinishPlain(result, b, args, i);
      a.result == result + Piece(b.formatted, args, i) && a.styles == b.styles && a.tokens == b.tokens
  {
  }

  /** One segment with styling disabled adds the piece of its text with the
      toggling markers dropped. */
  lemma DisabledSegment(mode: Mode, acc: Acc, strings: seq<string>, args: seq<Value>, hints: set<nat>, i: nat)
    returns (t: string)
    requires mode.disable && i < |strings|
    ensures Dropped(strings[i], t)
    ensures var next := Segment(mode, acc, strings, args, hints, i);
      next.result == acc.result + Piece(t, args, i) && next.styles == acc.styles
  {
    var b0 := Buf(acc.tokens, "", acc.styles);
    DisabledScan(mode, b0, None, strings[i], 0);
    var b := ScanFrom(mode, b0, None, strings[i], 0);
    assert b.formatted[0..] == b.formatted;
    assert strings[i][0..] == strings[i];
    PieceFinish(acc.result, b, args, i);
    t := b.formatted;
  }

  lemma {:induction false} DisabledSegments(mode: Mode, acc: Acc, strings: seq<string>, args: seq<Value>,
                                            hints: set<nat>, i: nat, done: seq<string>)
    returns (texts: seq<string>)
    requires mode.disable && i <= |strings| && |done| == i
    requires forall k :: 0 <= k < i ==> Dropped(strings[k], done[k])
    requires acc.result == Pieces(done, args) && acc.styles == []
    ensures |texts| == |strings| && texts[..i] == done
    ensures forall k :: 0 <= k < |strings| ==> Dropped(strings[k], texts[k])
    ensures var out := SegmentsFrom(mode, acc, strings, args, hints, i);
      out.result == Pieces(texts, args) && out.styles == []
    decreases |strings| - i
  {
    if i == |strings| {
      texts := done;
      assert texts[..i] == done;
    } else {
      var t := DisabledSegment(mode, acc, strings, args, hints, i);
      var next := Segment(mode, acc, strings, args, hints, i);
      DoneStep(strings, args, done, t, i);
      SegmentsStep(mode, acc, next, strings, args, hints, i);
      texts := DisabledSegments(mode, next, strings, args, hints, i + 1, done + [t]);
      assert texts[..i] == texts[..i + 1][..i];
    }
  }

  /** The texts of the segments so far, extended by one more. */
  lemma DoneStep(strings: seq<string>, args: seq<Value>, done: seq<string>, t: string, i: nat)
    requires i < |strings| && |done| == i
    requires forall k :: 0 <= k < i ==> Dropped(strings[k], done[k])
    requires Dropped(strings[i], t)
    ensures forall k :: 0 <= k < i + 1 ==> Dropped(strings[k], (done + [t])[k])
    ensures (done + [t])[..i] == done
    ensures Pieces(done + [t], args) == Pieces(done, args) + Piece(t, args, i)
  {
    assert (done + [t])[..i] == done;
  }

  /** With styling disabled the message is the plain pieces of the segments,
      each segment having lost only toggling markers, then the trace as a
      piece of its own; no style is passed. */
  lemma DisabledOutput(env: Env, strings: seq<string>, args: seq<Value>, hints: set<nat>, trace: string)
    requires env.isUnsupportedConsole && HasRich(args)
    ensures exists texts: seq<string> ::
      && |texts| == |strings|
      && (forall k :: 0 <= k < |strings| ==> Dropped(strings[k], texts[k]))
      && Md(env, strings, args, hints, trace)
         == Pieces(texts, args) + (if trace == "" then [] else [Text(" (@ " + trace + ")")])
  {
    var mode := ModeOf(env, args);
    var texts := DisabledSegments(mode, Acc({}, [], []), strings, args, hints, 0, []);
    var acc := SegmentsFrom(mode, Acc({}, [], []), strings, args, hints, 0);
    assert acc.styles == [];
    assert Md(env, strings, args, hints, trace) == Pieces(texts, args) + (if trace == "" then [] else [Text(" (@ " + trace + ")")]);
  }

  /** The example from the disabled-styling rule: `a ${obj} b` becomes three
      pieces, the object passed as it is. */
  lemma DisabledExample(env: Env, strings: seq<string>, args: seq<Value>, hints: set<nat>)
    requires env == Env(true, true) && strings == ["a ", " b"] && args == [Obj(1)]
    ensures Md(env, strings, args, hints, "") == [Text("a"), Raw(Obj(1)), Text("b")]
  {
    assert IsRich(args[0]);
    var mode := ModeOf(env, args);
    assert mode.disable;
    ExampleSegments(mode, strings, args, hints);
  }

  /** The two segments of the example with styling disabled. */
  lemma ExampleSegments(mode: Mode, strings: seq<string>, args: seq<Value>, hints: set<nat>)
    requires mode.disable && strings == ["a ", " b"] && args == [Obj(1)]
    ensures SegmentsFrom(mode, Acc({}, [], []), strings, args, hints, 0)
         == Acc({}, [Text("a"), Raw(Obj(1)), Text("b")], [])
  {
    ExamplePieces(args);
    var a0 := Acc({}, [], []);
    var a1 := Segment(mode, a0, strings, args, hints, 0);
    ExampleSegment(mode, a0, strings, args, hints, 0, "a ", [Text("a"), Raw(Obj(1))]);
    ExampleSegment(mode, a1, strings, args, hints, 1, " b", [Text("b")]);
    LastTwoSegments(mode, a0, strings, args, hints, 0);
  }

  /** The trimmed pieces of the example's two strings. */
  lemma ExamplePieces(args: seq<Value>)
    requires args == [Obj(1)]
    ensures NoMarkers("a ") && NoMarkers(" b")
    ensures Piece("a ", args, 0) == [Text("a"), Raw(Obj(1))]
    ensures Piece(" b", args, 1) == [Text("b")]
  {
    assert Trim("a ", false, true) == "a" && Trim(" b", true, false) == "b";
  }

  lemma ExampleSegment(mode: Mode, acc: Acc, strings: seq<string>, args: seq<Value>, hints: set<nat>, i: nat,
                       s: string, piece: seq<Item>)
    requires mode.disable && i < |strings| && strings[i] == s && NoMarkers(s)
    requires Piece(s, args, i) == piece
    ensures Segment(mode, acc, strings, args, hints, i) == Acc(acc.tokens, acc.result + piece, acc.styles)
  {
    var b0 := Buf(acc.tokens, "", acc.styles);
    PlainSegment(mode, b0, s);
    assert "" + s == s;
    PlainFinish(acc.result, Buf(acc.tokens, s, acc.styles), args, i);
  }
}
