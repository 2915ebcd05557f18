/**
  What the hook's lines look like in a terminal: the component name is an
  inline code span, the props of the render line sit in a code span that
  opens at the end of the first segment and closes at the start of the
  second, and values passed directly are printed separated by commas.
 */
module LifecycleFacts {
  import opened Values
  import opened Markdown
  import opened MarkdownFacts
  import opened Identity
  import opened Lifecycle

  const Terminal: Mode := Mode(false, false, BrowserCss)

  /** The ANSI text of a named component: `<Name/>` between the code colours. */
  function Shown(name: string): string {
    AnsiOn(Backtick) + "<" + name + "/>" + AnsiOff(Backtick)
  }

  lemma {:induction false} NoteShape(k: nat)
    ensures NoMarkers(Note(k)) && NoPercent(Note(k))
    ensures Note(k) != "" ==> Note(k)[0] == ' '
  {
    if k > 0 {
      var t := NatToString(k + 1);
      var n := Note(k);
      assert n == " (" + t + ")";
      forall i | 0 <= i < |n|
        ensures !IsMarkerChar(n[i])
      {
        if 2 <= i < |n| - 1 {
          assert n[i] == t[i - 2] && t[i - 2] in t;
        }
      }
    }
  }

  lemma {:induction false} TagNoMarkers(name: string)
    requires NoMarkers(name)
    ensures NoMarkers("<" + name + "/>")
  {
    NoMarkersAppend(name, "/>");
    assert ("<" + name + "/>")[1..] == name + "/>";
  }

  lemma {:induction false} SingleArgMode(env: Env, props: Value)
    requires !env.isBrowser && !(env.isUnsupportedConsole && IsRich(props))
    ensures ModeOf(env, [props]) == Terminal
  {
    SingleRich([props]);
  }

  /** Where the parts of `<Name/>` followed by `rest` sit. */
  lemma {:induction false} NameLayout(name: string, rest: string)
    requires name != ""
    ensures var str := ComponentName(name) + rest; var code := "<" + name + "/>";
      && |str| == |code| + 2 + |rest| && str[0] == '`' && str[1..|code| + 1] == code
      && str[|code| + 1] == '`' && str[|code| + 2..] == rest
  {
  }

  /** A code span from `j` to `k` after a boundary, then text without
      markers up to position `e`, which starts with a space. */
  lemma {:induction false} SpanThenText(mode: Mode, b: Buf, str: string, j: nat, k: nat, e: nat)
    requires !mode.browser && !mode.disable && Backtick !in b.tokens
    requires j < k && k + 1 < e <= |str| && str[j] == '`' && str[k] == '`' && str[k + 1] == ' '
    requires PlainBetween(str, j + 1, k) && PlainBetween(str, k + 1, e)
    ensures ScanFrom(mode, b, None, str, j)
         == ScanFrom(mode, Buf(b.tokens, b.formatted + AnsiOn(Backtick) + str[j + 1..k] + AnsiOff(Backtick) + str[k + 1..e], b.styles),
                     Some([str[e - 1]]), str, e)
  {
    assert IsSeparator(' ');
    CodeSpan(mode, b, None, str, j, k);
    PlainRunSome(mode, b.(formatted := b.formatted + AnsiOn(Backtick) + str[j + 1..k] + AnsiOff(Backtick)), None, str, k + 1, e);
  }

  /** Where the parts of a lifecycle line sit, in the form `SpanThenText`
      asks for. */
  lemma {:induction false} LifecycleLayout(name: string, rest: string, str: string, k: nat)
    requires name != "" && NoMarkers(name) && NoMarkers(rest) && |rest| > 0 && rest[0] == ' '
    requires str == ComponentName(name) + rest && k == |name| + 4
    ensures 0 < k && k + 1 < |str| && str[0] == '`' && str[k] == '`' && str[k + 1] == ' '
    ensures str[1..k] == "<" + name + "/>" && str[k + 1..|str|] == rest
    ensures PlainBetween(str, 1, k) && PlainBetween(str, k + 1, |str|)
  {
    NameLayout(name, rest);
    TagNoMarkers(name);
    PlainBetweenOf(str, 1, k);
    assert str[k + 1..|str|] == rest;
    PlainBetweenOf(str, k + 1, |str|);
  }

  /** The one segment of a lifecycle line: the name's code span, then the
      rest copied as it is. The position `j` is the start of the segment. */
  lemma {:induction false} LifecycleScan(name: string, rest: string, j: nat)
    requires j == 0
    requires name != "" && NoMarkers(name) && NoMarkers(rest) && |rest| > 0 && rest[0] == ' '
    ensures ScanFrom(Terminal, Buf({}, "", []), None, ComponentName(name) + rest, j)
         == Buf({}, Shown(name) + rest, [])
  {
    var str := ComponentName(name) + rest;
    var k := |name| + 4;
    LifecycleLayout(name, rest, str, k);
    var b0 := Buf({}, "", []);
    SpanThenText(Terminal, b0, str, j, k, |str|);
    LifecycleFormatted(name, rest, str[j + 1..k], str[k + 1..|str|]);
  }

  lemma {:induction false} LifecycleFormatted(name: string, rest: string, tag: string, text: string)
    requires tag == "<" + name + "/>" && text == rest
    ensures "" + AnsiOn(Backtick) + tag + AnsiOff(Backtick) + text == Shown(name) + rest
  {
    ShownAsCode(name);
    assert "" + AnsiOn(Backtick) == AnsiOn(Backtick);
  }

  /** `Shown` is the tag between the code colours. */
  lemma {:induction false} ShownAsCode(name: string)
    ensures AnsiOn(Backtick) + ("<" + name + "/>") + AnsiOff(Backtick) == Shown(name)
  {
  }

  /** In a terminal a lifecycle line is one string: the name in the code
      colours, the note and the verb. */
  lemma {:induction false} LifecycleTerminal(env: Env, name: string, k: nat, verb: string)
    requires !env.isBrowser && name != "" && NoMarkers(name)
    requires NoMarkers(verb) && |verb| > 0 && verb[0] == ' '
    ensures LifecycleLine(env, ComponentName(name), Note(k), verb) == [Text(Shown(name) + Note(k) + verb)]
  {
    var rest := Note(k) + verb;
    NoteThenVerb(k, verb);
    ConcatAssoc(ComponentName(name), Note(k), verb);
    LifecycleRest(env, name, rest);
    ConcatAssoc(Shown(name), Note(k), verb);
  }

  /** The message of a one-segment line `<Name/>` followed by plain text. */
  lemma {:induction false} LifecycleRest(env: Env, name: string, rest: string)
    requires !env.isBrowser && name != "" && NoMarkers(name)
    requires NoMarkers(rest) && |rest| > 0 && rest[0] == ' '
    ensures Md(env, [ComponentName(name) + rest], [], {}, "") == [Text(Shown(name) + rest)]
  {
    var strings := [ComponentName(name) + rest];
    assert ModeOf(env, []) == Terminal;
    var a1 := LifecycleSegment(name, rest, strings);
    LastSegment(Terminal, Acc({}, [], []), strings, [], {}, 0);
  }

  lemma {:induction false} NoteThenVerb(k: nat, verb: string)
    requires NoMarkers(verb) && |verb| > 0 && verb[0] == ' '
    ensures NoMarkers(Note(k) + verb) && |Note(k) + verb| > 0 && (Note(k) + verb)[0] == ' '
  {
    NoteShape(k);
    NoMarkersAppend(Note(k), verb);
  }

  /** The one segment of a lifecycle line becomes the one string of the message. */
  lemma {:induction false} LifecycleSegment(name: string, rest: string, strings: seq<string>) returns (a1: Acc)
    requires name != "" && NoMarkers(name) && NoMarkers(rest) && |rest| > 0 && rest[0] == ' '
    requires strings == [ComponentName(name) + rest]
    ensures a1 == Segment(Terminal, Acc({}, [], []), strings, [], {}, 0)
    ensures a1 == Acc({}, [Text(Shown(name) + rest)], [])
  {
    LifecycleScan(name, rest, 0);
    var f := Shown(name) + rest;
    TerminalFinish(Terminal, [], Buf({}, f, []), [], {}, 0);
    a1 := Segment(Terminal, Acc({}, [], []), strings, [], {}, 0);
    assert "" + f + "" == f;
  }

  /** The mount line of the first `<App/>` in a terminal. */
  lemma {:induction false} AppMounted(env: Env, name: string, k: nat, verb: string)
    requires !env.isBrowser && name == "App" && k == 0 && verb == " mounted."
    ensures LifecycleLine(env, ComponentName(name), Note(k), verb)
         == [Text("\U{1B}[96m\U{1B}[1m<App/>\U{1B}[39m\U{1B}[22m mounted.")]
  {
    NoMarkersOf("App");
    NoMarkersOf(" mounted.");
    LifecycleTerminal(env, name, k, verb);
    MountedText(name, k, verb);
  }

  lemma {:induction false} MountedText(name: string, k: nat, verb: string)
    requires name == "App" && k == 0 && verb == " mounted."
    ensures Shown(name) + Note(k) + verb == "\U{1B}[96m\U{1B}[1m<App/>\U{1B}[39m\U{1B}[22m mounted."
  {
    ShownAppText(name);
    assert Note(k) == "";
    assert "\U{1B}[96m\U{1B}[1m<App/>\U{1B}[39m\U{1B}[22m" + "" + " mounted."
        == "\U{1B}[96m\U{1B}[1m<App/>\U{1B}[39m\U{1B}[22m mounted.";
  }

  /** `<App/>` in the code colours, spelled out. */
  lemma {:induction false} ShownAppText(name: string)
    requires name == "App"
    ensures Shown(name) == "\U{1B}[96m\U{1B}[1m<App/>\U{1B}[39m\U{1B}[22m"
  {
  }

  /** The first segment of the render line, split at the text between the
      name and the last backtick. */
  lemma {:induction false} RenderedSplit(name: string, note: string, mid: string)
    requires mid == note + " rendered with props: "
    ensures ComponentName(name) + note + " rendered with props: `" == ComponentName(name) + mid + "`"
  {
  }

  /** The text between the name and the last backtick of the render line. */
  lemma {:induction false} RenderedMid(note: string, mid: string)
    requires NoMarkers(note) && (note != "" ==> note[0] == ' ')
    requires mid == note + " rendered with props: "
    ensures NoMarkers(mid) && |mid| > 1 && mid[0] == ' ' && mid[|mid| - 1] == ' '
  {
    RenderedWordsPlain();
    NoMarkersAppend(note, " rendered with props: ");
  }

  /** Where the parts of `<Name/>`, then text, then a backtick sit. */
  lemma {:induction false} SpanLayout(name: string, mid: string, str: string, k: nat)
    requires name != "" && NoMarkers(name) && NoMarkers(mid) && |mid| > 1 && mid[0] == ' ' && mid[|mid| - 1] == ' '
    requires str == ComponentName(name) + mid + "`" && k == |name| + 4
    ensures 0 < k && k + 2 < |str| && str[0] == '`' && str[k] == '`' && str[k + 1] == ' '
    ensures str[|str| - 1] == '`' && str[|str| - 2] == ' '
    ensures str[1..k] == "<" + name + "/>" && str[k + 1..|str| - 1] == mid
    ensures PlainBetween(str, 1, k) && PlainBetween(str, k + 1, |str| - 1)
  {
    SpanIndices(name, mid, str, k);
    TagNoMarkers(name);
    SpanPlain(str, k, "<" + name + "/>", mid);
  }

  lemma {:induction false} SpanIndices(name: string, mid: string, str: string, k: nat)
    requires name != "" && |mid| > 1 && mid[0] == ' ' && mid[|mid| - 1] == ' '
    requires str == ComponentName(name) + mid + "`" && k == |name| + 4
    ensures 0 < k && k + 2 < |str| && str[0] == '`' && str[k] == '`' && str[k + 1] == ' '
    ensures str[|str| - 1] == '`' && str[|str| - 2] == ' '
    ensures str[1..k] == "<" + name + "/>" && str[k + 1..|str| - 1] == mid
  {
    assert str == ComponentName(name) + (mid + "`");
    NameLayout(name, mid + "`");
    assert str[k + 1..|str| - 1] == mid;
  }

  lemma {:induction false} SpanPlain(str: string, k: nat, tag: string, mid: string)
    requires 0 < k && k + 2 < |str| && str[1..k] == tag && str[k + 1..|str| - 1] == mid
    requires NoMarkers(tag) && NoMarkers(mid)
    ensures PlainBetween(str, 1, k) && PlainBetween(str, k + 1, |str| - 1)
  {
    PlainBetweenOf(str, 1, k);
    PlainBetweenOf(str, k + 1, |str| - 1);
  }

  lemma {:induction false} RenderedWordsPlain()
    ensures NoMarkers(" rendered with props: ")
  {
    NoMarkersOf(" rendered with props: ");
  }

  /** The first segment of the render line: the name's code span, the text,
      and a backtick after a space, which opens a code span that is still
      open when the segment ends. The position `j` is the start of the
      segment. */
  lemma {:induction false} RenderedScanFirst(name: string, note: string, j: nat)
    requires j == 0
    requires name != "" && NoMarkers(name) && NoMarkers(note) && (note != "" ==> note[0] == ' ')
    ensures ScanFrom(Terminal, Buf({}, "", []), None, ComponentName(name) + note + " rendered with props: `", j)
         == Buf({Backtick}, Shown(name) + note + " rendered with props: " + AnsiOn(Backtick), [])
  {
    var mid := note + " rendered with props: ";
    RenderedMid(note, mid);
    RenderedSplit(name, note, mid);
    var str := ComponentName(name) + mid + "`";
    var k := |name| + 4;
    SpanLayout(name, mid, str, k);
    SpanThenBacktick(Terminal, str, j, k);
    RenderedFormatted(name, note, str[j + 1..k], str[k + 1..|str| - 1]);
  }

  lemma {:induction false} RenderedFormatted(name: string, note: string, tag: string, mid: string)
    requires tag == "<" + name + "/>" && mid == note + " rendered with props: "
    ensures AnsiOn(Backtick) + tag + AnsiOff(Backtick) + mid + AnsiOn(Backtick)
         == Shown(name) + note + " rendered with props: " + AnsiOn(Backtick)
  {
    ShownAsCode(name);
  }

  /** A code span from `j` to `k`, text without markers starting with a
      space, and a backtick after a space at the very end, which opens a
      code span that is still open when the segment ends. */
  lemma {:induction false} SpanThenBacktick(mode: Mode, str: string, j: nat, k: nat)
    requires !mode.browser && !mode.disable
    requires j < k && k + 2 < |str| && str[j] == '`' && str[k] == '`' && str[k + 1] == ' '
    requires str[|str| - 1] == '`' && str[|str| - 2] == ' '
    requires PlainBetween(str, j + 1, k) && PlainBetween(str, k + 1, |str| - 1)
    ensures ScanFrom(mode, Buf({}, "", []), None, str, j)
         == Buf({Backtick}, AnsiOn(Backtick) + str[j + 1..k] + AnsiOff(Backtick) + str[k + 1..|str| - 1] + AnsiOn(Backtick), [])
  {
    var e := |str| - 1;
    var b0 := Buf({}, "", []);
    SpanThenText(mode, b0, str, j, k, e);
    assert "" + AnsiOn(Backtick) == AnsiOn(Backtick);
    var b2 := Buf({}, AnsiOn(Backtick) + str[j + 1..k] + AnsiOff(Backtick) + str[k + 1..e], []);
    assert Buf(b0.tokens, b0.formatted + AnsiOn(Backtick) + str[j + 1..k] + AnsiOff(Backtick) + str[k + 1..e], b0.styles) == b2;
    BacktickOpens(mode, b2, Some([str[e - 1]]), str, e);
    assert ScanFrom(mode, Buf(b2.tokens + {Backtick}, b2.formatted + AnsiOn(Backtick), b2.styles), None, str, e + 1)
        == Buf(b2.tokens + {Backtick}, b2.formatted + AnsiOn(Backtick), b2.styles);
  }

  /** The second segment of the render line: its backtick closes the span
      the first segment opened. */
  lemma {:induction false} RenderedScanSecond(styles: seq<Item>)
    ensures ScanFrom(Terminal, Buf({Backtick}, "", styles), None, "`.", 0) == Buf({}, AnsiOff(Backtick) + ".", styles)
  {
    assert IsSeparator('.');
    BacktickCloses(Terminal, Buf({Backtick}, "", styles), None, "`.", 0);
    assert "" + AnsiOff(Backtick) == AnsiOff(Backtick);
    PlainStep(Terminal, Buf({}, AnsiOff(Backtick), styles), None, "`.", 1);
  }

  /** In a terminal the render line shows the props inside a code span that
      crosses from the first segment into the second: the backtick the first
      segment opens is closed by the one that starts the second, because the
      token map is carried over while the segment buffer starts afresh. */
  lemma {:induction false} RenderedTerminal(env: Env, name: string, k: nat, props: Value)
    requires !env.isBrowser && !(env.isUnsupportedConsole && IsRich(props))
    requires name != "" && NoMarkers(name)
    ensures RenderedLine(env, ComponentName(name), Note(k), props)
         == [Text(Shown(name) + Note(k) + " rendered with props: "
                  + AnsiOn(Backtick) + ArgText([props], 0) + AnsiOff(Backtick) + ".")]
            + RichAt([props], 0)
  {
    var note := Note(k);
    var args := [props];
    var strings := [ComponentName(name) + note + " rendered with props: `", "`."];
    NoteShape(k);
    SingleArgMode(env, props);
    var a0 := Acc({}, [], []);
    RenderedScanFirst(name, note, 0);
    var f0 := Shown(name) + note + " rendered with props: " + AnsiOn(Backtick);
    TerminalFinish(Terminal, [], Buf({Backtick}, f0, []), args, {}, 0);
    var a1 := Segment(Terminal, a0, strings, args, {}, 0);
    var t1 := f0 + ArgText(args, 0);
    ConcatEmpty(f0);
    assert a1 == Acc({Backtick}, [Text(t1)], RichAt(args, 0));
    RenderedScanSecond(a1.styles);
    var f1 := AnsiOff(Backtick) + ".";
    TerminalFinish(Terminal, a1.result, Buf({}, f1, a1.styles), args, {}, 1);
    var a2 := Segment(Terminal, a1, strings, args, {}, 1);
    ConcatEmpty(t1 + f1);
    assert a2 == Acc({}, [Text(t1 + f1)], a1.styles);
    LastTwoSegments(Terminal, a0, strings, args, {}, 0);
    ConcatAssoc(f0 + ArgText(args, 0), AnsiOff(Backtick), ".");
  }

  /** Five strings regrouped after the first. */
  lemma {:induction false} ConcatAssocHead(a: string, b: string, c: string, d: string, e: string)
    ensures a + b + c + d + e == a + (b + c + d + e)
  {
  }

  /** The render line of the first `<App/>` with object props, in a terminal:
      the props are `%o` inside the code colours and follow the string. */
  lemma {:induction false} AppRendered(env: Env, name: string, k: nat, props: Value)
    requires !env.isBrowser && !env.isUnsupportedConsole && name == "App" && k == 0 && props.Obj?
    ensures RenderedLine(env, ComponentName(name), Note(k), props)
         == [Text("\U{1B}[96m\U{1B}[1m<App/>\U{1B}[39m\U{1B}[22m rendered with props: \U{1B}[96m\U{1B}[1m%o\U{1B}[39m\U{1B}[22m."),
             Raw(props)]
  {
    NoMarkersOf("App");
    RenderedTerminal(env, name, k, props);
    RenderedText(name, k, props);
  }

  lemma {:induction false} RenderedText(name: string, k: nat, props: Value)
    requires name == "App" && k == 0 && props.Obj?
    ensures Shown(name) + Note(k) + " rendered with props: " + AnsiOn(Backtick) + ArgText([props], 0) + AnsiOff(Backtick) + "."
         == "\U{1B}[96m\U{1B}[1m<App/>\U{1B}[39m\U{1B}[22m rendered with props: \U{1B}[96m\U{1B}[1m%o\U{1B}[39m\U{1B}[22m."
    ensures RichAt([props], 0) == [Raw(props)]
  {
    assert ArgText([props], 0) == "%o";
    RenderedHead(name, k);
    ObjectInCodeText();
    ConcatAssocHead(Shown(name) + Note(k) + " rendered with props: ", AnsiOn(Backtick), "%o", AnsiOff(Backtick), ".");
    RenderedAppText();
  }

  /** The two halves of the expected `<App/>` render line joined. */
  lemma {:induction false} RenderedAppText()
    ensures "\U{1B}[96m\U{1B}[1m<App/>\U{1B}[39m\U{1B}[22m rendered with props: " + "\U{1B}[96m\U{1B}[1m%o\U{1B}[39m\U{1B}[22m."
         == "\U{1B}[96m\U{1B}[1m<App/>\U{1B}[39m\U{1B}[22m rendered with props: \U{1B}[96m\U{1B}[1m%o\U{1B}[39m\U{1B}[22m."
  {
  }

  lemma {:induction false} RenderedHead(name: string, k: nat)
    requires name == "App" && k == 0
    ensures Shown(name) + Note(k) + " rendered with props: " == "\U{1B}[96m\U{1B}[1m<App/>\U{1B}[39m\U{1B}[22m rendered with props: "
  {
    ShownAppText(name);
    assert Note(k) == "";
  }

  /** `%o` in the code colours followed by the closing `.`, spelled out. */
  lemma {:induction false} ObjectInCodeText()
    ensures AnsiOn(Backtick) + "%o" + AnsiOff(Backtick) + "." == "\U{1B}[96m\U{1B}[1m%o\U{1B}[39m\U{1B}[22m."
  {
  }

  lemma {:induction false} ArgTextPrefix(values: seq<Value>, m: nat, j: nat)
    requires j < m <= |values|
    ensures ArgText(values[..m], j) == ArgText(values, j)
  {
  }

  /** The segments for values passed directly weave the values into their
      comma-separated list. */
  lemma {:induction false} WovenSeparators(values: seq<Value>, m: nat)
    requires m <= |values|
    ensures Woven(Separators(|values|), values, m) == Joined(values[..m])
  {
    if m > 0 {
      WovenSeparators(values, m - 1);
      WovenJoined(values, m);
    }
  }

  /** One more value woven in, given the values before it. */
  lemma WovenJoined(values: seq<Value>, m: nat)
    requires 0 < m <= |values|
    requires Woven(Separators(|values|), values, m - 1) == Joined(values[..m - 1])
    ensures Woven(Separators(|values|), values, m) == Joined(values[..m])
  {
    JoinedStep(values, m);
    WovenStep(values, m);
    WeaveStep(Woven(Separators(|values|), values, m - 1), Joined(values[..m - 1]), ArgText(values, m - 1), m == 1);
  }

  /** The separator goes in front of every value but the first. */
  lemma WeaveStep(w: string, j: string, t: string, first: bool)
    requires w == j && (first ==> w == "")
    ensures w + (if first then "" else ", ") + t == (if first then "" else j + ", ") + t
  {
    if first {
      assert w + "" + t == t;
    }
  }

  /** Weaving in one more value after its separator. */
  lemma WovenStep(values: seq<Value>, m: nat)
    requires 0 < m <= |values|
    ensures Woven(Separators(|values|), values, m)
         == Woven(Separators(|values|), values, m - 1) + (if m == 1 then "" else ", ") + ArgText(values, m - 1)
  {
    SeparatorAt(|values|, m - 1);
  }

  /** The joined text of the first `m` values, from that of the first `m - 1`. */
  lemma JoinedStep(values: seq<Value>, m: nat)
    requires 0 < m <= |values|
    ensures Joined(values[..m])
         == (if m == 1 then "" else Joined(values[..m - 1]) + ", ") + ArgText(values, m - 1)
  {
    assert values[..m][..m - 1] == values[..m - 1];
    ArgTextPrefix(values, m, m - 1);
  }

  /** The separator before value `i`. */
  lemma SeparatorAt(n: nat, i: nat)
    requires i < n
    ensures Separators(n)[i] == if i > 0 then ", " else ""
  {
  }

  /** In a terminal, values passed directly print as their texts separated
      by `, `, then the trace, then the object values. */
  lemma {:induction false} InlinedTerminal(env: Env, values: seq<Value>, hints: set<nat>, trace: string)
    requires !env.isBrowser && !(env.isUnsupportedConsole && HasRich(values))
    ensures Md(env, Separators(|values|), values, hints, trace)
         == [Text(Joined(values) + TraceText(trace))] + RichArgs(values)
  {
    SeparatorsPlain(|values|);
    TerminalPlain(env, Separators(|values|), values, hints, trace);
    InlinedWoven(values);
  }

  /** No separator holds a marker. */
  lemma SeparatorsPlain(n: nat)
    ensures forall k :: 0 <= k < n + 1 ==> NoMarkers(Separators(n)[k])
  {
    forall k | 0 <= k < n + 1
      ensures NoMarkers(Separators(n)[k])
    {
      if k < n {
        SeparatorAt(n, k);
      }
    }
  }

  /** Woven with their separators, the values are their joined texts. */
  lemma InlinedWoven(values: seq<Value>)
    ensures Woven(Separators(|values|), values, |values| + 1) == Joined(values)
  {
    var strings := Separators(|values|);
    WovenSeparators(values, |values|);
    assert values[..|values|] == values;
    assert Woven(strings, values, |strings|) == Joined(values) + "" + ArgText(values, |values|);
    assert Joined(values) + "" + "" == Joined(values);
  }

  /** The modes of the hook's own lines: the mounted and unmounted lines have
      no argument, so their styling is never disabled; the render line loses
      its styling exactly on an unsupported console when the props are an
      object. */
  lemma LineModes(env: Env, props: Value)
    ensures ModeOf(env, []).browser == env.isBrowser && !ModeOf(env, []).disable
    ensures ModeOf(env, [props]).disable <==> env.isUnsupportedConsole && IsRich(props)
  {
    SingleRich([props]);
  }
}
