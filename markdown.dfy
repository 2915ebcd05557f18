/**
  `md`: the console formatter with a subset of Markdown. Literal segments are
  scanned one character at a time; `**`/`__` toggle bold, `*`/`_` italic and a
  backtick inline code, each under a boundary rule, and the arguments are
  interleaved between the segments. Three output forms:
  - terminal: one string with ANSI codes, followed by the object arguments;
  - browser: one format string with `%c`/`%o` directives, followed by the style
    strings and object arguments they consume;
  - styling disabled (an unsupported console and some object argument): plain
    pieces with the arguments as separate elements.

  `Md` is the specification (the scan written as recursion over the same
  state), `Format` the loop that the source runs, proved equal to it.
 */
module Markdown {
  import opened Values

  /** The two environment flags, detected by the host in the source. */
  datatype Env = Env(isBrowser: bool, isUnsupportedConsole: bool)

  /** The CSS a browser gets for each style, and for the trace. */
  datatype Css = Css(bold: string, boldOff: string, italic: string, italicOff: string,
                     code: string, codeOff: string, changed: string, changedOff: string,
                     trace: string)

  /** The CSS strings the source writes out. */
  const BrowserCss: Css := Css(
    "font-weight: bold;", "font-weight: normal;",
    "font-style: italic;", "font-style: normal;",
    "background: hsla(0,0%,70%,.3); border-radius:3px; padding: 0 2px;", "background: unset;",
    "text-decoration: underline; text-decoration-color: green; text-decoration-style: wavy; padding-bottom: 1px; text-decoration-skip-ink: none;",
    "text-decoration: none; padding-bottom: 0;",
    "color: #999; font-style: italic; font-size: 0.9em; padding-left: 2em;")

  /** What one `md` invocation fixes up front: the output form, whether
      styling is disabled, and the CSS of the browser form (`ModeOf` always
      picks `BrowserCss`). */
  datatype Mode = Mode(browser: bool, disable: bool, css: Css)

  /** The keys of the token map: `**`, `*`, `__`, `_`, backtick and the
      changed-argument bracket `~`. Doubled and single forms are separate keys. */
  datatype Marker = DoubleStar | Star | DoubleUnderscore | Underscore | Backtick | Tilde

  function MarkerText(m: Marker): (t: string)
    ensures NoPercent(t)
  {
    match m
    case DoubleStar => "**"
    case Star => "*"
    case DoubleUnderscore => "__"
    case Underscore => "_"
    case Backtick => "`"
    case Tilde => "~"
  }

  const Esc: char := '\U{1B}'

  /** The ANSI escape that opens a style in a terminal. */
  function AnsiOn(m: Marker): string {
    match m
    case DoubleStar => [Esc] + "[1m"
    case DoubleUnderscore => [Esc] + "[1m"
    case Star => [Esc] + "[3m"
    case Underscore => [Esc] + "[3m"
    case Backtick => [Esc] + "[96m" + [Esc] + "[1m"
    case Tilde => ""
  }

  /** The ANSI escape that closes a style in a terminal. */
  function AnsiOff(m: Marker): string {
    match m
    case DoubleStar => [Esc] + "[22m"
    case DoubleUnderscore => [Esc] + "[22m"
    case Star => [Esc] + "[23m"
    case Underscore => [Esc] + "[23m"
    case Backtick => [Esc] + "[39m" + [Esc] + "[22m"
    case Tilde => ""
  }

  function CssOn(m: Marker, css: Css): string {
    match m
    case DoubleStar => css.bold
    case DoubleUnderscore => css.bold
    case Star => css.italic
    case Underscore => css.italic
    case Backtick => css.code
    case Tilde => css.changed
  }

  /** The closing CSS; the `~` bracket is closed with an empty style. */
  function CssOff(m: Marker, css: Css): string {
    match m
    case DoubleStar => css.boldOff
    case DoubleUnderscore => css.boldOff
    case Star => css.italicOff
    case Underscore => css.italicOff
    case Backtick => css.codeOff
    case Tilde => ""
  }

  /** The `open` and `close` arguments `process` gets for a marker. */
  function OnStyle(m: Marker, mode: Mode): string {
    if mode.browser then CssOn(m, mode.css) else AnsiOn(m)
  }
  function OffStyle(m: Marker, mode: Mode): string {
    if mode.browser then CssOff(m, mode.css) else AnsiOff(m)
  }

  /** The style that opens the `~` bracket around a changed argument. */
  function ChangedOn(mode: Mode): string {
    OnStyle(Tilde, mode)
  }
  /** Passed as the `open` style of the second `~` call, which always closes. */
  function ChangedOff(mode: Mode): string {
    if mode.browser then mode.css.changedOff else ""
  }

  /** The characters that `\s` stands for in JavaScript: tab to carriage
      return, the space, and the Unicode spaces and separators. */
  predicate IsWhitespace(c: char) {
    '\t' <= c <= '\r' || c == ' ' || c == '\U{A0}' || c == '\U{1680}' || '\U{2000}' <= c <= '\U{200A}'
    || c == '\U{2028}' || c == '\U{2029}' || c == '\U{202F}' || c == '\U{205F}' || c == '\U{3000}'
    || c == '\U{FEFF}'
  }

  /** The SEPARATOR character class. Its ASCII punctuation is all of it, in
      four ranges: `!` to `/`, `:` to `@`, `[` to `` ` `` and `{` to `~`; then
      the en and em dashes and the curly quotes. */
  predicate IsSeparator(c: char) {
    IsWhitespace(c) || '!' <= c <= '/' || ':' <= c <= '@' || '[' <= c <= '`' || '{' <= c <= '~'
    || c == '\U{2013}' || c == '\U{2014}' || c == '\U{2018}' || c == '\U{2019}'
    || c == '\U{201C}' || c == '\U{201D}'
  }

  /** `checkNextOrPrev`: the start or end of the segment (None) is a boundary,
      and so is a string whose last character is a separator. */
  predicate Boundary(x: Option<string>) {
    x.None? || (|x.value| > 0 && IsSeparator(x.value[|x.value| - 1]))
  }

  /** The character at `k` as a one-character string, None past the end. */
  function At(s: string, k: nat): Option<string> {
    if k < |s| then Some([s[k]]) else None
  }

  /** `s.endsWith('%c')`. */
  predicate EndsWithStyle(s: string) {
    |s| >= 2 && s[|s| - 2] == '%' && s[|s| - 1] == 'c'
  }

  /** `s.endsWith(' ')`. */
  predicate EndsWithSpace(s: string) {
    |s| > 0 && s[|s| - 1] == ' '
  }

  predicate StartsWith(s: string, prefix: string) {
    |prefix| <= |s| && s[..|prefix|] == prefix
  }

  /** JavaScript's `x += s` on an element of the result or styles array. */
  function AppendText(x: Item, s: string): Item {
    match x
    case Text(t) => Text(t + s)
    case Raw(v) => Text(Coerce(v) + s)
  }

  /** `result[result.length - 1] += s`. */
  function AppendLast(r: seq<Item>, s: string): (r': seq<Item>)
    requires |r| > 0
    ensures |r'| == |r| && r'[..|r| - 1] == r[..|r| - 1]
  {
    r[..|r| - 1] + [AppendText(r[|r| - 1], s)]
  }

  /** The state the scan of one segment updates: the token map, the segment
      buffer `formatted`, and the styles array. */
  datatype Buf = Buf(tokens: set<Marker>, formatted: string, styles: seq<Item>)

  /** `setStylesAndFormatted`: emit one style (unless styling is disabled) and
      record whether the marker is now open. */
  function SetStyles(mode: Mode, b: Buf, m: Marker, value: string, open: bool): (r: Buf)
    ensures r.tokens == if open then b.tokens + {m} else b.tokens - {m}
  {
    var tokens := if open then b.tokens + {m} else b.tokens - {m};
    if mode.disable then Buf(tokens, b.formatted, b.styles)
    else if mode.browser then
      if EndsWithStyle(b.formatted) then
        // `styles[styles.length - 1] += value`; on an empty array this writes
        // the property "-1", which is not an element.
        if |b.styles| > 0 then Buf(tokens, b.formatted, AppendLast(b.styles, value))
        else Buf(tokens, b.formatted, b.styles)
      else Buf(tokens, b.formatted + "%c", b.styles + [Text(value)])
    else Buf(tokens, b.formatted + value, b.styles)
  }

  /** `process`: a marker closes if it is open and the next character is a
      boundary, opens if it is closed and the previous one is a boundary, and
      is otherwise copied literally (the second component is `char`: None
      after a toggle, the marker's text when it is literal). */
  function Process(mode: Mode, b: Buf, m: Marker, open: string, close: string,
                   next: Option<string>, prev: Option<string>): (Buf, Option<string>)
  {
    if m in b.tokens && Boundary(next) then (SetStyles(mode, b, m, close, false), None)
    else if m !in b.tokens && Boundary(prev) then (SetStyles(mode, b, m, open, true), None)
    else (b, Some(MarkerText(m)))
  }

  /** The marker a scan position starts with, the styles it toggles with, and
      how many characters it spans. */
  function MarkerAt(str: string, j: nat): (r: Option<(Marker, nat)>)
    requires j < |str|
    ensures r.Some? ==> 1 <= r.value.1 && j + r.value.1 <= |str|
  {
    if str[j] == '*' then
      if j + 1 < |str| && str[j + 1] == '*' then Some((DoubleStar, 2)) else Some((Star, 1))
    else if str[j] == '_' then
      if j + 1 < |str| && str[j + 1] == '_' then Some((DoubleUnderscore, 2)) else Some((Underscore, 1))
    else if str[j] == '`' then Some((Backtick, 1))
    else None
  }

  /** One iteration of the inner loop at position `j`: the new buffer, the new
      `prev` and the next position. */
  function Step(mode: Mode, b: Buf, prev: Option<string>, str: string, j: nat): (r: (Buf, Option<string>, nat))
    requires j < |str|
    ensures j < r.2 <= |str|
  {
    var mk := MarkerAt(str, j);
    if mk.None? then (b.(formatted := b.formatted + [str[j]]), Some([str[j]]), j + 1)
    else
      var m, w := mk.value.0, mk.value.1;
      var p := Process(mode, b, m, OnStyle(m, mode), OffStyle(m, mode), At(str, j + w), prev);
      (if p.1.Some? then p.0.(formatted := p.0.formatted + p.1.value) else p.0, p.1, j + w)
  }

  /** The inner loop from position `j` to the end of the segment. */
  function ScanFrom(mode: Mode, b: Buf, prev: Option<string>, str: string, j: nat): Buf
    requires j <= |str|
    decreases |str| - j
  {
    if j == |str| then b
    else
      var r := Step(mode, b, prev, str, j);
      ScanFrom(mode, r.0, r.1, str, r.2)
  }

  /** What the outer loop carries from one segment to the next. */
  datatype Acc = Acc(tokens: set<Marker>, result: seq<Item>, styles: seq<Item>)

  /** How a string argument appears when styling is disabled, and any other argument. */
  function PlainArg(v: Value): Item {
    if v.Str? then Text(Quote(v.s)) else Raw(v)
  }

  /** The trimming done when styling is disabled: one trailing space before a
      following argument, then one leading space after a preceding one. */
  function Trim(f: string, hasPrev: bool, hasNext: bool): string {
    var hi := if hasNext && EndsWithSpace(f) then |f| - 1 else |f|;
    var lo := if hasPrev && hi > 0 && f[0] == ' ' then 1 else 0;
    f[lo..hi]
  }

  /** How argument `i` shows in the format string: inline as JSON, or `%o`. */
  function ArgText(args: seq<Value>, i: nat): string {
    if i < |args| then (if IsRich(args[i]) then "%o" else Serialize(args[i])) else ""
  }

  /** The object argument `i` as it is passed after the format string, if it is one. */
  function RichAt(args: seq<Value>, i: nat): seq<Item> {
    if i < |args| && IsRich(args[i]) then [Raw(args[i])] else []
  }

  /** `process(..., '~', style, '', null, null)`: with no neighbours both
      boundary tests pass, so `~` always flips. */
  function ToggleChanged(mode: Mode, b: Buf, style: string): Buf {
    Process(mode, b, Tilde, style, "", None, None).0
  }

  /** The rest of one outer iteration, after the segment `i` has been scanned into `b`. */
  function FinishSegment(mode: Mode, result: seq<Item>, b: Buf, args: seq<Value>, hints: set<nat>, i: nat): Acc {
    if mode.disable then FinishPlain(result, b, args, i)
    else FinishStyled(mode, result, b, args, i < |args| && i in hints, i)
  }

  /** Styling disabled: the trimmed segment and the argument become pieces of their own. */
  function FinishPlain(result: seq<Item>, b: Buf, args: seq<Value>, i: nat): Acc {
    var f := Trim(b.formatted, i > 0, i < |args|);
    var r1 := if f != "" then result + [Text(f)] else result;
    var r2 := if i < |args| then r1 + [PlainArg(args[i])] else r1;
    Acc(b.tokens, r2, b.styles)
  }

  /** Styling on: the segment and the argument are appended to the single
      format string, the argument inside the `~` bracket when it is hinted. */
  function FinishStyled(mode: Mode, result: seq<Item>, b: Buf, args: seq<Value>, hinted: bool, i: nat): Acc {
    var r0 := if result == [] then [Text("")] else result;
    var b1 := if hinted then ToggleChanged(mode, b, ChangedOn(mode)) else b;
    var r1 := if b1.formatted != "" then AppendLast(r0, b1.formatted) else r0;
    var r2 := if i < |args| then AppendLast(r1, ArgText(args, i)) else r1;
    var s2 := b1.styles + RichAt(args, i);
    if hinted then
      var b3 := ToggleChanged(mode, Buf(b1.tokens, "", s2), ChangedOff(mode));
      Acc(b3.tokens, AppendLast(r2, b3.formatted), b3.styles)
    else Acc(b1.tokens, r2, s2)
  }

  /** One outer iteration: `formatted` and `prev` start afresh, the tokens do not. */
  function Segment(mode: Mode, acc: Acc, strings: seq<string>, args: seq<Value>, hints: set<nat>, i: nat): Acc
    requires i < |strings|
  {
    var b := ScanFrom(mode, Buf(acc.tokens, "", acc.styles), None, strings[i], 0);
    FinishSegment(mode, acc.result, b, args, hints, i)
  }

  /** The outer loop from segment `i` on. */
  function SegmentsFrom(mode: Mode, acc: Acc, strings: seq<string>, args: seq<Value>, hints: set<nat>, i: nat): Acc
    requires i <= |strings|
    decreases |strings| - i
  {
    if i == |strings| then acc
    else SegmentsFrom(mode, Segment(mode, acc, strings, args, hints, i), strings, args, hints, i + 1)
  }

  /** The trace suffix, then the styles appended after the result. */
  function Finish(mode: Mode, acc: Acc, trace: string): seq<Item> {
    var r :=
      if trace == "" then acc.result
      else if mode.disable then acc.result + [Text(" (@ " + trace + ")")]
      else
        var r0 := if acc.result == [] then [Text("")] else acc.result;
        if mode.browser then AppendLast(r0, "%c(@ " + trace + ")")
        else AppendLast(r0, "  " + [Esc] + "[2m(@ " + trace + ")" + [Esc] + "[22m");
    var styles := if trace != "" && !mode.disable && mode.browser then acc.styles + [Text(mode.css.trace)] else acc.styles;
    r + styles
  }

  predicate HasRich(args: seq<Value>) {
    exists k :: 0 <= k < |args| && IsRich(args[k])
  }

  function ModeOf(env: Env, args: seq<Value>): Mode {
    Mode(env.isBrowser, env.isUnsupportedConsole && HasRich(args), BrowserCss)
  }

  /** `md(strings, args, hints, trace)`: the array handed to `console.log`. */
  function Md(env: Env, strings: seq<string>, args: seq<Value>, hints: set<nat>, trace: string): seq<Item> {
    var mode := ModeOf(env, args);
    Finish(mode, SegmentsFrom(mode, Acc({}, [], []), strings, args, hints, 0), trace)
  }

  /** The inner loop of `md` over one segment: `formatted` and `prev` start
      afresh, the token map and the styles array carry over. */
  method ScanSegment(mode: Mode, tokens0: set<Marker>, styles0: seq<Item>, str: string)
    returns (tokens: set<Marker>, formatted: string, styles: seq<Item>)
    ensures Buf(tokens, formatted, styles) == ScanFrom(mode, Buf(tokens0, "", styles0), None, str, 0)
  {
    tokens, formatted, styles := tokens0, "", styles0;
    var prev: Option<string> := None;
    var j := 0;
    while j < |str|
      invariant 0 <= j <= |str|
      invariant ScanFrom(mode, Buf(tokens, formatted, styles), prev, str, j)
             == ScanFrom(mode, Buf(tokens0, "", styles0), None, str, 0)
    {
      ScanFromStep(mode, Buf(tokens, formatted, styles), prev, str, j);
      tokens, formatted, styles, prev, j := ScanChar(mode, tokens, formatted, styles, prev, str, j);
    }
  }

  /** The marker test at the head of the inner loop's body, with the `j++`
      that skips the second character of a doubled marker. */
  method ReadMarker(str: string, j0: nat) returns (marker: Option<Marker>, j: nat)
    requires j0 < |str|
    ensures marker.None? <==> MarkerAt(str, j0).None?
    ensures marker.None? ==> j == j0
    ensures marker.Some? ==> MarkerAt(str, j0) == Some((marker.value, j + 1 - j0))
  {
    j := j0;
    marker := None;
    if str[j] == '*' {
      if j + 1 < |str| && str[j + 1] == '*' {
        j := j + 1;
        marker := Some(DoubleStar);
      } else {
        marker := Some(Star);
      }
    } else if str[j] == '_' {
      if j + 1 < |str| && str[j + 1] == '_' {
        j := j + 1;
        marker := Some(DoubleUnderscore);
      } else {
        marker := Some(Underscore);
      }
    } else if str[j] == '`' {
      marker := Some(Backtick);
    }
  }

  /** One pass of the inner loop's body at position `j`: a marker goes
      through `process`, any other character is copied, and `prev` becomes
      what was copied. */
  method ScanChar(mode: Mode, tokens0: set<Marker>, formatted0: string, styles0: seq<Item>,
                  prev0: Option<string>, str: string, j0: nat)
    returns (tokens: set<Marker>, formatted: string, styles: seq<Item>, prev: Option<string>, j: nat)
    requires j0 < |str|
    ensures (Buf(tokens, formatted, styles), prev, j) == Step(mode, Buf(tokens0, formatted0, styles0), prev0, str, j0)
  {
    tokens, formatted, styles := tokens0, formatted0, styles0;
    var ch: Option<string> := Some([str[j0]]);
    var marker;
    marker, j := ReadMarker(str, j0);
    if marker.Some? {
      var m := marker.value;
      var (b, c) := Process(mode, Buf(tokens, formatted, styles), m,
                            OnStyle(m, mode), OffStyle(m, mode), At(str, j + 1), prev0);
      tokens, formatted, styles, ch := b.tokens, b.formatted, b.styles, c;
      StepMarked(mode, Buf(tokens0, formatted0, styles0), prev0, str, j0);
    } else {
      StepPlain(mode, Buf(tokens0, formatted0, styles0), prev0, str, j0);
    }

    prev := ch;
    if ch.Some? {
      formatted := formatted + ch.value;
    }
    j := j + 1;
    ghost var r := Step(mode, Buf(tokens0, formatted0, styles0), prev0, str, j0);
    assert j == r.2 && prev == r.1;
    assert Buf(tokens, formatted, styles) == r.0;
  }

  lemma StepPlain(mode: Mode, b: Buf, prev: Option<string>, str: string, j: nat)
    requires j < |str| && MarkerAt(str, j).None?
    ensures Step(mode, b, prev, str, j) == (b.(formatted := b.formatted + [str[j]]), Some([str[j]]), j + 1)
  {
  }

  lemma StepMarked(mode: Mode, b: Buf, prev: Option<string>, str: string, j: nat)
    requires j < |str| && MarkerAt(str, j).Some?
    ensures var (m, w) := MarkerAt(str, j).value;
      var p := Process(mode, b, m, OnStyle(m, mode), OffStyle(m, mode), At(str, j + w), prev);
      Step(mode, b, prev, str, j) == (if p.1.Some? then p.0.(formatted := p.0.formatted + p.1.value) else p.0, p.1, j + w)
  {
  }

  lemma ScanFromStep(mode: Mode, b: Buf, prev: Option<string>, str: string, j: nat)
    requires j < |str|
    ensures var r := Step(mode, b, prev, str, j);
            ScanFrom(mode, b, prev, str, j) == ScanFrom(mode, r.0, r.1, str, r.2)
  {
  }

  /** The end of one outer iteration of `md`: trimming and plain pieces when
      styling is disabled; otherwise the changed-argument bracket and the
      argument, inlined or as `%o`, appended to the single format string. */
  method EndSegment(mode: Mode, tokens0: set<Marker>, formatted0: string, result0: seq<Item>,
                    styles0: seq<Item>, args: seq<Value>, hints: set<nat>, i: nat)
    returns (tokens: set<Marker>, result: seq<Item>, styles: seq<Item>)
    ensures Acc(tokens, result, styles) == FinishSegment(mode, result0, Buf(tokens0, formatted0, styles0), args, hints, i)
  {
    if mode.disable {
      tokens, result, styles := EndPlain(tokens0, formatted0, result0, styles0, args, i);
    } else {
      tokens, result, styles := EndStyled(mode, tokens0, formatted0, result0, styles0, args, i < |args| && i in hints, i);
    }
  }

  method EndPlain(tokens0: set<Marker>, formatted0: string, result0: seq<Item>,
                  styles0: seq<Item>, args: seq<Value>, i: nat)
    returns (tokens: set<Marker>, result: seq<Item>, styles: seq<Item>)
    ensures Acc(tokens, result, styles) == FinishPlain(result0, Buf(tokens0, formatted0, styles0), args, i)
  {
    tokens, result, styles := tokens0, result0, styles0;
    var formatted := formatted0;
    if i < |args| && EndsWithSpace(formatted) {
      formatted := formatted[..|formatted| - 1];
    }
    ghost var hi := |formatted|;
    assert formatted == formatted0[..hi];
    if i > 0 && StartsWith(formatted, " ") {
      formatted := formatted[1..];
      assert formatted == formatted0[1..hi];
    }
    if formatted != "" {
      result := result + [Text(formatted)];
    }
    if i < |args| {
      result := result + [PlainArg(args[i])];
    }
  }

  method EndStyled(mode: Mode, tokens0: set<Marker>, formatted0: string, result0: seq<Item>,
                   styles0: seq<Item>, args: seq<Value>, hinted: bool, i: nat)
    returns (tokens: set<Marker>, result: seq<Item>, styles: seq<Item>)
    ensures Acc(tokens, result, styles) == FinishStyled(mode, result0, Buf(tokens0, formatted0, styles0), args, hinted, i)
  {
    tokens, result, styles := tokens0, result0, styles0;
    var formatted := formatted0;
    if result == [] {
      result := result + [Text("")];
    }
    if hinted {
      var b := ToggleChanged(mode, Buf(tokens, formatted, styles), ChangedOn(mode));
      tokens, formatted, styles := b.tokens, b.formatted, b.styles;
    }
    ghost var b1 := Buf(tokens, formatted, styles);
    assert b1 == if hinted then ToggleChanged(mode, Buf(tokens0, formatted0, styles0), ChangedOn(mode))
                 else Buf(tokens0, formatted0, styles0);
    if formatted != "" {
      result := AppendLast(result, formatted);
    }
    ghost var r1 := result;
    assert b1.styles + [] == b1.styles;
    if i < |args| {
      if IsRich(args[i]) {
        result := AppendLast(result, "%o");
        styles := styles + [Raw(args[i])];
      } else {
        result := AppendLast(result, Serialize(args[i]));
      }
    }
    assert result == if i < |args| then AppendLast(r1, ArgText(args, i)) else r1;
    assert styles == b1.styles + RichAt(args, i);
    if hinted {
      formatted := "";
      var b := ToggleChanged(mode, Buf(tokens, formatted, styles), ChangedOff(mode));
      tokens, formatted, styles := b.tokens, b.formatted, b.styles;
      result := AppendLast(result, formatted);
    }
  }

  /** The loop `md` runs, over the same state as the source. */
  method Format(env: Env, strings: seq<string>, args: seq<Value>, hints: set<nat>, trace: string)
    returns (message: seq<Item>)
    ensures message == Md(env, strings, args, hints, trace)
  {
    var disableStyling := env.isUnsupportedConsole && HasRich(args);
    var mode := Mode(env.isBrowser, disableStyling, BrowserCss);
    assert mode == ModeOf(env, args);

    var tokens: set<Marker> := {};
    var formatted := "";
    var result: seq<Item> := [];
    var styles: seq<Item> := [];

    var i := 0;
    while i < |strings|
      invariant 0 <= i <= |strings|
      invariant SegmentsFrom(mode, Acc(tokens, result, styles), strings, args, hints, i)
             == SegmentsFrom(mode, Acc({}, [], []), strings, args, hints, 0)
    {
      var str := strings[i];
      tokens, formatted, styles := ScanSegment(mode, tokens, styles, str);

      tokens, result, styles := EndSegment(mode, tokens, formatted, result, styles, args, hints, i);
      i := i + 1;
    }

    if trace != "" {
      if disableStyling {
        result := result + [Text(" (@ " + trace + ")")];
      } else {
        if result == [] {
          result := result + [Text("")];
        }
        if env.isBrowser {
          result := AppendLast(result, "%c(@ " + trace + ")");
          styles := styles + [Text(mode.css.trace)];
        } else {
          result := AppendLast(result, "  " + [Esc] + "[2m(@ " + trace + ")" + [Esc] + "[22m");
        }
      }
    }

    message := result + styles;
  }
}
