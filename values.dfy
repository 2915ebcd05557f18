/**
  The values a log call can carry, and how the formatter turns a primitive
  value into text: the JSON form (quoted strings, decimal integers, `true`,
  `false`, `null`) that `JSON.stringify` produces, with `undefined` printed
  as the word `undefined` because the formatter concatenates whatever
  `JSON.stringify` returns.
 */
module Values {

  datatype Option<+T> = None | Some(value: T)

  /** An argument of a log call. Objects and functions are references,
      identified by `id`; everything else is a primitive compared by value. */
  datatype Value =
    | Str(s: string)
    | Int(n: int)
    | Bool(b: bool)
    | Null
    | Undefined
    | Obj(id: nat)
    | Func(id: nat)

  /** A "rich" value is passed to the console out of band (`%o`), never inlined. */
  predicate IsRich(v: Value) {
    v.Obj? || v.Func?
  }

  /** What a call of `useTilg` returns: a value passed through, or the tag
      function that takes a template. */
  datatype Returned = Passed(value: Value) | InnerFunction

  /** `args[0]` in JavaScript: the first value, or `undefined` when there is none. */
  function First(args: seq<Value>): (v: Value)
    ensures |args| > 0 ==> v == args[0]
    ensures |args| == 0 ==> v == Undefined
  {
    if |args| > 0 then args[0] else Undefined
  }

  /** One element of the array handed to `console.log`: a string, or a value passed through. */
  datatype Item = Text(text: string) | Raw(value: Value)

  predicate IsDigit(c: char) {
    '0' <= c <= '9'
  }

  predicate AllDigits(s: string) {
    forall k :: 0 <= k < |s| ==> IsDigit(s[k])
  }

  /** No percent sign: text that a browser console cannot mistake for a directive. */
  predicate NoPercent(s: string) {
    forall k :: 0 <= k < |s| ==> s[k] != '%'
  }

  function DigitChar(d: nat): (c: char)
    requires d < 10
    ensures IsDigit(c) && c as int - '0' as int == d
  {
    ('0' as int + d) as char
  }

  /** Decimal digits of a natural number, without leading zeros. */
  function NatToString(n: nat): (s: string)
    ensures |s| > 0 && AllDigits(s)
    decreases n
  {
    if n < 10 then [DigitChar(n)] else NatToString(n / 10) + [DigitChar(n % 10)]
  }

  /**
   * Plain decimal notation of an integer: what `JSON.stringify` and `'' + n`
   * give a JavaScript number holding an integer of magnitude below 10^21.
   */
  function IntToString(n: int): (s: string)
    ensures |s| > 0 && NoPercent(s)
    ensures s[0] == '-' || IsDigit(s[0])
  {
    if n < 0 then "-" + NatToString(-n) else NatToString(n)
  }

  /** The value of a string of decimal digits, the inverse of NatToString. */
  function DigitsValue(s: string): nat
    requires AllDigits(s)
  {
    if s == [] then 0 else DigitsValue(s[..|s| - 1]) * 10 + (s[|s| - 1] as int - '0' as int)
  }

  /** Reads an integer back from its decimal text; None for any other text. */
  function ParseInt(s: string): Option<int> {
    if |s| > 1 && s[0] == '-' && AllDigits(s[1..]) then Some(0 - DigitsValue(s[1..]) as int)
    else if |s| > 0 && AllDigits(s) then Some(DigitsValue(s))
    else None
  }

  lemma {:induction false} NatToStringRoundTrip(n: nat)
    ensures DigitsValue(NatToString(n)) == n
    decreases n
  {
    if n >= 10 {
      var s := NatToString(n);
      assert s[..|s| - 1] == NatToString(n / 10);
      NatToStringRoundTrip(n / 10);
    }
  }

  /** Printing an integer loses nothing: the text reads back as the same integer. */
  lemma IntToStringRoundTrip(n: int)
    ensures ParseInt(IntToString(n)) == Some(n)
  {
    if n < 0 {
      var t := NatToString(-n);
      var s := "-" + t;
      assert s[1..] == t;
      assert !IsDigit(s[0]);
      NatToStringRoundTrip(-n);
      assert ParseInt(s) == Some(0 - DigitsValue(t) as int);
    } else {
      NatToStringRoundTrip(n);
    }
  }

  function HexDigit(d: nat): (c: char)
    requires d < 16
  {
    if d < 10 then ('0' as int + d) as char else ('a' as int + d - 10) as char
  }

  function HexValue(c: char): Option<nat> {
    if '0' <= c <= '9' then Some(c as int - '0' as int)
    else if 'a' <= c <= 'f' then Some(c as int - 'a' as int + 10)
    else None
  }

  const Backspace: char := '\U{8}'
  const FormFeed: char := '\U{C}'

  /** How `JSON.stringify` writes one character inside a string literal. */
  function EscapeChar(c: char): (e: string)
    ensures |e| > 0 && NoPercent(e) == (c != '%')
  {
    if c == '"' then "\\\""
    else if c == '\\' then "\\\\"
    else if c == Backspace then "\\b"
    else if c == FormFeed then "\\f"
    else if c == '\n' then "\\n"
    else if c == '\r' then "\\r"
    else if c == '\t' then "\\t"
    else if (c as int) < 0x20 then "\\u00" + [HexDigit(c as int / 16), HexDigit(c as int % 16)]
    else assert [c][0] == c; [c]
  }

  /** `s` with every character escaped. */
  function Escape(s: string): string {
    EscapeFrom(s, 0)
  }

  /** The escaped text of `s[i..]`. */
  function EscapeFrom(s: string, i: nat): string
    requires i <= |s|
    decreases |s| - i
  {
    if i == |s| then [] else EscapeChar(s[i]) + EscapeFrom(s, i + 1)
  }

  /** A character JSON writes as it is. */
  predicate Ordinary(c: char) {
    c as int >= 0x20 && c != '"' && c != '\\'
  }

  lemma EscapeOrdinary(s: string)
    requires forall k :: 0 <= k < |s| ==> Ordinary(s[k])
    ensures Escape(s) == s
  {
    EscapeOrdinaryFrom(s, 0);
  }

  lemma {:induction false} EscapeOrdinaryFrom(s: string, i: nat)
    requires i <= |s| && forall k :: 0 <= k < |s| ==> Ordinary(s[k])
    ensures EscapeFrom(s, i) == s[i..]
    decreases |s| - i
  {
    if i < |s| {
      assert Ordinary(s[i]);
      assert EscapeChar(s[i]) == [s[i]];
      EscapeOrdinaryFrom(s, i + 1);
      assert [s[i]] + s[i + 1..] == s[i..];
    }
  }

  /** `JSON.stringify` of a string: the escaped text between double quotes. */
  function Quote(s: string): (q: string)
    ensures |q| >= 2 && q[0] == '"' && q[|q| - 1] == '"'
  {
    "\"" + Escape(s) + "\""
  }

  /** Reads the body of a JSON string literal back (the escapes Escape produces,
      with `\u` limited to `\u00XX`); None when the text is not such a body. */
  function Unescape(t: string): Option<string>
    decreases |t|
  {
    if t == [] then Some([])
    else if t[0] == '"' || (t[0] as int) < 0x20 then None
    else if t[0] != '\\' then Prepend(t[0], Unescape(t[1..]))
    else if |t| < 2 then None
    else if t[1] == '"' || t[1] == '\\' then Prepend(t[1], Unescape(t[2..]))
    else if t[1] == 'b' then Prepend(Backspace, Unescape(t[2..]))
    else if t[1] == 'f' then Prepend(FormFeed, Unescape(t[2..]))
    else if t[1] == 'n' then Prepend('\n', Unescape(t[2..]))
    else if t[1] == 'r' then Prepend('\r', Unescape(t[2..]))
    else if t[1] == 't' then Prepend('\t', Unescape(t[2..]))
    else if t[1] == 'u' && |t| >= 6 && t[2] == '0' && t[3] == '0'
            && HexValue(t[4]).Some? && HexValue(t[5]).Some? && HexValue(t[4]).value < 2
    then Prepend((HexValue(t[4]).value * 16 + HexValue(t[5]).value) as char, Unescape(t[6..]))
    else None
  }

  function Prepend(c: char, r: Option<string>): Option<string> {
    if r.Some? then Some([c] + r.value) else None
  }

  function Unquote(q: string): Option<string> {
    if |q| >= 2 && q[0] == '"' && q[|q| - 1] == '"' then Unescape(q[1..|q| - 1]) else None
  }

  lemma UnescapeChar(c: char, rest: string)
    ensures Unescape(EscapeChar(c) + rest) == Prepend(c, Unescape(rest))
  {
    var t := EscapeChar(c) + rest;
    if (c as int) < 0x20 && c != Backspace && c != FormFeed && c != '\n' && c != '\r' && c != '\t' {
      var hi, lo := c as int / 16, c as int % 16;
      assert t[4] == HexDigit(hi) && t[5] == HexDigit(lo);
      assert HexValue(HexDigit(hi)) == Some(hi);
      assert HexValue(HexDigit(lo)) == Some(lo);
      assert t[6..] == rest;
    } else if |EscapeChar(c)| == 2 {
      assert t[2..] == rest;
    } else {
      assert t[1..] == rest;
    }
  }

  lemma UnescapeEscape(s: string)
    ensures Unescape(Escape(s)) == Some(s)
  {
    UnescapeEscapeFrom(s, 0);
  }

  lemma {:induction false} UnescapeEscapeFrom(s: string, i: nat)
    requires i <= |s|
    ensures Unescape(EscapeFrom(s, i)) == Some(s[i..])
    decreases |s| - i
  {
    if i < |s| {
      UnescapeChar(s[i], EscapeFrom(s, i + 1));
      UnescapeEscapeFrom(s, i + 1);
      assert [s[i]] + s[i + 1..] == s[i..];
    } else {
      assert s[i..] == [];
    }
  }

  /** Quoting is lossless, so two strings never print alike. */
  lemma QuoteRoundTrip(s: string)
    ensures Unquote(Quote(s)) == Some(s)
  {
    var q := Quote(s);
    assert q[1..|q| - 1] == Escape(s);
    UnescapeEscape(s);
  }

  lemma EscapeNoPercent(s: string)
    requires NoPercent(s)
    ensures NoPercent(Escape(s))
  {
    EscapeNoPercentFrom(s, 0);
  }

  lemma {:induction false} EscapeNoPercentFrom(s: string, i: nat)
    requires i <= |s| && NoPercent(s)
    ensures NoPercent(EscapeFrom(s, i))
    decreases |s| - i
  {
    if i < |s| {
      EscapeNoPercentFrom(s, i + 1);
      assert s[i] != '%';
    }
  }

  /** The text a primitive argument is inlined as (`JSON.stringify`; the
      result `undefined` of `JSON.stringify(undefined)` prints as `undefined`). */
  function Serialize(v: Value): (t: string)
    requires !IsRich(v)
    ensures |t| > 0
  {
    match v
    case Str(s) => Quote(s)
    case Int(n) => IntToString(n)
    case Bool(b) => if b then "true" else "false"
    case Null => "null"
    case Undefined => "undefined"
  }

  /** JavaScript's `'' + v`, used when a value meets string concatenation. */
  function Coerce(v: Value): string {
    match v
    case Str(s) => s
    case Int(n) => IntToString(n)
    case Bool(b) => if b then "true" else "false"
    case Null => "null"
    case Undefined => "undefined"
    case Obj(_) => "[object Object]"
    case Func(_) => "function"
  }

  /** Distinct primitive values never print alike: `42` and `"42"` differ, and
      every string keeps its content. */
  lemma SerializeInjective(a: Value, b: Value)
    requires !IsRich(a) && !IsRich(b)
    requires Serialize(a) == Serialize(b)
    ensures a == b
  {
    var t := Serialize(a);
    match a
    case Str(s) =>
      QuoteRoundTrip(s);
      if b.Str? { QuoteRoundTrip(b.s); }
    case Int(n) =>
      IntToStringRoundTrip(n);
      if b.Int? { IntToStringRoundTrip(b.n); }
    case _ =>
  }

  lemma SerializeNoPercent(v: Value)
    requires !IsRich(v)
    requires v.Str? ==> NoPercent(v.s)
    ensures NoPercent(Serialize(v))
  {
    if v.Str? {
      EscapeNoPercent(v.s);
    }
  }
}
