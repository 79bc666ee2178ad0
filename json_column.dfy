/**
 * The text encoding of the two list columns of the admin table: the
 * permission list is a JSON array of strings and the managed-event list a
 * JSON array of unsigned integers. The writer is the compact form that
 * jsoncpp's StreamWriter produces with an empty indentation and without
 * UTF-8 output; a list with no element is a null JSON value and is written
 * "null". The reader accepts what the writer produces, with jsoncpp's
 * escapes, and reads anything else as no element at all.
 */
module JsonColumn {
  import opened Wrappers

  newtype uint32 = x: int | 0 <= x < 0x1_0000_0000

  // ----- Strings -----

  predicate IsHexDigit(c: char) { '0' <= c <= '9' || 'a' <= c <= 'f' || 'A' <= c <= 'F' }

  /** A hex digit as jsoncpp writes it: lower case. */
  function HexChar(d: nat): (c: char)
    requires d < 16
    ensures IsHexDigit(c)
  {
    if d < 10 then ('0' as int + d) as char else ('a' as int + d - 10) as char
  }

  /** The value of a hex digit; the reader accepts both cases. */
  function HexValue(c: char): (d: nat)
    requires IsHexDigit(c)
    ensures d < 16
  {
    if '0' <= c <= '9' then c as int - '0' as int
    else if 'a' <= c <= 'f' then c as int - 'a' as int + 10
    else c as int - 'A' as int + 10
  }

  predicate IsHex4(s: string)
  {
    |s| == 4 && IsHexDigit(s[0]) && IsHexDigit(s[1]) && IsHexDigit(s[2]) && IsHexDigit(s[3])
  }

  function Hex4Value(s: string): (v: nat)
    requires IsHex4(s)
    ensures v < 0x10000
  {
    HexValue(s[0]) * 0x1000 + HexValue(s[1]) * 0x100 + HexValue(s[2]) * 0x10 + HexValue(s[3])
  }

  lemma HexDigitRoundTrip(d: nat)
    requires d < 16
    ensures HexValue(HexChar(d)) == d
  {
  }

  /** The four digits of a 16-bit unit recombine to it. */
  lemma Hex4Digits(n: nat)
    requires n < 0x10000
    ensures n / 0x1000 < 16
    ensures n == (n / 0x1000) * 0x1000 + (n / 0x100 % 16) * 0x100 + (n / 0x10 % 16) * 0x10 + n % 16
  {
    var a, b, c, d := n / 0x1000, n / 0x100 % 16, n / 0x10 % 16, n % 16;
    assert n / 0x100 == a * 16 + b;
    assert n / 0x10 == (n / 0x100) * 16 + c;
    assert n == (n / 0x10) * 16 + d;
  }

  /** The six-character escape `\uXXXX` of a 16-bit unit. */
  function UnicodeEscape(n: nat): (s: string)
    requires n < 0x10000
    ensures |s| == 6 && s[0] == '\\' && s[1] == 'u'
    ensures IsHex4(s[2..]) && Hex4Value(s[2..]) == n
  {
    Hex4Digits(n);
    var a, b, c, d := n / 0x1000, n / 0x100 % 16, n / 0x10 % 16, n % 16;
    var s := ['\\', 'u', HexChar(a), HexChar(b), HexChar(c), HexChar(d)];
    assert s[2..] == [s[2], s[3], s[4], s[5]];
    HexDigitRoundTrip(a);
    HexDigitRoundTrip(b);
    HexDigitRoundTrip(c);
    HexDigitRoundTrip(d);
    s
  }

  /**
   * What jsoncpp's string writer emits for one character when it does not
   * emit UTF-8: the quote, the backslash and five control characters get a
   * short escape, the other control characters and every non-ASCII
   * character a `\u` escape, and a character beyond the 16-bit range a
   * surrogate pair of them.
   */
  function EscapeChar(c: char): (s: string)
    ensures s != [] && s[0] != '"'
  {
    var n := c as int;
    if c == '"' then ['\\', '"']
    else if c == '\\' then ['\\', '\\']
    else if n == 0x08 then ['\\', 'b']
    else if n == 0x0C then ['\\', 'f']
    else if c == '\n' then ['\\', 'n']
    else if c == '\r' then ['\\', 'r']
    else if c == '\t' then ['\\', 't']
    else if n < 0x20 then UnicodeEscape(n)
    else if n < 0x80 then [c]
    else if n < 0x10000 then UnicodeEscape(n)
    else SurrogateEscape(n)
  }

  /** The pair of `\u` escapes, high surrogate first, written for a code point beyond the 16-bit range. */
  function SurrogateEscape(n: int): (s: string)
    requires 0x10000 <= n < 0x110000
    ensures |s| == 12 && s[0] == '\\'
  {
    var u := n - 0x10000;
    UnicodeEscape(0xD800 + u / 0x400) + UnicodeEscape(0xDC00 + u % 0x400)
  }

  function EscapeChars(s: string): string
  {
    if s == [] then [] else EscapeChar(s[0]) + EscapeChars(s[1..])
  }

  function QuotedString(s: string): string
  {
    "\"" + EscapeChars(s) + "\""
  }

  function JoinQuoted(xs: seq<string>): string
    requires xs != []
  {
    if |xs| == 1 then QuotedString(xs[0]) else QuotedString(xs[0]) + "," + JoinQuoted(xs[1..])
  }

  function WriteStringArray(xs: seq<string>): string
  {
    if xs == [] then "null" else "[" + JoinQuoted(xs) + "]"
  }

  /**
   * Reads one character of a string body, escaped or not, and returns it
   * with the text after it; nothing at the closing quote or at an escape
   * the reader does not accept.
   */
  function ParseChar(s: string): (r: Option<(char, string)>)
    ensures r.Some? ==> |r.value.1| < |s|
  {
    if s == [] || s[0] == '"' then None
    else if s[0] != '\\' then Some((s[0], s[1..]))
    else ParseEscape(s[1..])
  }

  /** Reads what follows a backslash. */
  function ParseEscape(e: string): (r: Option<(char, string)>)
    ensures r.Some? ==> |r.value.1| < |e|
  {
    if e == [] then None
    else if e[0] == '"' || e[0] == '\\' || e[0] == '/' then Some((e[0], e[1..]))
    else if e[0] == 'b' then Some((0x08 as char, e[1..]))
    else if e[0] == 'f' then Some((0x0C as char, e[1..]))
    else if e[0] == 'n' then Some(('\n', e[1..]))
    else if e[0] == 'r' then Some(('\r', e[1..]))
    else if e[0] == 't' then Some(('\t', e[1..]))
    else if e[0] == 'u' then ParseUnicode(e[1..])
    else None
  }

  /**
   * Reads the four hex digits after `\u`; a high surrogate must be followed
   * by a second `\u` escape holding a low surrogate, and the two make one
   * character. A lone low surrogate is not a character and is refused.
   */
  function ParseUnicode(h: string): (r: Option<(char, string)>)
    ensures r.Some? ==> |r.value.1| < |h|
  {
    if |h| < 4 || !IsHex4(h[..4]) then None
    else
      var v := Hex4Value(h[..4]);
      if v < 0xD800 || 0xE000 <= v then Some((v as char, h[4..]))
      else if v < 0xDC00 && |h| >= 10 && h[4] == '\\' && h[5] == 'u' && IsHex4(h[6..10]) then
        var w := Hex4Value(h[6..10]);
        if 0xDC00 <= w < 0xE000 then Some(((0x10000 + (v - 0xD800) * 0x400 + (w - 0xDC00)) as char, h[10..]))
        else None
      else None
  }

  /**
   * Reads the body of a string whose opening quote is already consumed:
   * the unescaped contents and the text after the closing quote.
   */
  function ParseStringBody(s: string): (r: Option<(string, string)>)
    ensures r.Some? ==> |r.value.1| < |s|
    decreases |s|
  {
    if s == [] then None
    else if s[0] == '"' then Some(([], s[1..]))
    else match ParseChar(s)
      case None => None
      case Some(cr) =>
        match ParseStringBody(cr.1)
        case None => None
        case Some(p) => Some(([cr.0] + p.0, p.1))
  }

  /** Reads `"a","b",..."z"]`: one or more strings separated by commas up to the closing bracket. */
  function ParseStringElems(s: string): Option<seq<string>>
    decreases |s|
  {
    if |s| == 0 || s[0] != '"' then None
    else
      match ParseStringBody(s[1..])
      case None => None
      case Some(p) =>
        if p.1 == "]" then Some([p.0])
        else if |p.1| > 0 && p.1[0] == ',' then
          match ParseStringElems(p.1[1..])
          case None => None
          case Some(tail) => Some([p.0] + tail)
        else None
  }

  function ParseStringArray(s: string): Option<seq<string>>
  {
    if s == "[]" then Some([])
    else if |s| > 0 && s[0] == '[' then ParseStringElems(s[1..])
    else None
  }

  /** The reader of the permissions column: empty or "null" is no permission; a parse failure is ignored. */
  function ReadStringArray(s: string): seq<string>
  {
    if s == "" || s == "null" then []
    else match ParseStringArray(s)
      case Some(xs) => xs
      case None => []
  }

  /** The reader takes a `\u` escape of a unit outside the surrogate range back to its character. */
  lemma UnicodeEscapeRead(c: char, rest: string)
    requires c as int < 0x10000
    ensures ParseChar(UnicodeEscape(c as int) + rest) == Some((c, rest))
  {
    var e := UnicodeEscape(c as int);
    var s := e + rest;
    assert s[1..][1..] == e[2..] + rest;
    assert (e[2..] + rest)[..4] == e[2..];
    assert (e[2..] + rest)[4..] == rest;
  }

  /** A code point beyond the 16-bit range splits into a high and a low surrogate that recombine to it. */
  lemma SurrogateSplit(n: int)
    requires 0x10000 <= n < 0x110000
    ensures var u := n - 0x10000;
      0xD800 <= 0xD800 + u / 0x400 < 0xDC00 && 0xDC00 <= 0xDC00 + u % 0x400 < 0xE000 &&
      0x10000 + (u / 0x400) * 0x400 + u % 0x400 == n
  {
  }

  /** How the reader takes the digits of two `\u` escapes that form a surrogate pair. */
  lemma ParseSurrogatePair(v: nat, w: nat, rest: string)
    requires 0xD800 <= v < 0xDC00 && 0xDC00 <= w < 0xE000
    ensures ParseUnicode(UnicodeEscape(v)[2..] + UnicodeEscape(w) + rest)
      == Some(((0x10000 + (v - 0xD800) * 0x400 + (w - 0xDC00)) as char, rest))
  {
    var hi, lo := UnicodeEscape(v), UnicodeEscape(w);
    var h := hi[2..] + lo + rest;
    assert h[..4] == hi[2..];
    assert h[4] == '\\' && h[5] == 'u';
    assert h[6..10] == lo[2..];
    assert h[10..] == rest;
  }

  /** The same, read from the backslash of the first escape. */
  lemma ParseSurrogateChar(v: nat, w: nat, rest: string)
    requires 0xD800 <= v < 0xDC00 && 0xDC00 <= w < 0xE000
    ensures ParseChar(UnicodeEscape(v) + UnicodeEscape(w) + rest)
      == Some(((0x10000 + (v - 0xD800) * 0x400 + (w - 0xDC00)) as char, rest))
  {
    var t := UnicodeEscape(v) + UnicodeEscape(w) + rest;
    assert t[1..][1..] == UnicodeEscape(v)[2..] + UnicodeEscape(w) + rest;
    ParseSurrogatePair(v, w, rest);
  }

  /** The reader joins the surrogate pair written for a code point beyond the 16-bit range. */
  lemma SurrogatePairRead(n: int, rest: string)
    requires 0x10000 <= n < 0x110000
    ensures ParseChar(SurrogateEscape(n) + rest) == Some((n as char, rest))
  {
    var u := n - 0x10000;
    SurrogateSplit(n);
    ParseSurrogateChar(0xD800 + u / 0x400, 0xDC00 + u % 0x400, rest);
  }

  /** Each character the writer escapes reads back as itself, and reading stops right after it. */
  lemma EscapeCharRead(c: char, rest: string)
    ensures ParseChar(EscapeChar(c) + rest) == Some((c, rest))
  {
    var n := c as int;
    var s := EscapeChar(c) + rest;
    if c == '"' || c == '\\' || n == 0x08 || n == 0x0C || c == '\n' || c == '\r' || c == '\t' {
      assert s[2..] == rest;
    } else if n < 0x20 || 0x80 <= n < 0x10000 {
      UnicodeEscapeRead(c, rest);
    } else if n < 0x80 {
      assert s[1..] == rest;
    } else {
      assert EscapeChar(c) == SurrogateEscape(n);
      SurrogatePairRead(n, rest);
    }
  }

  /** The body reader takes one character, then reads on. */
  lemma ParseStringBodyStep(s: string, c: char, t: string, x: string, rest: string)
    requires s != [] && s[0] != '"' && ParseChar(s) == Some((c, t))
    requires ParseStringBody(t) == Some((x, rest))
    ensures ParseStringBody(s) == Some(([c] + x, rest))
  {
  }

  lemma {:induction false} StringBodyRoundTrip(x: string, rest: string)
    ensures ParseStringBody(EscapeChars(x) + "\"" + rest) == Some((x, rest))
  {
    var s := EscapeChars(x) + "\"" + rest;
    if x == [] {
      assert s == "\"" + rest;
      assert s[1..] == rest;
    } else {
      var tail := EscapeChars(x[1..]) + "\"" + rest;
      assert s == EscapeChar(x[0]) + tail;
      StringBodyRoundTrip(x[1..], rest);
      EscapeCharRead(x[0], tail);
      ParseStringBodyStep(s, x[0], tail, x[1..], rest);
      assert [x[0]] + x[1..] == x;
    }
  }

  /** A written string element reads back, and reading stops right after its closing quote. */
  lemma QuotedStringRead(x: string, rest: string)
    ensures var s := QuotedString(x) + rest;
      s[0] == '"' && ParseStringBody(s[1..]) == Some((x, rest))
  {
    var s := QuotedString(x) + rest;
    assert s[1..] == EscapeChars(x) + "\"" + rest;
    StringBodyRoundTrip(x, rest);
  }

  lemma LastElemRead(x: string)
    ensures ParseStringElems(QuotedString(x) + "]") == Some([x])
  {
    QuotedStringRead(x, "]");
  }

  lemma NextElemRead(x: string, more: string, tail: seq<string>)
    requires ParseStringElems(more) == Some(tail)
    ensures ParseStringElems(QuotedString(x) + ("," + more)) == Some([x] + tail)
  {
    QuotedStringRead(x, "," + more);
    assert ("," + more)[1..] == more;
  }

  lemma {:induction false} StringElemsRoundTrip(xs: seq<string>)
    requires xs != []
    ensures ParseStringElems(JoinQuoted(xs) + "]") == Some(xs)
  {
    if |xs| == 1 {
      assert JoinQuoted(xs) + "]" == QuotedString(xs[0]) + "]";
      LastElemRead(xs[0]);
      assert xs == [xs[0]];
    } else {
      var more := JoinQuoted(xs[1..]) + "]";
      assert JoinQuoted(xs) + "]" == QuotedString(xs[0]) + ("," + more);
      StringElemsRoundTrip(xs[1..]);
      NextElemRead(xs[0], more, xs[1..]);
      assert [xs[0]] + xs[1..] == xs;
    }
  }

  /** A permission list written by the writer reads back as the same list, in order. */
  lemma StringArrayRoundTrip(xs: seq<string>)
    ensures ReadStringArray(WriteStringArray(xs)) == xs
  {
    if xs != [] {
      var s := WriteStringArray(xs);
      assert s == "[" + (JoinQuoted(xs) + "]");
      assert s[1..] == JoinQuoted(xs) + "]";
      assert JoinQuoted(xs)[0] == '"';
      assert s[1] == '"';
      StringElemsRoundTrip(xs);
    }
  }

  // ----- Unsigned integers -----

  predicate IsDigit(c: char) { '0' <= c <= '9' }

  predicate AllDigits(d: string) { forall i :: 0 <= i < |d| ==> IsDigit(d[i]) }

  function DigitChar(d: nat): (c: char)
    requires d < 10
    ensures IsDigit(c)
  {
    ('0' as int + d) as char
  }

  function DigitValue(c: char): nat
    requires IsDigit(c)
  {
    c as int - '0' as int
  }

  /** The decimal form jsoncpp writes for an unsigned value. */
  function Decimal(n: nat): (s: string)
    ensures |s| > 0 && AllDigits(s)
  {
    if n < 10 then [DigitChar(n)] else Decimal(n / 10) + [DigitChar(n % 10)]
  }

  /** The number of leading digits of s. */
  function DigitRun(s: string): (k: nat)
    ensures k <= |s| && AllDigits(s[..k])
    ensures k < |s| ==> !IsDigit(s[k])
  {
    if s != [] && IsDigit(s[0]) then
      var k := 1 + DigitRun(s[1..]);
      assert forall i :: 1 <= i < k ==> s[..k][i] == s[1..][..k - 1][i - 1];
      k
    else 0
  }

  function DecimalValue(d: string): nat
    requires AllDigits(d)
  {
    if d == [] then 0 else DecimalValue(d[..|d| - 1]) * 10 + DigitValue(d[|d| - 1])
  }

  function JoinDecimal(xs: seq<uint32>): string
    requires xs != []
  {
    if |xs| == 1 then Decimal(xs[0] as nat) else Decimal(xs[0] as nat) + "," + JoinDecimal(xs[1..])
  }

  function WriteUIntArray(xs: seq<uint32>): string
  {
    if xs == [] then "null" else "[" + JoinDecimal(xs) + "]"
  }

  /** Reads `1,2,...,9]`: one or more unsigned values separated by commas up to the closing bracket. */
  function ParseUIntElems(s: string): Option<seq<uint32>>
    decreases |s|
  {
    var k := DigitRun(s);
    if k == 0 then None
    else
      var v := DecimalValue(s[..k]);
      if v >= 0x1_0000_0000 then None
      else
        var rest := s[k..];
        if rest == "]" then Some([v as uint32])
        else if |rest| > 0 && rest[0] == ',' then
          match ParseUIntElems(rest[1..])
          case None => None
          case Some(tail) => Some([v as uint32] + tail)
        else None
  }

  function ParseUIntArray(s: string): Option<seq<uint32>>
  {
    if s == "[]" then Some([])
    else if |s| > 0 && s[0] == '[' then ParseUIntElems(s[1..])
    else None
  }

  /** The reader of the managed-events column: empty or "null" is no event; a parse failure is ignored. */
  function ReadUIntArray(s: string): seq<uint32>
  {
    if s == "" || s == "null" then []
    else match ParseUIntArray(s)
      case Some(xs) => xs
      case None => []
  }

  lemma {:induction false} DecimalRoundTrip(n: nat)
    ensures DecimalValue(Decimal(n)) == n
  {
    var d := Decimal(n);
    if n >= 10 {
      DecimalRoundTrip(n / 10);
      assert d[..|d| - 1] == Decimal(n / 10);
    }
  }

  lemma {:induction false} DigitRunOfDigits(d: string, rest: string)
    requires AllDigits(d)
    requires rest == [] || !IsDigit(rest[0])
    ensures DigitRun(d + rest) == |d|
  {
    if d != [] {
      assert (d + rest)[1..] == d[1..] + rest;
      DigitRunOfDigits(d[1..], rest);
    }
  }

  lemma DecimalPrefix(n: nat, rest: string)
    requires rest == [] || !IsDigit(rest[0])
    ensures var s := Decimal(n) + rest;
      DigitRun(s) == |Decimal(n)| && s[..DigitRun(s)] == Decimal(n) && s[DigitRun(s)..] == rest
  {
    DigitRunOfDigits(Decimal(n), rest);
    var s := Decimal(n) + rest;
    assert s[..|Decimal(n)|] == Decimal(n);
    assert s[|Decimal(n)|..] == rest;
  }

  /** The leading value of a written element reads back, and reading stops where the element ends. */
  lemma UIntElemHead(x: uint32, rest: string)
    requires rest == [] || !IsDigit(rest[0])
    ensures var s := Decimal(x as nat) + rest;
      DigitRun(s) > 0 && DecimalValue(s[..DigitRun(s)]) == x as nat && s[DigitRun(s)..] == rest
  {
    DecimalRoundTrip(x as nat);
    DecimalPrefix(x as nat, rest);
  }

  lemma LastUIntRead(x: uint32)
    ensures ParseUIntElems(Decimal(x as nat) + "]") == Some([x])
  {
    UIntElemHead(x, "]");
  }

  lemma NextUIntRead(x: uint32, more: string, tail: seq<uint32>)
    requires ParseUIntElems(more) == Some(tail)
    ensures ParseUIntElems(Decimal(x as nat) + ("," + more)) == Some([x] + tail)
  {
    UIntElemHead(x, "," + more);
    assert ("," + more)[1..] == more;
  }

  lemma {:induction false} UIntElemsRoundTrip(xs: seq<uint32>)
    requires xs != []
    ensures ParseUIntElems(JoinDecimal(xs) + "]") == Some(xs)
  {
    if |xs| == 1 {
      assert JoinDecimal(xs) + "]" == Decimal(xs[0] as nat) + "]";
      LastUIntRead(xs[0]);
      assert xs == [xs[0]];
    } else {
      var more := JoinDecimal(xs[1..]) + "]";
      assert JoinDecimal(xs) + "]" == Decimal(xs[0] as nat) + ("," + more);
      UIntElemsRoundTrip(xs[1..]);
      NextUIntRead(xs[0], more, xs[1..]);
      assert [xs[0]] + xs[1..] == xs;
    }
  }

  /** A managed-event list written by the writer reads back as the same list, in order. */
  lemma UIntArrayRoundTrip(xs: seq<uint32>)
    ensures ReadUIntArray(WriteUIntArray(xs)) == xs
  {
    if xs != [] {
      var s := WriteUIntArray(xs);
      assert s == "[" + (JoinDecimal(xs) + "]");
      assert s[1..] == JoinDecimal(xs) + "]";
      assert IsDigit(JoinDecimal(xs)[0]);
      assert IsDigit(s[1]);
      UIntElemsRoundTrip(xs);
    }
  }

  /** The reader treats an empty column and the text "null" as the empty list. */
  lemma EmptyColumnsReadEmpty()
    ensures ReadStringArray("") == [] && ReadStringArray("null") == []
    ensures ReadUIntArray("") == [] && ReadUIntArray("null") == []
  {
  }

  /** The writer spells the empty list "null", the non-empty list as a bracketed array. */
  lemma WriterShapes(xs: seq<string>, es: seq<uint32>)
    ensures (WriteStringArray(xs) == "null") <==> xs == []
    ensures (WriteUIntArray(es) == "null") <==> es == []
  {
    if xs != [] { assert WriteStringArray(xs)[0] == '['; }
    if es != [] { assert WriteUIntArray(es)[0] == '['; }
  }
}
