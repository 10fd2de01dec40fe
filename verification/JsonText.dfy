/**
  The two halves of the canonical grammar below objects and arrays: decimal
  integers and quoted strings, each with the reader that takes it back. The
  reader is an ordinary JSON reader, not the inverse of the printer: it accepts
  whitespace, every escape of RFC 8259 section 7 and any digit case.
 */
module JsonText {
  import opened Bytes
  import opened Hex
  import opened Json

  /** The outcome of reading a prefix: the value and the text behind it. */
  datatype Parsed<+T> = Fail | Got(value: T, rest: string)

  // ----- Decimal digits

  predicate IsDigit(c: char) {
    '0' <= c <= '9'
  }

  function DigitChar(d: nat): (c: char)
    requires d < 10
    ensures IsDigit(c) && c as int == 48 + d
  {
    (48 + d) as char
  }

  function DigitValue(c: char): (d: nat)
    requires IsDigit(c)
    ensures d < 10
  {
    c as int - 48
  }

  predicate AllDigits(s: string) {
    forall i | 0 <= i < |s| :: IsDigit(s[i])
  }

  /** `u64::to_string`. */
  function Digits(n: nat): (s: string)
    ensures s != [] && AllDigits(s)
  {
    if n < 10 then [DigitChar(n)] else Digits(n / 10) + [DigitChar(n % 10)]
  }

  function DecimalValue(s: string): nat
    requires AllDigits(s)
  {
    if s == [] then 0 else 10 * DecimalValue(s[..|s| - 1]) + DigitValue(s[|s| - 1])
  }

  lemma {:induction false} DigitsValue(n: nat)
    ensures DecimalValue(Digits(n)) == n
    ensures Digits(n)[0] == '0' ==> |Digits(n)| == 1
    ensures n > 0 ==> Digits(n)[0] != '0'
  {
    if n >= 10 {
      DigitsValue(n / 10);
      assert Digits(n)[..|Digits(n)| - 1] == Digits(n / 10);
    } else {
      assert Digits(n)[..0] == [];
    }
  }

  /** How many digits `s` starts with. */
  function DigitSpan(s: string): (k: nat)
    ensures k <= |s| && AllDigits(s[..k])
  {
    if s != [] && IsDigit(s[0]) then
      var k := 1 + DigitSpan(s[1..]);
      assert s[..k] == [s[0]] + s[1..][..k - 1];
      k
    else 0
  }

  lemma {:induction false} SpanOfDigits(ds: string, rest: string)
    requires AllDigits(ds) && (rest == [] || !IsDigit(rest[0]))
    ensures DigitSpan(ds + rest) == |ds|
  {
    if ds == [] {
      assert ds + rest == rest;
    } else {
      assert (ds + rest)[1..] == ds[1..] + rest;
      SpanOfDigits(ds[1..], rest);
    }
  }

  // ----- Integers

  /** What `write_number` emits for a number it accepts. */
  function NumberText(n: Number): string
    requires !n.Float?
  {
    match n
    case PosInt(u) => Digits(u)
    case NegInt(i) => ['-'] + Digits(0 - i)
  }

  /** A number ends where none of these characters follows. */
  predicate ContinuesNumber(c: char) {
    IsDigit(c) || c == '.' || c == 'e' || c == 'E'
  }

  predicate EndsNumber(rest: string) {
    rest == [] || !ContinuesNumber(rest[0])
  }

  /** Digits without a superfluous leading zero, fraction or exponent. */
  function ReadDigits(s: string): Parsed<nat> {
    var k := DigitSpan(s);
    if k == 0 || (k > 1 && s[0] == '0') || !EndsNumber(s[k..]) then Fail
    else Got(DecimalValue(s[..k]), s[k..])
  }

  function ReadNumber(s: string): Parsed<Number> {
    if s != [] && s[0] == '-' then
      match ReadDigits(s[1..])
      case Got(n, rest) => if 0 < n <= TWO_TO_THE_63 then Got(NegInt(0 - n), rest) else Fail
      case Fail => Fail
    else
      match ReadDigits(s)
      case Got(n, rest) => if n < TWO_TO_THE_64 then Got(PosInt(n), rest) else Fail
      case Fail => Fail
  }

  lemma ReadDigitsBack(n: nat, rest: string)
    requires EndsNumber(rest)
    ensures ReadDigits(Digits(n) + rest) == Got(n, rest)
  {
    var ds := Digits(n);
    DigitsValue(n);
    SpanOfDigits(ds, rest);
    assert (ds + rest)[..|ds|] == ds && (ds + rest)[|ds|..] == rest;
  }

  lemma ReadNaturalBack(u: U64, rest: string)
    requires EndsNumber(rest)
    ensures ReadNumber(Digits(u) + rest) == Got(PosInt(u), rest)
  {
    ReadDigitsBack(u, rest);
    assert IsDigit(Digits(u)[0]);
  }

  lemma ReadMinus(text: string, digits: string, n: nat, rest: string)
    requires text == ['-'] + digits && ReadDigits(digits) == Got(n, rest) && 0 < n <= TWO_TO_THE_63
    ensures ReadNumber(text) == Got(NegInt(0 - n), rest)
  {
    assert text[1..] == digits;
  }

  lemma ReadNegativeBack(i: NegI64, rest: string)
    requires EndsNumber(rest)
    ensures ReadNumber(['-'] + Digits(0 - i) + rest) == Got(NegInt(i), rest)
  {
    var n: nat := 0 - i;
    ReadDigitsBack(n, rest);
    assert ['-'] + Digits(n) + rest == ['-'] + (Digits(n) + rest);
    ReadMinus(['-'] + Digits(n) + rest, Digits(n) + rest, n, rest);
  }

  lemma ReadNumberBack(n: Number, rest: string)
    requires !n.Float? && EndsNumber(rest)
    ensures ReadNumber(NumberText(n) + rest) == Got(n, rest)
  {
    match n
    case PosInt(u) => ReadNaturalBack(u, rest);
    case NegInt(i) => ReadNegativeBack(i, rest);
  }

  // ----- Strings

  /** One character inside quotes: `write_string`'s match. */
  function EscapeChar(c: char): (s: string)
    ensures s != []
  {
    if c == '"' then "\\\""
    else if c == '\\' then "\\\\"
    else if c as int == 0x08 then "\\b"
    else if c as int == 0x0C then "\\f"
    else if c == '\n' then "\\n"
    else if c == '\r' then "\\r"
    else if c == '\t' then "\\t"
    else if c as int < 0x20 then ['\\', 'u', '0', '0', HexChar(c as int / 16), HexChar(c as int % 16)]
    else [c]
  }

  /** The seven short escapes, and for every other control character its code in lower-case digits. */
  lemma EscapeTable(c: char)
    ensures EscapeChar('"') == "\\\"" && EscapeChar('\\') == "\\\\"
    ensures EscapeChar('\n') == "\\n" && EscapeChar('\r') == "\\r" && EscapeChar('\t') == "\\t"
    ensures EscapeChar(0x08 as char) == "\\b" && EscapeChar(0x0C as char) == "\\f"
    ensures c as int < 0x20 && c as int !in {0x08, 0x09, 0x0A, 0x0C, 0x0D} ==>
      EscapeChar(c) == "\\u00" + [LOWER_DIGITS[c as int / 16], LOWER_DIGITS[c as int % 16]]
    ensures c as int >= 0x20 && c != '"' && c != '\\' ==> EscapeChar(c) == [c]
  {
    if c as int < 0x20 {
      DigitTables(c as int / 16);
      DigitTables(c as int % 16);
    }
  }

  function Escape(s: string): string {
    if s == [] then [] else EscapeChar(s[0]) + Escape(s[1..])
  }

  function Quote(s: string): string {
    ['"'] + Escape(s) + ['"']
  }

  /** Four hexadecimal digits of either case. */
  function ReadHex4(s: string): Parsed<nat> {
    if |s| >= 4 && IsHex(s[0]) && IsHex(s[1]) && IsHex(s[2]) && IsHex(s[3]) then
      Got(HexValue(s[0]) * 0x1000 + HexValue(s[1]) * 0x100 + HexValue(s[2]) * 0x10 + HexValue(s[3]), s[4..])
    else Fail
  }

  /** What follows `\u`: a scalar value, or a surrogate pair. */
  function ReadUnicode(s: string): Parsed<char> {
    match ReadHex4(s)
    case Fail => Fail
    case Got(u, rest) =>
      if u < 0xD800 || 0xE000 <= u < 0x10000 then Got(u as char, rest)
      else if u < 0xDC00 && |rest| >= 2 && rest[0] == '\\' && rest[1] == 'u' then
        match ReadHex4(rest[2..])
        case Got(v, rest') =>
          if 0xDC00 <= v < 0xE000 then
            Got((0x10000 + (u - 0xD800) * 0x400 + (v - 0xDC00)) as char, rest')
          else Fail
        case Fail => Fail
      else Fail
  }

  /** One character of a string body. */
  function ReadChar(s: string): (r: Parsed<char>)
    ensures r.Got? ==> |r.rest| < |s|
  {
    if s == [] || s[0] == '"' || s[0] as int < 0x20 then Fail
    else if s[0] != '\\' then Got(s[0], s[1..])
    else if |s| == 1 then Fail
    else
      match s[1]
      case '"' => Got('"', s[2..])
      case '\\' => Got('\\', s[2..])
      case '/' => Got('/', s[2..])
      case 'b' => Got(8 as char, s[2..])
      case 'f' => Got(12 as char, s[2..])
      case 'n' => Got('\n', s[2..])
      case 'r' => Got('\r', s[2..])
      case 't' => Got('\t', s[2..])
      case 'u' => ReadUnicode(s[2..])
      case _ => Fail
  }

  /** The body of a string, up to and including its closing quote. */
  function ReadBody(s: string): (r: Parsed<string>)
    ensures r.Got? ==> |r.rest| < |s|
    decreases |s|
  {
    if s != [] && s[0] == '"' then Got([], s[1..])
    else
      match ReadChar(s)
      case Fail => Fail
      case Got(c, rest) =>
        match ReadBody(rest)
        case Fail => Fail
        case Got(body, rest') => Got([c] + body, rest')
  }

  lemma ReadControlBack(c: char, rest: string)
    requires c as int < 0x20
    ensures ReadUnicode(['0', '0', HexChar(c as int / 16), HexChar(c as int % 16)] + rest) == Got(c, rest)
  {
    var s := ['0', '0', HexChar(c as int / 16), HexChar(c as int % 16)] + rest;
    assert s[4..] == rest;
    assert HexValue(s[2]) == c as int / 16 && HexValue(s[3]) == c as int % 16;
  }

  lemma ReadCharBack(c: char, rest: string)
    ensures ReadChar(EscapeChar(c) + rest) == Got(c, rest)
    ensures EscapeChar(c)[0] != '"'
  {
    var e := EscapeChar(c);
    var s := e + rest;
    if |e| == 1 {
      assert s[1..] == rest;
    } else if |e| == 2 {
      assert s[2..] == rest;
    } else {
      ReadControlBack(c, rest);
      assert s[2..] == ['0', '0', HexChar(c as int / 16), HexChar(c as int % 16)] + rest;
    }
  }

  lemma {:induction false} ReadBodyBack(s: string, rest: string)
    ensures ReadBody(Escape(s) + (['"'] + rest)) == Got(s, rest)
  {
    if s == [] {
      assert Escape(s) + (['"'] + rest) == ['"'] + rest;
      assert (['"'] + rest)[1..] == rest;
    } else {
      var tail := Escape(s[1..]) + (['"'] + rest);
      assert Escape(s) + (['"'] + rest) == EscapeChar(s[0]) + tail;
      ReadCharBack(s[0], tail);
      ReadBodyBack(s[1..], rest);
      assert s == [s[0]] + s[1..];
    }
  }

  // ----- What the text is made of

  /** No character below U+0020. */
  predicate Printable(s: string) {
    forall i | 0 <= i < |s| :: s[i] as int >= 0x20
  }

  lemma {:induction false} EscapePrintable(s: string)
    ensures Printable(Escape(s))
  {
    if s != [] {
      assert Printable(EscapeChar(s[0]));
      EscapePrintable(s[1..]);
    }
  }

  lemma NumberPrintable(n: Number)
    requires !n.Float?
    ensures Printable(NumberText(n))
    ensures NumberText(n)[0] == '-' || IsDigit(NumberText(n)[0])
  {
    var ds := Digits(if n.PosInt? then n.u else 0 - n.i);
    assert forall i | 0 <= i < |ds| :: IsDigit(ds[i]);
  }
}
