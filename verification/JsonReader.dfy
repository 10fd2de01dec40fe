/**
  An order-keeping printer for JSON values and a JSON reader, with the theorem
  that the grammar is unambiguous: reading what was printed gives the value back
  and leaves exactly the text that followed it.
 */
module JsonReader {
  import opened Json
  import opened Hex
  import opened JsonText

  // ----- Printing in the order given

  function Render(v: Value): (s: string)
    requires FloatFree(v)
    decreases v, 0
  {
    match v
    case Null => "null"
    case Bool(b) => if b then "true" else "false"
    case Num(n) => NumberText(n)
    case Str(s) => Quote(s)
    case Array(items) => ['['] + RenderItems(items) + [']']
    case Object(ms) => ['{'] + RenderMembers(ms) + ['}']
  }

  predicate ItemsFloatFree(items: seq<Value>) {
    forall i | 0 <= i < |items| :: FloatFree(items[i])
  }

  predicate MembersFloatFree(ms: seq<Member>) {
    forall i | 0 <= i < |ms| :: FloatFree(ms[i].value)
  }

  function RenderItems(items: seq<Value>): string
    requires ItemsFloatFree(items)
    decreases items, 0
  {
    if items == [] then []
    else if |items| == 1 then Render(items[0])
    else Render(items[0]) + [','] + RenderItems(items[1..])
  }

  function RenderMember(m: Member): string
    requires FloatFree(m.value)
    decreases m, 0
  {
    Quote(m.key) + [':'] + Render(m.value)
  }

  function RenderMembers(ms: seq<Member>): string
    requires MembersFloatFree(ms)
    decreases ms, 0
  {
    if ms == [] then []
    else if |ms| == 1 then RenderMember(ms[0])
    else RenderMember(ms[0]) + [','] + RenderMembers(ms[1..])
  }

  // ----- How a list begins

  lemma FirstItem(v: Value, rest: seq<Value>)
    requires rest != [] && FloatFree(v) && ItemsFloatFree(rest)
    ensures ItemsFloatFree([v] + rest) && RenderItems([v] + rest) == Render(v) + [','] + RenderItems(rest)
  {
    assert ([v] + rest)[1..] == rest;
  }

  lemma FirstMember(m: Member, rest: seq<Member>)
    requires rest != [] && FloatFree(m.value) && MembersFloatFree(rest)
    ensures MembersFloatFree([m] + rest) && RenderMembers([m] + rest) == RenderMember(m) + [','] + RenderMembers(rest)
  {
    assert ([m] + rest)[1..] == rest;
  }

  // ----- Reading

  predicate IsSpace(c: char) {
    c == ' ' || c == '\t' || c == '\n' || c == '\r'
  }

  function SkipSpace(s: string): (t: string)
    ensures |t| <= |s|
  {
    if s != [] && IsSpace(s[0]) then SkipSpace(s[1..]) else s
  }

  /** The next character after whitespace is `c`; give what follows it. */
  function ReadToken(s: string, c: char): (r: Parsed<()>)
    ensures r.Got? ==> |r.rest| < |s|
  {
    var t := SkipSpace(s);
    if t != [] && t[0] == c then Got((), t[1..]) else Fail
  }

  function ReadString(s: string): (r: Parsed<string>)
    ensures r.Got? ==> |r.rest| < |s|
  {
    match ReadToken(s, '"')
    case Fail => Fail
    case Got(_, rest) => ReadBody(rest)
  }

  function ReadScalar(s: string): (r: Parsed<Value>)
    ensures r.Got? ==> |r.rest| < |s|
  {
    if "null" <= s then Got(Null, s[4..])
    else if "true" <= s then Got(Bool(true), s[4..])
    else if "false" <= s then Got(Bool(false), s[5..])
    else
      match ReadNumber(s)
      case Fail => Fail
      case Got(n, rest) => Got(Num(n), rest)
  }

  function ReadValue(s: string): (r: Parsed<Value>)
    ensures r.Got? ==> |r.rest| < |s|
    decreases |s|, 2
  {
    var t := SkipSpace(s);
    if t == [] then Fail
    else if t[0] == '"' then
      match ReadBody(t[1..])
      case Fail => Fail
      case Got(body, rest) => Got(Str(body), rest)
    else if t[0] == '[' then
      match ReadToken(t[1..], ']')
      case Got(_, rest) => Got(Array([]), rest)
      case Fail =>
        match ReadItems(t[1..])
        case Fail => Fail
        case Got(items, rest) => Got(Array(items), rest)
    else if t[0] == '{' then
      match ReadToken(t[1..], '}')
      case Got(_, rest) => Got(Object([]), rest)
      case Fail =>
        match ReadMembers(t[1..])
        case Fail => Fail
        case Got(ms, rest) => Got(Object(ms), rest)
    else ReadScalar(t)
  }

  /** One or more items, up to and including the closing bracket. */
  function ReadItems(s: string): (r: Parsed<seq<Value>>)
    ensures r.Got? ==> |r.rest| < |s|
    decreases |s|, 3
  {
    match ReadValue(s)
    case Fail => Fail
    case Got(v, rest) =>
      match ReadToken(rest, ']')
      case Got(_, rest') => Got([v], rest')
      case Fail =>
        match ReadToken(rest, ',')
        case Fail => Fail
        case Got(_, rest') =>
          match ReadItems(rest')
          case Fail => Fail
          case Got(vs, rest'') => Got([v] + vs, rest'')
  }

  function ReadMember(s: string): (r: Parsed<Member>)
    ensures r.Got? ==> |r.rest| < |s|
    decreases |s|, 3
  {
    match ReadString(s)
    case Fail => Fail
    case Got(key, rest) =>
      match ReadToken(rest, ':')
      case Fail => Fail
      case Got(_, rest') =>
        match ReadValue(rest')
        case Fail => Fail
        case Got(v, rest'') => Got(Member(key, v), rest'')
  }

  function ReadMembers(s: string): (r: Parsed<seq<Member>>)
    ensures r.Got? ==> |r.rest| < |s|
    decreases |s|, 4
  {
    match ReadMember(s)
    case Fail => Fail
    case Got(m, rest) =>
      match ReadToken(rest, '}')
      case Got(_, rest') => Got([m], rest')
      case Fail =>
        match ReadToken(rest, ',')
        case Fail => Fail
        case Got(_, rest') =>
          match ReadMembers(rest')
          case Fail => Fail
          case Got(ms, rest'') => Got([m] + ms, rest'')
  }

  /** A whole document: one value and nothing but whitespace after it. */
  function Read(s: string): Parsed<Value> {
    match ReadValue(s)
    case Fail => Fail
    case Got(v, rest) => if SkipSpace(rest) == [] then Got(v, []) else Fail
  }

  // ----- Reading back what was printed

  lemma TokenHere(c: char, rest: string, d: char)
    requires !IsSpace(c)
    ensures ReadToken([c] + rest, d) == if c == d then Got((), rest) else Fail
  {
    assert ([c] + rest)[1..] == rest;
  }

  /** The characters a value can start with. */
  predicate StartsValue(c: char) {
    c == 'n' || c == 't' || c == 'f' || c == '-' || IsDigit(c) || c == '"' || c == '[' || c == '{'
  }

  lemma RenderStart(v: Value)
    requires FloatFree(v)
    ensures Render(v) != [] && StartsValue(Render(v)[0])
  {
    if v.Num? {
      NumberPrintable(v.n);
    }
  }

  lemma MembersStart(ms: seq<Member>)
    requires ms != [] && MembersFloatFree(ms)
    ensures RenderMembers(ms) != [] && RenderMembers(ms)[0] == '"'
  {
    assert Quote(ms[0].key)[0] == '"';
    assert RenderMember(ms[0])[0] == '"';
  }

  lemma NotAToken(s: string, d: char)
    requires s != [] && !IsSpace(s[0]) && s[0] != d
    ensures ReadToken(s, d) == Fail
  {
  }

  lemma ReadScalarBack(v: Value, rest: string)
    requires v.Null? || v.Bool? || (v.Num? && !v.n.Float?)
    requires EndsNumber(rest)
    ensures ReadValue(Render(v) + rest) == Got(v, rest)
  {
    var s := Render(v) + rest;
    RenderStart(v);
    assert s[0] == Render(v)[0];
    match v
    case Null =>
      assert s[4..] == rest;
    case Bool(b) =>
      assert s[|Render(v)|..] == rest;
    case Num(n) =>
      NumberPrintable(n);
      ReadNumberBack(n, rest);
      assert !("null" <= s) && !("true" <= s) && !("false" <= s);
  }

  lemma ReadStringBack(k: string, rest: string)
    ensures ReadString(Quote(k) + rest) == Got(k, rest)
    ensures ReadValue(Quote(k) + rest) == Got(Str(k), rest)
  {
    var body := Escape(k) + (['"'] + rest);
    assert Quote(k) + rest == ['"'] + body;
    TokenHere('"', body, '"');
    ReadBodyBack(k, rest);
    assert (['"'] + body)[1..] == body;
  }

  lemma ReadOpenArray(text: string, inner: string, items: seq<Value>, rest: string)
    requires text == ['['] + inner
    requires inner != [] && StartsValue(inner[0]) && ReadItems(inner) == Got(items, rest)
    ensures ReadValue(text) == Got(Array(items), rest)
  {
    assert text[1..] == inner;
    NotAToken(inner, ']');
  }

  lemma ReadOpenObject(text: string, inner: string, ms: seq<Member>, rest: string)
    requires text == ['{'] + inner
    requires inner != [] && inner[0] == '"' && ReadMembers(inner) == Got(ms, rest)
    ensures ReadValue(text) == Got(Object(ms), rest)
  {
    assert text[1..] == inner;
    NotAToken(inner, '}');
  }

  lemma ReadEmptyArray(text: string, rest: string)
    requires text == ['[', ']'] + rest
    ensures ReadValue(text) == Got(Array([]), rest)
  {
    assert text[1..] == [']'] + rest;
    TokenHere(']', rest, ']');
  }

  lemma ReadEmptyObject(text: string, rest: string)
    requires text == ['{', '}'] + rest
    ensures ReadValue(text) == Got(Object([]), rest)
  {
    assert text[1..] == ['}'] + rest;
    TokenHere('}', rest, '}');
  }

  lemma Bracketed(open: char, body: string, close: char, rest: string)
    ensures ([open] + body + [close]) + rest == [open] + (body + ([close] + rest))
    ensures body == [] ==> ([open] + body + [close]) + rest == [open, close] + rest
  {
  }

  lemma CommaApart(first: string, more: string, after: string)
    ensures (first + [','] + more) + after == first + ([','] + (more + after))
  {
  }

  lemma ReadArrayBack(text: string, items: seq<Value>, rest: string)
    requires ItemsFloatFree(items) && text == ['['] + RenderItems(items) + [']'] + rest
    requires items != [] ==> ReadItems(RenderItems(items) + ([']'] + rest)) == Got(items, rest)
    ensures ReadValue(text) == Got(Array(items), rest)
  {
    Bracketed('[', RenderItems(items), ']', rest);
    if items == [] {
      ReadEmptyArray(text, rest);
    } else {
      var inner := RenderItems(items) + ([']'] + rest);
      RenderStart(items[0]);
      assert inner[0] == Render(items[0])[0];
      ReadOpenArray(text, inner, items, rest);
    }
  }

  lemma ReadObjectBack(text: string, ms: seq<Member>, rest: string)
    requires MembersFloatFree(ms) && text == ['{'] + RenderMembers(ms) + ['}'] + rest
    requires ms != [] ==> ReadMembers(RenderMembers(ms) + (['}'] + rest)) == Got(ms, rest)
    ensures ReadValue(text) == Got(Object(ms), rest)
  {
    Bracketed('{', RenderMembers(ms), '}', rest);
    if ms == [] {
      ReadEmptyObject(text, rest);
    } else {
      MembersStart(ms);
      ReadOpenObject(text, RenderMembers(ms) + (['}'] + rest), ms, rest);
    }
  }

  /** The last item, then the bracket. */
  lemma LastItem(text: string, v: Value, rest: string)
    requires ReadValue(text) == Got(v, [']'] + rest)
    ensures ReadItems(text) == Got([v], rest)
  {
    TokenHere(']', rest, ']');
  }

  /** An item, a comma, and more items. */
  lemma MoreItems(text: string, v: Value, tail: string, vs: seq<Value>, rest: string)
    requires ReadValue(text) == Got(v, [','] + tail) && ReadItems(tail) == Got(vs, rest)
    ensures ReadItems(text) == Got([v] + vs, rest)
  {
    TokenHere(',', tail, ']');
    TokenHere(',', tail, ',');
  }

  lemma LastMember(text: string, m: Member, rest: string)
    requires ReadMember(text) == Got(m, ['}'] + rest)
    ensures ReadMembers(text) == Got([m], rest)
  {
    TokenHere('}', rest, '}');
  }

  lemma MoreMembers(text: string, m: Member, tail: string, ms: seq<Member>, rest: string)
    requires ReadMember(text) == Got(m, [','] + tail) && ReadMembers(tail) == Got(ms, rest)
    ensures ReadMembers(text) == Got([m] + ms, rest)
  {
    TokenHere(',', tail, '}');
    TokenHere(',', tail, ',');
  }

  /** Reading a printed value gives it back and stops exactly where it ended. */
  lemma {:induction false} ReadBack(v: Value, rest: string)
    requires FloatFree(v) && EndsNumber(rest)
    ensures ReadValue(Render(v) + rest) == Got(v, rest)
    decreases v, 0
  {
    match v
    case Str(s) => ReadStringBack(s, rest);
    case Array(items) =>
      if items != [] {
        ReadItemsBack(RenderItems(items) + ([']'] + rest), items, rest);
      }
      ReadArrayBack(Render(v) + rest, items, rest);
    case Object(ms) =>
      if ms != [] {
        ReadMembersBack(RenderMembers(ms) + (['}'] + rest), ms, rest);
      }
      ReadObjectBack(Render(v) + rest, ms, rest);
    case _ => ReadScalarBack(v, rest);
  }

  lemma {:induction false} ReadItemsBack(text: string, items: seq<Value>, rest: string)
    requires items != [] && ItemsFloatFree(items) && text == RenderItems(items) + ([']'] + rest)
    ensures ReadItems(text) == Got(items, rest)
    decreases items, 0
  {
    var v, more := items[0], items[1..];
    assert items == [v] + more;
    if more == [] {
      assert items == [v];
      ReadBack(v, [']'] + rest);
      LastItem(text, v, rest);
    } else {
      var tail := RenderItems(more) + ([']'] + rest);
      FirstItem(v, more);
      CommaApart(Render(v), RenderItems(more), [']'] + rest);
      ReadBack(v, [','] + tail);
      ReadItemsBack(tail, more, rest);
      MoreItems(text, v, tail, more, rest);
    }
  }

  lemma {:induction false} ReadMemberBack(m: Member, rest: string)
    requires FloatFree(m.value) && EndsNumber(rest)
    ensures ReadMember(RenderMember(m) + rest) == Got(m, rest)
    decreases m, 0
  {
    var tail := Render(m.value) + rest;
    assert RenderMember(m) + rest == Quote(m.key) + ([':'] + tail);
    ReadStringBack(m.key, [':'] + tail);
    TokenHere(':', tail, ':');
    ReadBack(m.value, rest);
  }

  lemma {:induction false} ReadMembersBack(text: string, ms: seq<Member>, rest: string)
    requires ms != [] && MembersFloatFree(ms) && text == RenderMembers(ms) + (['}'] + rest)
    ensures ReadMembers(text) == Got(ms, rest)
    decreases ms, 0
  {
    var m, more := ms[0], ms[1..];
    assert ms == [m] + more;
    if more == [] {
      assert ms == [m] && RenderMembers(ms) == RenderMember(m);
      ReadMemberBack(m, ['}'] + rest);
      LastMember(text, m, rest);
    } else {
      var tail := RenderMembers(more) + (['}'] + rest);
      FirstMember(m, more);
      CommaApart(RenderMember(m), RenderMembers(more), ['}'] + rest);
      ReadMemberBack(m, [','] + tail);
      ReadMembersBack(tail, more, rest);
      MoreMembers(text, m, tail, more, rest);
    }
  }

  /** Reading the whole text of a value gives the value: member order included. */
  lemma ReadRender(v: Value)
    requires FloatFree(v)
    ensures Read(Render(v)) == Got(v, [])
  {
    ReadBack(v, []);
    assert Render(v) + [] == Render(v);
  }

  // ----- What else the reader takes

  predicate Blank(w: string) {
    forall i | 0 <= i < |w| :: w[i] in " \t\n\r"
  }

  /** Spaces, tabs and line ends before a token or a value make no difference. */
  lemma {:induction false} SpaceIsSkipped(w: string, s: string, c: char)
    requires Blank(w)
    ensures SkipSpace(w + s) == SkipSpace(s)
    ensures ReadToken(w + s, c) == ReadToken(s, c) && ReadString(w + s) == ReadString(s)
    ensures ReadValue(w + s) == ReadValue(s)
  {
    if w == [] {
      assert w + s == s;
    } else {
      assert (w + s)[1..] == w[1..] + s;
      assert (w + s)[0] == w[0] && IsSpace(w[0]);
      SpaceIsSkipped(w[1..], s, c);
    }
  }

  lemma BlankEnds(w: string)
    requires Blank(w)
    ensures EndsNumber(w) && SkipSpace(w) == []
  {
    SpaceIsSkipped(w, [], ' ');
    assert w + [] == w;
  }

  /** Nor do they around a whole document. */
  lemma ReadSpaced(v: Value, before: string, after: string)
    requires FloatFree(v) && Blank(before) && Blank(after)
    ensures Read(before + (Render(v) + after)) == Got(v, [])
  {
    BlankEnds(after);
    ReadBack(v, after);
    SpaceIsSkipped(before, Render(v) + after, ' ');
  }

  /** Four digits of either case, most significant first. */
  lemma HexFour(a: nat, b: nat, c: nat, d: nat, upper: bool, rest: string)
    requires a < 16 && b < 16 && c < 16 && d < 16
    ensures var digits := if upper then UPPER_DIGITS else LOWER_DIGITS;
      ReadHex4([digits[a], digits[b], digits[c], digits[d]] + rest)
      == Got(a * 0x1000 + b * 0x100 + c * 0x10 + d, rest)
  {
    DigitTables(a);
    DigitTables(b);
    DigitTables(c);
    DigitTables(d);
    var digits := if upper then UPPER_DIGITS else LOWER_DIGITS;
    var s := [digits[a], digits[b], digits[c], digits[d]] + rest;
    assert s[4..] == rest;
    assert s[0] == digits[a] && s[1] == digits[b] && s[2] == digits[c] && s[3] == digits[d];
  }

  /** An escaped character by its number: one unit, or a surrogate pair. */
  lemma EscapedUnit(text: string, u: nat, rest: string)
    requires ReadHex4(text) == Got(u, rest) && (u < 0xD800 || 0xE000 <= u < 0x10000)
    ensures ReadChar("\\u" + text) == Got(u as char, rest)
  {
    assert ("\\u" + text)[2..] == text;
  }

  lemma EscapedPair(text: string, u: nat, more: string, v: nat, rest: string)
    requires ReadHex4(text) == Got(u, "\\u" + more) && ReadHex4(more) == Got(v, rest)
    requires 0xD800 <= u < 0xDC00 <= v < 0xE000
    ensures ReadChar("\\u" + text) == Got((0x10000 + (u - 0xD800) * 0x400 + (v - 0xDC00)) as char, rest)
  {
    assert ("\\u" + text)[2..] == text;
    assert ("\\u" + more)[2..] == more;
  }

  /** The one short escape the printer never writes. */
  lemma EscapedSlash(rest: string)
    ensures ReadChar("\\/" + rest) == Got('/', rest)
  {
    assert ("\\/" + rest)[2..] == rest;
  }

  // ----- The text holds no control character

  lemma {:induction false} RenderPrintable(v: Value)
    requires FloatFree(v)
    ensures Printable(Render(v))
    decreases v, 0
  {
    match v
    case Num(n) => NumberPrintable(n);
    case Str(s) => EscapePrintable(s);
    case Array(items) => ItemsPrintable(items);
    case Object(ms) => MembersPrintable(ms);
    case _ =>
  }

  lemma {:induction false} ItemsPrintable(items: seq<Value>)
    requires ItemsFloatFree(items)
    ensures Printable(RenderItems(items))
    decreases items, 0
  {
    if items != [] {
      RenderPrintable(items[0]);
      ItemsPrintable(items[1..]);
    }
  }

  lemma {:induction false} MembersPrintable(ms: seq<Member>)
    requires MembersFloatFree(ms)
    ensures Printable(RenderMembers(ms))
    decreases ms, 0
  {
    if ms != [] {
      EscapePrintable(ms[0].key);
      RenderPrintable(ms[0].value);
      MembersPrintable(ms[1..]);
    }
  }
}
