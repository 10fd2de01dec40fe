/**
  Why the printed text is canonical and not merely readable: whatever text a JSON
  reader takes for a value, the printed one is no longer. So it holds no
  whitespace, no avoidable escape and no superfluous digit.
 */
module JsonShortest {
  import opened Json
  import opened JsonText
  import opened JsonReader

  // ----- Numbers have one text

  lemma OneMoreDigit(front: string, c: char)
    requires AllDigits(front) && IsDigit(c)
    ensures AllDigits(front + [c]) && DecimalValue(front + [c]) == 10 * DecimalValue(front) + DigitValue(c)
  {
    assert (front + [c])[..|front|] == front;
  }

  lemma DigitsSplit(m: nat, c: char)
    requires m > 0 && IsDigit(c)
    ensures Digits(10 * m + DigitValue(c)) == Digits(m) + [c]
  {
    var n, d := 10 * m + DigitValue(c), DigitValue(c);
    assert n / 10 == m && n % 10 == d;
    assert DigitChar(d) == c;
  }

  lemma {:induction false} DigitsOfValue(s: string)
    requires s != [] && AllDigits(s) && (|s| > 1 ==> s[0] != '0')
    ensures Digits(DecimalValue(s)) == s
  {
    var last := |s| - 1;
    var front, c := s[..last], s[last];
    assert s == front + [c];
    OneMoreDigit(front, c);
    if last == 0 {
      assert DecimalValue(front) == 0;
      assert DigitChar(DigitValue(c)) == c;
    } else {
      DigitsOfValue(front);
      Positive(front);
      DigitsSplit(DecimalValue(front), c);
    }
  }

  lemma {:induction false} Positive(s: string)
    requires s != [] && AllDigits(s) && s[0] != '0'
    ensures DecimalValue(s) > 0
  {
    var last := |s| - 1;
    if last > 0 {
      Positive(s[..last]);
    } else {
      assert DecimalValue(s[..0]) == 0;
    }
  }

  lemma DigitsRead(s: string)
    requires ReadDigits(s).Got?
    ensures s == Digits(ReadDigits(s).value) + ReadDigits(s).rest
  {
    var k := DigitSpan(s);
    DigitsOfValue(s[..k]);
    assert s == s[..k] + s[k..];
  }

  lemma NegativeRead(digits: string)
    requires ReadNumber(['-'] + digits).Got?
    ensures var r := ReadNumber(['-'] + digits);
      r.value.NegInt? && ['-'] + digits == NumberText(r.value) + r.rest
  {
    assert (['-'] + digits)[1..] == digits;
    DigitsRead(digits);
    var n: int := ReadDigits(digits).value;
    var i: int := 0 - n;
    assert 0 - i == n;
  }

  /** A number is read from the text printed for it and from no other. */
  lemma NumberTextIsUnique(s: string)
    requires ReadNumber(s).Got?
    ensures var r := ReadNumber(s); !r.value.Float? && s == NumberText(r.value) + r.rest
  {
    if s != [] && s[0] == '-' {
      assert s == ['-'] + s[1..];
      NegativeRead(s[1..]);
    } else {
      DigitsRead(s);
    }
  }

  // ----- Characters and strings

  lemma UnicodeTakesFour(s: string)
    requires ReadUnicode(s).Got?
    ensures |ReadUnicode(s).rest| + 4 <= |s|
  {
  }

  lemma CharShortest(s: string)
    requires ReadChar(s).Got?
    ensures var r := ReadChar(s); |EscapeChar(r.value)| + |r.rest| <= |s|
  {
    if s[0] == '\\' && s[1] == 'u' {
      UnicodeTakesFour(s[2..]);
    }
  }

  lemma {:induction false} BodyShortest(s: string)
    requires ReadBody(s).Got?
    ensures var r := ReadBody(s); |Escape(r.value)| + 1 + |r.rest| <= |s|
    decreases |s|
  {
    if s[0] != '"' {
      var c := ReadChar(s);
      CharShortest(s);
      BodyShortest(c.rest);
      var r := ReadBody(s);
      assert r.value == [c.value] + ReadBody(c.rest).value;
      assert r.value[1..] == ReadBody(c.rest).value;
    }
  }

  // ----- Values

  lemma TokenTakesOne(s: string, c: char)
    requires ReadToken(s, c).Got?
    ensures |ReadToken(s, c).rest| + 1 <= |s|
  {
  }

  lemma StringShortest(s: string)
    requires ReadString(s).Got?
    ensures var r := ReadString(s); |Quote(r.value)| + |r.rest| <= |s|
  {
    TokenTakesOne(s, '"');
    BodyShortest(ReadToken(s, '"').rest);
  }

  lemma ScalarShortest(s: string)
    requires ReadScalar(s).Got?
    ensures var r := ReadScalar(s); FloatFree(r.value) && |Render(r.value)| + |r.rest| <= |s|
  {
    if !("null" <= s) && !("true" <= s) && !("false" <= s) {
      NumberTextIsUnique(s);
    }
  }

  /** However a value was written, its canonical text is no longer. */
  lemma {:induction false} ValueShortest(s: string)
    requires ReadValue(s).Got?
    ensures var r := ReadValue(s); FloatFree(r.value) && |Render(r.value)| + |r.rest| <= |s|
    decreases |s|, 2
  {
    var t := SkipSpace(s);
    if t[0] == '"' {
      BodyShortest(t[1..]);
    } else if t[0] == '[' {
      if ReadToken(t[1..], ']').Fail? {
        ItemsShortest(t[1..]);
      }
    } else if t[0] == '{' {
      if ReadToken(t[1..], '}').Fail? {
        MembersShortest(t[1..]);
      }
    } else {
      ScalarShortest(t);
    }
  }

  lemma {:induction false} ItemsShortest(s: string)
    requires ReadItems(s).Got?
    ensures var r := ReadItems(s); ItemsFloatFree(r.value) && |RenderItems(r.value)| + 1 + |r.rest| <= |s|
    decreases |s|, 3
  {
    var v := ReadValue(s);
    ValueShortest(s);
    if ReadToken(v.rest, ']').Fail? {
      var rest := ReadToken(v.rest, ',').rest;
      ItemsShortest(rest);
      var vs := ReadItems(rest).value;
      assert ([v.value] + vs)[1..] == vs;
    }
  }

  lemma {:induction false} MemberShortest(s: string)
    requires ReadMember(s).Got?
    ensures var r := ReadMember(s); FloatFree(r.value.value) && |RenderMember(r.value)| + |r.rest| <= |s|
    decreases |s|, 3
  {
    StringShortest(s);
    var rest := ReadString(s).rest;
    ValueShortest(ReadToken(rest, ':').rest);
  }

  lemma {:induction false} MembersShortest(s: string)
    requires ReadMembers(s).Got?
    ensures var r := ReadMembers(s); MembersFloatFree(r.value) && |RenderMembers(r.value)| + 1 + |r.rest| <= |s|
    decreases |s|, 4
  {
    var m := ReadMember(s);
    MemberShortest(s);
    if ReadToken(m.rest, '}').Fail? {
      var rest := ReadToken(m.rest, ',').rest;
      MembersShortest(rest);
      var ms := ReadMembers(rest).value;
      assert ([m.value] + ms)[1..] == ms;
    }
  }

  /** Of all texts read as a value, the printed one is among them and none is shorter. */
  lemma RenderIsShortest(v: Value, s: string)
    requires FloatFree(v) && Read(s).Got? && Read(s).value == v
    ensures Read(Render(v)) == Read(s) && |Render(v)| <= |s|
  {
    ValueShortest(s);
    ReadRender(v);
  }
}
