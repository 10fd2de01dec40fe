/**
  Strings as sequences of Unicode scalar values, their UTF-16 code units and
  UTF-8 bytes, and the two orders on them that disagree outside the basic plane.
 */
module Unicode {
  import opened Bytes

  datatype Ordering = Less | Equal | Greater
  {
    function Reverse(): Ordering {
      match this
      case Less => Greater
      case Equal => Equal
      case Greater => Less
    }
  }

  /** Lexicographic comparison; a proper prefix comes first. */
  function Compare(a: seq<int>, b: seq<int>): Ordering {
    if a == [] && b == [] then Equal
    else if a == [] then Less
    else if b == [] then Greater
    else if a[0] < b[0] then Less
    else if a[0] > b[0] then Greater
    else Compare(a[1..], b[1..])
  }

  lemma {:induction false} CompareEqual(a: seq<int>, b: seq<int>)
    ensures Compare(a, b) == Equal <==> a == b
  {
    if a != [] && b != [] && a[0] == b[0] {
      CompareEqual(a[1..], b[1..]);
      assert a == [a[0]] + a[1..] && b == [b[0]] + b[1..];
    }
  }

  lemma {:induction false} CompareReverse(a: seq<int>, b: seq<int>)
    ensures Compare(b, a) == Compare(a, b).Reverse()
  {
    if a != [] && b != [] && a[0] == b[0] {
      CompareReverse(a[1..], b[1..]);
    }
  }

  lemma {:induction false} CompareTransitive(a: seq<int>, b: seq<int>, c: seq<int>)
    requires Compare(a, b) != Greater && Compare(b, c) != Greater
    ensures Compare(a, c) != Greater
    ensures Compare(a, b) == Less || Compare(b, c) == Less ==> Compare(a, c) == Less
  {
    if a != [] && b != [] && c != [] && a[0] == b[0] == c[0] {
      CompareTransitive(a[1..], b[1..], c[1..]);
    }
  }

  lemma {:induction false} CompareCommonPrefix(p: seq<int>, a: seq<int>, b: seq<int>)
    ensures Compare(p + a, p + b) == Compare(a, b)
  {
    if p == [] {
      assert p + a == a && p + b == b;
    } else {
      assert (p + a)[1..] == p[1..] + a && (p + b)[1..] == p[1..] + b;
      CompareCommonPrefix(p[1..], a, b);
    }
  }

  // ----- UTF-16

  function CharUnits(c: char): (u: seq<int>)
    ensures 1 <= |u| <= 2
  {
    var n := c as int;
    if n < 0x10000 then [n] else [0xD800 + (n - 0x10000) / 0x400, 0xDC00 + (n - 0x10000) % 0x400]
  }

  /** `encode_utf16`. */
  function Utf16(s: string): seq<int> {
    if s == [] then [] else CharUnits(s[0]) + Utf16(s[1..])
  }

  function CodePoints(s: string): seq<int> {
    if s == [] then [] else [s[0] as int] + CodePoints(s[1..])
  }

  /** `utf16_cmp`. */
  function Utf16Cmp(a: string, b: string): Ordering {
    Compare(Utf16(a), Utf16(b))
  }

  function CodePointCmp(a: string, b: string): Ordering {
    Compare(CodePoints(a), CodePoints(b))
  }

  /** The units of two different characters differ in a place both have. */
  lemma UnitsDiffer(c: char, d: char, x: seq<int>, y: seq<int>)
    requires c != d
    ensures Compare(CharUnits(c) + x, CharUnits(d) + y) == Compare(CharUnits(c), CharUnits(d))
    ensures Compare(CharUnits(c), CharUnits(d)) != Equal
  {
    var u, v := CharUnits(c), CharUnits(d);
    var m, n := c as int, d as int;
    if |u| == 2 && |v| == 2 && u[0] == v[0] {
      assert u[1] != v[1] by {
        assert m - 0x10000 == 0x400 * ((m - 0x10000) / 0x400) + (m - 0x10000) % 0x400;
        assert n - 0x10000 == 0x400 * ((n - 0x10000) / 0x400) + (n - 0x10000) % 0x400;
      }
      assert (u + x)[1..] == [u[1]] + x && (v + y)[1..] == [v[1]] + y;
      assert u[1..] == [u[1]] && v[1..] == [v[1]];
    } else {
      assert u[0] != v[0];
    }
  }

  lemma {:induction false} Utf16Injective(a: string, b: string)
    requires Utf16(a) == Utf16(b)
    ensures a == b
  {
    if a != [] && b != [] {
      if a[0] != b[0] {
        UnitsDiffer(a[0], b[0], Utf16(a[1..]), Utf16(b[1..]));
        CompareEqual(Utf16(a), Utf16(b));
      } else {
        var u := CharUnits(a[0]);
        assert Utf16(a)[|u|..] == Utf16(a[1..]) && Utf16(b)[|u|..] == Utf16(b[1..]);
        Utf16Injective(a[1..], b[1..]);
        assert a == [a[0]] + a[1..] && b == [b[0]] + b[1..];
      }
    }
  }

  /** `utf16_cmp` is a total order, and equal only on equal strings. */
  lemma Utf16TotalOrder(a: string, b: string, c: string)
    ensures Utf16Cmp(a, b) == Equal <==> a == b
    ensures Utf16Cmp(b, a) == Utf16Cmp(a, b).Reverse()
    ensures Utf16Cmp(a, b) == Less && Utf16Cmp(b, c) == Less ==> Utf16Cmp(a, c) == Less
  {
    CompareEqual(Utf16(a), Utf16(b));
    if Utf16(a) == Utf16(b) {
      Utf16Injective(a, b);
    }
    CompareReverse(Utf16(a), Utf16(b));
    if Utf16Cmp(a, b) == Less && Utf16Cmp(b, c) == Less {
      CompareTransitive(Utf16(a), Utf16(b), Utf16(c));
    }
  }

  /** `u` and `v` agree on their first n units, where `u` ends or has the smaller unit. */
  predicate PrecedesAt(u: seq<int>, v: seq<int>, n: nat) {
    n <= |u| && n < |v| && u[..n] == v[..n] && (n == |u| || u[n] < v[n])
  }

  lemma PrecedesLater(u: seq<int>, v: seq<int>, n: nat)
    requires u != [] && v != [] && u[0] == v[0]
    ensures PrecedesAt(u[1..], v[1..], n) == PrecedesAt(u, v, n + 1)
  {
    if n <= |u[1..]| && n < |v[1..]| {
      assert u[..n + 1] == [u[0]] + u[1..][..n] && v[..n + 1] == [v[0]] + v[1..][..n];
      assert u[1..][..n] == u[..n + 1][1..] && v[1..][..n] == v[..n + 1][1..];
    }
  }

  lemma FirstAgrees(u: seq<int>, v: seq<int>, n: nat)
    requires 0 < n <= |u| && n <= |v| && u[..n] == v[..n]
    ensures u[0] == v[0]
  {
    assert u[..n][0] == v[..n][0];
  }

  lemma {:induction false} CompareLessExactly(u: seq<int>, v: seq<int>)
    ensures Compare(u, v) == Less <==> exists n: nat :: PrecedesAt(u, v, n)
  {
    if u == [] || v == [] || u[0] != v[0] {
      if n: nat :| PrecedesAt(u, v, n) {
        if u != [] && n > 0 {
          FirstAgrees(u, v, n);
        }
      }
      if Compare(u, v) == Less {
        assert PrecedesAt(u, v, 0);
      }
    } else {
      CompareLessExactly(u[1..], v[1..]);
      if n: nat :| PrecedesAt(u[1..], v[1..], n) {
        PrecedesLater(u, v, n);
      }
      if n: nat :| PrecedesAt(u, v, n) {
        PrecedesLater(u, v, n - 1);
      }
    }
  }

  /** Where two unit sequences first part, the first has ended or has the smaller unit. */
  ghost predicate Precedes(u: seq<int>, v: seq<int>) {
    exists n: nat :: PrecedesAt(u, v, n)
  }

  lemma CompareIsPrecedes(u: seq<int>, v: seq<int>)
    ensures (Compare(u, v) == Less) == Precedes(u, v)
  {
    CompareLessExactly(u, v);
  }

  /** One string comes before another exactly when its UTF-16 code units precede the other's. */
  lemma Utf16LessExactly(a: string, b: string)
    ensures (Utf16Cmp(a, b) == Less) == Precedes(Utf16(a), Utf16(b))
  {
    CompareIsPrecedes(Utf16(a), Utf16(b));
  }

  /** The units of a character are itself, or a lead and a trail surrogate that stand for it. */
  lemma CharUnitsForm(c: char)
    ensures var n, u := c as int, CharUnits(c);
      if n < 0x10000 then u == [n]
      else |u| == 2 && 0xD800 <= u[0] < 0xDC00 <= u[1] < 0xE000
           && n == 0x10000 + (u[0] - 0xD800) * 0x400 + (u[1] - 0xDC00)
  {
    if c as int >= 0x10000 {
      var n, u := c as int - 0x10000, CharUnits(c);
      assert 0 <= n < 0x100000 && n == n / 0x400 * 0x400 + n % 0x400;
      assert |u| == 2 && u[0] == 0xD800 + n / 0x400 && u[1] == 0xDC00 + n % 0x400;
    }
  }

  // ----- Where the two orders part

  /** `a` and `b` first differ at index `i`, where both have a character. */
  predicate FirstDifference(a: string, b: string, i: nat) {
    i < |a| && i < |b| && a[i] != b[i] && forall j | 0 <= j < i :: a[j] == b[j]
  }

  /** One character needs a surrogate pair, the other lies in U+E000..U+FFFF. */
  predicate Straddles(c: char, d: char) {
    || (c as int >= 0x10000 && 0xE000 <= d as int < 0x10000)
    || (d as int >= 0x10000 && 0xE000 <= c as int < 0x10000)
  }

  lemma CharOrders(c: char, d: char)
    requires c != d
    ensures Compare(CharUnits(c), CharUnits(d)) != Compare([c as int], [d as int]) <==> Straddles(c, d)
  {
    UnitsDiffer(c, d, [], []);
    var m, n := c as int, d as int;
    if m >= 0x10000 && n >= 0x10000 {
      var u, v := CharUnits(c), CharUnits(d);
      assert u[1..] == [u[1]] && v[1..] == [v[1]];
      assert m - 0x10000 == 0x400 * ((m - 0x10000) / 0x400) + (m - 0x10000) % 0x400;
      assert n - 0x10000 == 0x400 * ((n - 0x10000) / 0x400) + (n - 0x10000) % 0x400;
    }
  }

  /** The two orders disagree exactly when the first differing characters straddle the surrogates. */
  lemma {:induction false} OrdersDiffer(a: string, b: string)
    ensures Utf16Cmp(a, b) != CodePointCmp(a, b)
       <==> exists i: nat :: FirstDifference(a, b, i) && Straddles(a[i], b[i])
    decreases |a|
  {
    if a == [] || b == [] {
    } else if a[0] != b[0] {
      assert FirstDifference(a, b, 0);
      assert forall i: nat | FirstDifference(a, b, i) :: i == 0;
      UnitsDiffer(a[0], b[0], Utf16(a[1..]), Utf16(b[1..]));
      CharOrders(a[0], b[0]);
      assert CodePointCmp(a, b) == Compare([a[0] as int], [b[0] as int]);
    } else {
      var x, y := a[1..], b[1..];
      OrdersDiffer(x, y);
      CompareCommonPrefix(CharUnits(a[0]), Utf16(x), Utf16(y));
      CompareCommonPrefix([a[0] as int], CodePoints(x), CodePoints(y));
      forall i: nat
        ensures FirstDifference(x, y, i) <==> FirstDifference(a, b, i + 1)
      {
        ShiftDifference(a, b, i);
      }
      assert !FirstDifference(a, b, 0);
      if i: nat :| FirstDifference(a, b, i) && Straddles(a[i], b[i]) {
        assert FirstDifference(x, y, i - 1) && Straddles(x[i - 1], y[i - 1]);
      }
      if i: nat :| FirstDifference(x, y, i) && Straddles(x[i], y[i]) {
        assert FirstDifference(a, b, i + 1) && Straddles(a[i + 1], b[i + 1]);
      }
    }
  }

  lemma ShiftDifference(a: string, b: string, i: nat)
    requires a != [] && b != [] && a[0] == b[0]
    ensures FirstDifference(a[1..], b[1..], i) <==> FirstDifference(a, b, i + 1)
  {
    if FirstDifference(a[1..], b[1..], i) {
      assert forall j | 0 < j < i + 1 :: a[j] == a[1..][j - 1] && b[j] == b[1..][j - 1];
    }
  }

  // ----- UTF-8

  function CharBytes(c: char): (bs: seq<byte>)
    ensures 1 <= |bs| <= 4
  {
    var n := c as int;
    if n < 0x80 then [n as byte]
    else if n < 0x800 then [(0xC0 + n / 0x40) as byte, (0x80 + n % 0x40) as byte]
    else if n < 0x10000 then
      [(0xE0 + n / 0x1000) as byte, (0x80 + n / 0x40 % 0x40) as byte, (0x80 + n % 0x40) as byte]
    else
      [(0xF0 + n / 0x40000) as byte, (0x80 + n / 0x1000 % 0x40) as byte,
       (0x80 + n / 0x40 % 0x40) as byte, (0x80 + n % 0x40) as byte]
  }

  /** `String::into_bytes`. */
  function Utf8(s: string): seq<byte> {
    if s == [] then [] else CharBytes(s[0]) + Utf8(s[1..])
  }

  /** How long a character is, read off its first byte. */
  function LengthFromLead(b: byte): nat {
    if b < 0x80 then 1 else if b < 0xE0 then 2 else if b < 0xF0 then 3 else 4
  }

  lemma LeadGivesLength(c: char)
    ensures |CharBytes(c)| == LengthFromLead(CharBytes(c)[0])
  {
  }

  /** The scalar value, read back from the bytes. */
  function Scalar(bs: seq<byte>): int {
    if |bs| == 1 then bs[0] as int
    else if |bs| == 2 then (bs[0] as int - 0xC0) * 0x40 + (bs[1] as int - 0x80)
    else if |bs| == 3 then
      (bs[0] as int - 0xE0) * 0x1000 + (bs[1] as int - 0x80) * 0x40 + (bs[2] as int - 0x80)
    else if |bs| == 4 then
      (bs[0] as int - 0xF0) * 0x40000 + (bs[1] as int - 0x80) * 0x1000
      + (bs[2] as int - 0x80) * 0x40 + (bs[3] as int - 0x80)
    else 0
  }

  lemma Base64Digits(n: nat)
    ensures n / 0x1000 == n / 0x40 / 0x40 && n / 0x40000 == n / 0x40 / 0x40 / 0x40
    ensures n == n / 0x40 * 0x40 + n % 0x40
    ensures n / 0x40 == n / 0x1000 * 0x40 + n / 0x40 % 0x40
    ensures n / 0x1000 == n / 0x40000 * 0x40 + n / 0x1000 % 0x40
  {
  }

  lemma ScalarOfBytes(c: char)
    ensures Scalar(CharBytes(c)) == c as int
  {
    Base64Digits(c as int);
  }

  lemma {:induction false} Utf8Injective(a: string, b: string)
    requires Utf8(a) == Utf8(b)
    ensures a == b
  {
    if a != [] && b != [] {
      var x, y := CharBytes(a[0]), CharBytes(b[0]);
      LeadGivesLength(a[0]);
      LeadGivesLength(b[0]);
      assert Utf8(a)[0] == x[0] && Utf8(b)[0] == y[0];
      assert Utf8(a)[..|x|] == x && Utf8(b)[..|y|] == y;
      ScalarOfBytes(a[0]);
      ScalarOfBytes(b[0]);
      assert a[0] == b[0];
      assert Utf8(a)[|x|..] == Utf8(a[1..]) && Utf8(b)[|y|..] == Utf8(b[1..]);
      Utf8Injective(a[1..], b[1..]);
      assert a == [a[0]] + a[1..] && b == [b[0]] + b[1..];
    }
  }

  /** Characters at or above U+0020 have no byte below 0x20. */
  lemma {:induction false} NoLowBytes(s: string)
    requires forall i | 0 <= i < |s| :: s[i] as int >= 0x20
    ensures forall j | 0 <= j < |Utf8(s)| :: Utf8(s)[j] >= 0x20
  {
    if s != [] {
      assert forall j | 0 <= j < |CharBytes(s[0])| :: CharBytes(s[0])[j] >= 0x20;
      NoLowBytes(s[1..]);
    }
  }

  // ----- UTF-8, read back

  /** The forms of section 4 of RFC 3629, by the range of the character. */
  lemma CharBytesForm(c: char)
    ensures var n, bs := c as int, CharBytes(c);
      && (n < 0x80 ==> |bs| == 1 && bs[0] as int == n)
      && (0x80 <= n < 0x800 ==> |bs| == 2 && 0xC2 <= bs[0] < 0xE0)
      && (0x800 <= n < 0x10000 ==> |bs| == 3 && 0xE0 <= bs[0] < 0xF0)
      && (0x10000 <= n ==> |bs| == 4 && 0xF0 <= bs[0] < 0xF5)
      && forall i | 0 < i < |bs| :: 0x80 <= bs[i] < 0xC0
  {
  }

  /** A reader of UTF-8: the lead byte says how many bytes the next character has. */
  function DecodeUtf8(bs: seq<byte>): seq<int>
    decreases |bs|
  {
    if bs == [] then []
    else
      var n := LengthFromLead(bs[0]);
      if |bs| < n then [-1] else [Scalar(bs[..n])] + DecodeUtf8(bs[n..])
  }

  lemma DecodeNext(c: char, rest: seq<byte>)
    ensures DecodeUtf8(CharBytes(c) + rest) == [c as int] + DecodeUtf8(rest)
  {
    var bs, all := CharBytes(c), CharBytes(c) + rest;
    LeadGivesLength(c);
    ScalarOfBytes(c);
    assert all[0] == bs[0] && all[..|bs|] == bs && all[|bs|..] == rest;
  }

  /** The bytes of a text, read character by character, are its characters in order. */
  lemma {:induction false} Utf8Back(s: string)
    ensures DecodeUtf8(Utf8(s)) == CodePoints(s)
  {
    if s != [] {
      Utf8Back(s[1..]);
      DecodeNext(s[0], Utf8(s[1..]));
    }
  }

  lemma {:induction false} CodePointsAt(s: string, i: nat)
    requires i < |s|
    ensures |CodePoints(s)| == |s| && CodePoints(s)[i] == s[i] as int
  {
    if |s| > 1 {
      CodePointsAt(s[1..], if i > 0 then i - 1 else 0);
    } else {
      assert CodePoints(s[1..]) == [];
    }
  }
}
