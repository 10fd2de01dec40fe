/**
  The canonical printer of `jcs.rs`: members sorted by UTF-16 code units at every
  depth, then printed. Two well-formed values have the same canonical text exactly
  when they are the same JSON value, and the framed message adds the timestamp.
 */
module Jcs {
  import opened Bytes
  import opened Wrappers
  import opened Json
  import opened JsonText
  import opened JsonReader
  import opened Unicode
  import Hex

  // ----- Sorting keys

  /** Strictly ascending under `utf16_cmp`. */
  predicate Ascending(ks: seq<string>) {
    forall i, j | 0 <= i < j < |ks| :: Utf16Cmp(ks[i], ks[j]) == Less
  }

  function Insert(k: string, ks: seq<string>): (r: seq<string>)
    ensures |r| == |ks| + 1
    ensures forall x :: x in r <==> x == k || x in ks
  {
    if ks == [] || Utf16Cmp(ks[0], k) != Less then [k] + ks else [ks[0]] + Insert(k, ks[1..])
  }

  /** `keys.sort_by(utf16_cmp)`: any sort gives this result on distinct keys. */
  function SortKeys(ks: seq<string>): (r: seq<string>)
    ensures |r| == |ks|
    ensures forall x :: x in r <==> x in ks
  {
    if ks == [] then [] else Insert(ks[0], SortKeys(ks[1..]))
  }

  predicate Distinct(ks: seq<string>) {
    forall i, j | 0 <= i < j < |ks| :: ks[i] != ks[j]
  }

  lemma {:induction false} InsertAscending(k: string, ks: seq<string>)
    requires Ascending(ks) && k !in ks
    ensures Ascending(Insert(k, ks))
  {
    if ks == [] {
    } else if Utf16Cmp(ks[0], k) == Less {
      var rest := Insert(k, ks[1..]);
      InsertAscending(k, ks[1..]);
      forall x | x in rest ensures Utf16Cmp(ks[0], x) == Less {
        if x != k {
          var i :| 0 <= i < |ks[1..]| && ks[1..][i] == x;
          assert Utf16Cmp(ks[0], ks[i + 1]) == Less;
        }
      }
    } else {
      Utf16TotalOrder(k, ks[0], ks[0]);
      forall j | 0 <= j < |ks| ensures Utf16Cmp(k, ks[j]) == Less {
        Utf16TotalOrder(k, ks[0], ks[j]);
      }
    }
  }

  lemma {:induction false} SortAscending(ks: seq<string>)
    requires Distinct(ks)
    ensures Ascending(SortKeys(ks))
  {
    if ks != [] {
      SortAscending(ks[1..]);
      assert ks[0] !in ks[1..];
      InsertAscending(ks[0], SortKeys(ks[1..]));
    }
  }

  /** A set of keys has only one ascending arrangement. */
  lemma {:induction false} AscendingUnique(a: seq<string>, b: seq<string>)
    requires Ascending(a) && Ascending(b)
    requires forall x :: x in a <==> x in b
    ensures a == b
  {
    assert a == [] || a[0] in a;
    assert b == [] || b[0] in b;
    if a != [] {
      SameFirst(a, b);
      forall x ensures x in a[1..] <==> x in b[1..] {
        NotTheFirst(a, x);
        NotTheFirst(b, x);
      }
      AscendingUnique(a[1..], b[1..]);
      assert a == [a[0]] + a[1..] && b == [b[0]] + b[1..];
    }
  }

  lemma SameFirst(a: seq<string>, b: seq<string>)
    requires Ascending(a) && Ascending(b) && a != [] && b != []
    requires a[0] in b && b[0] in a
    ensures a[0] == b[0]
  {
    if a[0] != b[0] {
      var i :| 0 <= i < |b| && b[i] == a[0];
      var j :| 0 <= j < |a| && a[j] == b[0];
      assert Utf16Cmp(b[0], b[i]) == Less && Utf16Cmp(a[0], a[j]) == Less;
      Utf16TotalOrder(a[0], b[0], a[0]);
    }
  }

  lemma NotTheFirst(a: seq<string>, x: string)
    requires Ascending(a) && a != []
    ensures x in a[1..] <==> x in a && x != a[0]
  {
    if x in a[1..] {
      var i :| 0 <= i < |a[1..]| && a[1..][i] == x;
      assert Utf16Cmp(a[0], a[i + 1]) == Less;
      Utf16TotalOrder(a[0], a[0], a[0]);
    }
  }

  /** Whatever sorting algorithm runs: an ascending arrangement of distinct keys is this one. */
  lemma AnySortAgrees(ks: seq<string>, sorted: seq<string>)
    requires Distinct(ks) && Ascending(sorted) && forall x :: x in sorted <==> x in ks
    ensures sorted == SortKeys(ks)
  {
    SortAscending(ks);
    AscendingUnique(sorted, SortKeys(ks));
  }

  // ----- The normal form

  function Keys(ms: seq<Member>): (ks: seq<string>)
    ensures |ks| == |ms| && forall i | 0 <= i < |ms| :: ks[i] == ms[i].key
  {
    seq(|ms|, i requires 0 <= i < |ms| => ms[i].key)
  }

  /** All keys of `ks` name members of `ms`. */
  predicate AllPresent(ms: seq<Member>, ks: seq<string>) {
    forall i | 0 <= i < |ks| :: HasKey(ms, ks[i])
  }

  lemma SortedKeysPresent(ms: seq<Member>)
    ensures AllPresent(ms, SortKeys(Keys(ms)))
  {
    var ks := SortKeys(Keys(ms));
    forall i | 0 <= i < |ks| ensures HasKey(ms, ks[i]) {
      assert ks[i] in Keys(ms);
    }
  }

  /** The value with the members of every object in canonical order. */
  function Normal(v: Value): Value
    decreases v, 0
  {
    match v
    case Array(items) => Array(NormalItems(items))
    case Object(ms) =>
      SortedKeysPresent(ms);
      Object(NormalMembers(ms, SortKeys(Keys(ms))))
    case _ => v
  }

  function NormalItems(items: seq<Value>): (r: seq<Value>)
    ensures |r| == |items|
    decreases items, 0
  {
    if items == [] then [] else [Normal(items[0])] + NormalItems(items[1..])
  }

  /** The members of `ms` named by `ks`, in that order. */
  function NormalMembers(ms: seq<Member>, ks: seq<string>): (r: seq<Member>)
    requires AllPresent(ms, ks)
    ensures |r| == |ks|
    decreases ms, 1, |ks|
  {
    if ks == [] then []
    else [Member(ks[0], Normal(ms[IndexOf(ms, ks[0])].value))] + NormalMembers(ms, ks[1..])
  }

  lemma {:induction false} NormalItemAt(items: seq<Value>, i: nat)
    requires i < |items|
    ensures NormalItems(items)[i] == Normal(items[i])
  {
    if i > 0 {
      NormalItemAt(items[1..], i - 1);
    }
  }

  lemma {:induction false} NormalMemberAt(ms: seq<Member>, ks: seq<string>, i: nat)
    requires AllPresent(ms, ks) && i < |ks|
    ensures NormalMembers(ms, ks)[i] == Member(ks[i], Normal(ms[IndexOf(ms, ks[i])].value))
  {
    if i > 0 {
      NormalMemberAt(ms, ks[1..], i - 1);
    }
  }

  lemma {:induction false} IndexOfOwnKey(ms: seq<Member>, i: nat)
    requires DistinctKeys(ms) && i < |ms|
    ensures HasKey(ms, ms[i].key) && IndexOf(ms, ms[i].key) == i
  {
    assert ms[i].key == ms[i].key;
    assert HasKey(ms, ms[i].key);
  }

  /** Where member `i` lands among the sorted keys. */
  lemma SortedPosition(ms: seq<Member>, i: nat) returns (j: nat)
    requires i < |ms|
    ensures j < |ms| && SortKeys(Keys(ms))[j] == ms[i].key
  {
    assert Keys(ms)[i] in Keys(ms);
    assert ms[i].key in SortKeys(Keys(ms));
    j :| 0 <= j < |SortKeys(Keys(ms))| && SortKeys(Keys(ms))[j] == ms[i].key;
  }

  /** Sorting members neither adds nor removes a float. */
  lemma {:induction false} NormalFloatFree(v: Value)
    requires WellFormed(v)
    ensures FloatFree(Normal(v)) <==> FloatFree(v)
    decreases v
  {
    match v
    case Array(items) =>
      forall i | 0 <= i < |items| ensures FloatFree(NormalItems(items)[i]) <==> FloatFree(items[i]) {
        NormalItemAt(items, i);
        NormalFloatFree(items[i]);
      }
    case Object(ms) =>
      SortedKeysPresent(ms);
      var ks := SortKeys(Keys(ms));
      forall j | 0 <= j < |ks|
        ensures FloatFree(NormalMembers(ms, ks)[j].value) <==> FloatFree(ms[IndexOf(ms, ks[j])].value)
      {
        NormalMemberAt(ms, ks, j);
        NormalFloatFree(ms[IndexOf(ms, ks[j])].value);
      }
      forall i | 0 <= i < |ms| && FloatFree(Normal(v)) ensures FloatFree(ms[i].value) {
        IndexOfOwnKey(ms, i);
        var j := SortedPosition(ms, i);
        assert FloatFree(NormalMembers(ms, ks)[j].value);
      }
    case _ =>
  }

  /** Normalizing does not change which JSON value it is. */
  lemma {:induction false} NormalIsSame(v: Value)
    requires WellFormed(v)
    ensures Same(v, Normal(v))
    decreases v
  {
    match v
    case Array(items) =>
      forall i | 0 <= i < |items| ensures Same(items[i], NormalItems(items)[i]) {
        NormalItemAt(items, i);
        NormalIsSame(items[i]);
      }
    case Object(ms) =>
      SortedKeysPresent(ms);
      var ks := SortKeys(Keys(ms));
      var ns := NormalMembers(ms, ks);
      forall i | 0 <= i < |ms|
        ensures HasKey(ns, ms[i].key) && Same(ms[i].value, ns[IndexOf(ns, ms[i].key)].value)
      {
        var j := SortedPosition(ms, i);
        NormalMemberAt(ms, ks, j);
        assert ns[j].key == ms[i].key;
        NormalMemberAt(ms, ks, IndexOf(ns, ms[i].key));
        IndexOfOwnKey(ms, i);
        NormalIsSame(ms[i].value);
      }
    case _ =>
  }

  /** Distinct keys stay distinct, at every depth. */
  lemma {:induction false} NormalWellFormed(v: Value)
    requires WellFormed(v)
    ensures WellFormed(Normal(v))
    decreases v
  {
    match v
    case Array(items) =>
      forall i | 0 <= i < |items| ensures WellFormed(NormalItems(items)[i]) {
        NormalItemAt(items, i);
        NormalWellFormed(items[i]);
      }
    case Object(ms) =>
      SortedKeysPresent(ms);
      var ks := SortKeys(Keys(ms));
      SortAscending(Keys(ms));
      forall j | 0 <= j < |ks|
        ensures NormalMembers(ms, ks)[j].key == ks[j] && WellFormed(NormalMembers(ms, ks)[j].value)
      {
        NormalMemberAt(ms, ks, j);
        NormalWellFormed(ms[IndexOf(ms, ks[j])].value);
      }
      forall i, j | 0 <= i < j < |ks| ensures ks[i] != ks[j] {
        Utf16TotalOrder(ks[i], ks[j], ks[j]);
      }
    case _ =>
  }

  // ----- Same value, same normal form

  function KeySet(ms: seq<Member>): set<string> {
    set i | 0 <= i < |ms| :: ms[i].key
  }

  lemma {:induction false} KeySetSize(ms: seq<Member>)
    requires DistinctKeys(ms)
    ensures |KeySet(ms)| == |ms|
  {
    if ms != [] {
      var last := |ms| - 1;
      KeySetSize(ms[..last]);
      assert KeySet(ms) == KeySet(ms[..last]) + {ms[last].key};
    }
  }

  lemma SubsetOfEqualSize<T>(a: set<T>, b: set<T>)
    requires a <= b && |a| == |b|
    ensures a == b
  {
    assert b == a + (b - a);
    assert |b - a| == 0;
  }

  /** Objects that are the same have the same sorted keys. */
  lemma SameSortedKeys(ms: seq<Member>, ns: seq<Member>)
    requires DistinctKeys(ms) && DistinctKeys(ns) && |ms| == |ns|
    requires forall i | 0 <= i < |ms| :: HasKey(ns, ms[i].key)
    ensures SortKeys(Keys(ms)) == SortKeys(Keys(ns))
  {
    KeySetSize(ms);
    KeySetSize(ns);
    assert KeySet(ms) <= KeySet(ns);
    SubsetOfEqualSize(KeySet(ms), KeySet(ns));
    forall k ensures k in Keys(ms) <==> k in Keys(ns) {
      assert k in Keys(ms) <==> k in KeySet(ms);
      assert k in Keys(ns) <==> k in KeySet(ns);
    }
    SortAscending(Keys(ms));
    SortAscending(Keys(ns));
    AscendingUnique(SortKeys(Keys(ms)), SortKeys(Keys(ns)));
  }

  /** Order independence: values that are the same have one normal form. */
  lemma {:induction false} SameNormal(v: Value, w: Value)
    requires WellFormed(v) && WellFormed(w) && Same(v, w)
    ensures Normal(v) == Normal(w)
    decreases v
  {
    match (v, w)
    case (Array(xs), Array(ys)) =>
      forall i | 0 <= i < |xs| ensures NormalItems(xs)[i] == NormalItems(ys)[i] {
        NormalItemAt(xs, i);
        NormalItemAt(ys, i);
        SameNormal(xs[i], ys[i]);
      }
      assert NormalItems(xs) == NormalItems(ys);
    case (Object(ms), Object(ns)) =>
      SameSortedKeys(ms, ns);
      SortedKeysPresent(ms);
      SortedKeysPresent(ns);
      var ks := SortKeys(Keys(ms));
      forall j | 0 <= j < |ks| ensures NormalMembers(ms, ks)[j] == NormalMembers(ns, ks)[j] {
        NormalMemberAt(ms, ks, j);
        NormalMemberAt(ns, ks, j);
        var i := IndexOf(ms, ks[j]);
        assert Same(ms[i].value, ns[IndexOf(ns, ms[i].key)].value);
        SameNormal(ms[i].value, ns[IndexOf(ns, ks[j])].value);
      }
      assert NormalMembers(ms, ks) == NormalMembers(ns, ks);
    case _ =>
  }

  /** One normal form, one value. */
  lemma {:induction false} NormalSame(v: Value, w: Value)
    requires WellFormed(v) && WellFormed(w) && Normal(v) == Normal(w)
    ensures Same(v, w)
    decreases v
  {
    match (v, w)
    case (Array(xs), Array(ys)) =>
      forall i | 0 <= i < |xs| ensures Same(xs[i], ys[i]) {
        NormalItemAt(xs, i);
        NormalItemAt(ys, i);
        NormalSame(xs[i], ys[i]);
      }
    case (Object(ms), Object(ns)) =>
      SortedKeysPresent(ms);
      SortedKeysPresent(ns);
      var ks, ls := SortKeys(Keys(ms)), SortKeys(Keys(ns));
      assert NormalMembers(ms, ks) == NormalMembers(ns, ls);
      forall i | 0 <= i < |ms|
        ensures HasKey(ns, ms[i].key) && Same(ms[i].value, ns[IndexOf(ns, ms[i].key)].value)
      {
        var j := SortedPosition(ms, i);
        IndexOfOwnKey(ms, i);
        NormalMemberAt(ms, ks, j);
        NormalMemberAt(ns, ls, j);
        assert ls[j] == ms[i].key;
        NormalSame(ms[i].value, ns[IndexOf(ns, ls[j])].value);
      }
    case _ =>
  }

  // ----- Canonical bytes

  datatype CryptoError = Canonicalization | SignatureInvalid

  /** The canonical text of a value without floats. */
  function CanonicalText(v: Value): (s: string)
    requires WellFormed(v) && FloatFree(v)
  {
    NormalFloatFree(v);
    Render(Normal(v))
  }

  /** `canonicalize`: the UTF-8 bytes, or a refusal. */
  function Canonicalize(v: Value): (r: Result<seq<byte>, CryptoError>)
    requires WellFormed(v)
    ensures r.Ok? <==> FloatFree(v)
  {
    if FloatFree(v) then Ok(Utf8(CanonicalText(v))) else Err(Canonicalization)
  }

  /** A JSON reader applied to the canonical text gives the same JSON value back. */
  lemma CanonicalReadsBack(v: Value)
    requires WellFormed(v) && FloatFree(v)
    ensures Read(CanonicalText(v)) == Got(Normal(v), []) && Same(v, Normal(v)) && WellFormed(Normal(v))
  {
    NormalWellFormed(v);
    NormalFloatFree(v);
    ReadRender(Normal(v));
    NormalIsSame(v);
  }

  /** Two accepted values have the same bytes exactly when they are the same JSON value. */
  lemma CanonicalBytesDecide(v: Value, w: Value)
    requires WellFormed(v) && WellFormed(w) && FloatFree(v)
    ensures Canonicalize(v) == Canonicalize(w) <==> Same(v, w)
  {
    if Same(v, w) {
      SameNormal(v, w);
      NormalFloatFree(v);
      NormalFloatFree(w);
    }
    if Canonicalize(v) == Canonicalize(w) {
      Utf8Injective(CanonicalText(v), CanonicalText(w));
      CanonicalReadsBack(v);
      CanonicalReadsBack(w);
      NormalSame(v, w);
    }
  }

  /**
    Re-parsing and re-emitting changes nothing: what a reader gives for the
    canonical text is a JSON value again, and canonicalizes to the same bytes.
   */
  lemma ReparsedCanonicalizesAlike(v: Value)
    requires WellFormed(v) && FloatFree(v)
    ensures var r := Read(CanonicalText(v)); r.Got? && WellFormed(r.value) && Canonicalize(r.value) == Canonicalize(v)
  {
    CanonicalReadsBack(v);
    CanonicalBytesDecide(v, Normal(v));
  }

  /** Canonical bytes hold no control byte, in particular no zero. */
  lemma CanonicalHasNoControlByte(v: Value)
    requires WellFormed(v) && FloatFree(v)
    ensures var bs := Canonicalize(v).value; forall j | 0 <= j < |bs| :: bs[j] >= 0x20
  {
    NormalFloatFree(v);
    RenderPrintable(Normal(v));
    NoLowBytes(CanonicalText(v));
  }

  /** The numbers are those of the characters, one for one. */
  predicate Spells(ns: seq<int>, s: string) {
    |ns| == |s| && forall i | 0 <= i < |s| :: ns[i] == s[i] as int
  }

  lemma {:induction false} CodePointsSpell(s: string)
    ensures Spells(CodePoints(s), s)
  {
    if s == [] {
      assert CodePoints(s) == [];
    } else {
      CodePointsAt(s, 0);
      forall i | 0 <= i < |s| ensures CodePoints(s)[i] == s[i] as int {
        CodePointsAt(s, i);
      }
    }
  }

  /** The bytes, read character by character, are the canonical text: nothing before it, nothing behind it. */
  lemma CanonicalBytesDecode(v: Value)
    requires WellFormed(v) && FloatFree(v)
    ensures Spells(DecodeUtf8(Canonicalize(v).value), CanonicalText(v))
  {
    Utf8Back(CanonicalText(v));
    CodePointsSpell(CanonicalText(v));
  }

  // ----- One text, letter by letter

  lemma OneUnit(c: char)
    requires c as int < 0x10000
    ensures Utf16([c]) == [c as int]
  {
    assert [c][1..] == [];
  }

  /** Of two one-letter keys the smaller code comes first, whatever order they were in. */
  lemma SortTwoKeys(c: char, d: char)
    requires c < d && d as int < 0x10000
    ensures SortKeys([[c], [d]]) == [[c], [d]] && SortKeys([[d], [c]]) == [[c], [d]]
  {
    OneUnit(c);
    OneUnit(d);
    assert Utf16Cmp([c], [d]) == Less && Utf16Cmp([d], [c]) == Greater;
    assert SortKeys([[d]]) == [[d]] && SortKeys([[c]]) == [[c]];
    assert [[c], [d]][1..] == [[d]] && [[d], [c]][1..] == [[c]] && [[c]][1..] == [];
  }

  lemma NormalOfTwo(c: char, d: char, x: Value, y: Value)
    requires c < d && d as int < 0x10000
    ensures Normal(Object([Member([d], y), Member([c], x)])) == Object([Member([c], Normal(x)), Member([d], Normal(y))])
  {
    var ms := [Member([d], y), Member([c], x)];
    SortTwoKeys(c, d);
    assert Keys(ms) == [[d], [c]];
    SortedKeysPresent(ms);
    NormalMemberAt(ms, [[c], [d]], 0);
    NormalMemberAt(ms, [[c], [d]], 1);
    assert [d] != [c] by {
      assert [d][0] != [c][0];
    }
    assert ms[1..][0].key == [c];
  }

  lemma KnownNumber()
    ensures NumberText(NegInt(-12)) == "-12"
  {
    assert Digits(12) == Digits(1) + [DigitChar(2)];
  }

  lemma KnownString()
    ensures Quote(['"', 7 as char]) == "\"\\\"\\u0007\""
  {
    EscapeTable(7 as char);
    assert Hex.LOWER_DIGITS[0] == '0' && Hex.LOWER_DIGITS[7] == '7';
    assert ['"', 7 as char][1..] == [7 as char];
    assert Escape([7 as char]) == EscapeChar(7 as char) + [];
  }

  predicate Plain(c: char) {
    0x20 <= c as int < 0x10000 && c != '"' && c != '\\'
  }

  lemma PlainQuote(c: char)
    requires Plain(c)
    ensures Quote([c]) == ['"', c, '"']
  {
    assert [c][1..] == [] && Escape([c]) == EscapeChar(c) + [];
  }

  lemma TwoRendered(m: Member, n: Member)
    requires FloatFree(m.value) && FloatFree(n.value)
    ensures FloatFree(Object([m, n]))
    ensures Render(Object([m, n])) == ['{'] + (RenderMember(m) + [','] + RenderMember(n)) + ['}']
  {
    FirstMember(m, [n]);
    assert [m] + [n] == [m, n];
  }

  /** An object of two one-letter keys, in the unsorted order: the smaller key is printed first. */
  lemma TwoMembersText(c: char, d: char, x: Value, y: Value)
    requires c < d && Plain(c) && Plain(d)
    requires WellFormed(x) && FloatFree(x) && WellFormed(y) && FloatFree(y)
    ensures var v := Object([Member([d], y), Member([c], x)]);
      && WellFormed(v) && FloatFree(v)
      && CanonicalText(v) == ['{'] + (['"', c, '"', ':'] + CanonicalText(x) + [',']
                                      + (['"', d, '"', ':'] + CanonicalText(y))) + ['}']
  {
    var v := Object([Member([d], y), Member([c], x)]);
    assert [c][0] != [d][0];
    NormalOfTwo(c, d, x, y);
    NormalFloatFree(x);
    NormalFloatFree(y);
    var m, n := Member([c], Normal(x)), Member([d], Normal(y));
    TwoRendered(m, n);
    PlainQuote(c);
    PlainQuote(d);
    assert RenderMember(m) == ['"', c, '"', ':'] + CanonicalText(x);
    assert RenderMember(n) == ['"', d, '"', ':'] + CanonicalText(y);
  }

  lemma KnownParts(a: Value, b: Value)
    requires a == Num(NegInt(-12)) && b == Str(['"', 7 as char])
    ensures Render(a) == "-12" && Render(b) == "\"\\\"\\u0007\""
    ensures RenderItems([a, b]) == Render(a) + [','] + Render(b)
    ensures NormalItems([a, b]) == [a, b]
  {
    KnownNumber();
    KnownString();
    FirstItem(a, [b]);
    assert [a] + [b] == [a, b];
    NormalItemAt([a, b], 0);
    NormalItemAt([a, b], 1);
  }

  lemma KnownList()
    ensures CanonicalText(Array([Num(NegInt(-12)), Str(['"', 7 as char])]))
         == ['['] + "-12,\"\\\"\\u0007\"" + [']']
  {
    KnownParts(Num(NegInt(-12)), Str(['"', 7 as char]));
    Comma("-12", "\"\\\"\\u0007\"");
  }

  lemma Comma(a: string, b: string)
    requires a == "-12" && b == "\"\\\"\\u0007\""
    ensures a + [','] + b == "-12,\"\\\"\\u0007\""
  {
  }

  lemma Joined(x: string)
    requires x == "null"
    ensures ['"', 'a', '"', ':'] + x + [','] + (['"', 'b', '"', ':'] + x) == "\"a\":null,\"b\":null"
  {
    assert ['"', 'a', '"', ':'] + x + [','] == "\"a\":null,";
    assert ['"', 'b', '"', ':'] + x == "\"b\":null";
  }

  lemma KnownObject()
    ensures var v := Object([Member(['b'], Null), Member(['a'], Null)]);
      WellFormed(v) && FloatFree(v) && CanonicalText(v) == ['{'] + "\"a\":null,\"b\":null" + ['}']
  {
    TwoMembersText('a', 'b', Null, Null);
    Joined(CanonicalText(Null));
  }

  // ----- The signed message

  /** `canonical ‖ 0x00 ‖ timestamp`, the framing every signer and verifier uses. */
  function Frame(canonical: seq<byte>, timestamp: I64): seq<byte> {
    canonical + [0] + I64Bytes(timestamp)
  }

  /** `canonical_message`. */
  function CanonicalMessage(v: Value, timestamp: I64): (r: Result<seq<byte>, CryptoError>)
    requires WellFormed(v)
  {
    match Canonicalize(v)
    case Ok(bs) => Ok(Frame(bs, timestamp))
    case Err(e) => Err(e)
  }

  /** Eight bytes, byte j counting the 256^j of the timestamp modulo 2^64. */
  predicate TimestampBytes(bs: seq<byte>, t: I64) {
    |bs| == 8 && forall j | 0 <= j < 8 :: bs[j] as int == t % 0x1_0000_0000_0000_0000 / Pow256(j) % 256
  }

  /** The parts of a message: the canonical bytes, a zero, and eight bytes that read back as the timestamp. */
  lemma MessageParts(v: Value, t: I64)
    requires WellFormed(v) && FloatFree(v)
    ensures var bs, msg := Canonicalize(v).value, CanonicalMessage(v, t).value;
      && |msg| == |bs| + 9
      && msg[..|bs|] == bs
      && msg[|bs|] == 0
      && I64FromBytes(msg[|bs| + 1..]) == t
      && TimestampBytes(msg[|bs| + 1..], t)
  {
    var bs, msg := Canonicalize(v).value, CanonicalMessage(v, t).value;
    assert msg == bs + [0] + I64Bytes(t);
    assert msg[|bs| + 1..] == I64Bytes(t);
    I64BytesBack(t);
    forall j | 0 <= j < 8 ensures I64Bytes(t)[j] as int == t % 0x1_0000_0000_0000_0000 / Pow256(j) % 256 {
      I64BytesAt(t, j);
    }
  }

  lemma FrameInjective(a: seq<byte>, t: I64, b: seq<byte>, u: I64)
    requires Frame(a, t) == Frame(b, u)
    ensures a == b && t == u
  {
    var x, y := Frame(a, t), Frame(b, u);
    assert |a| == |b|;
    assert x[..|a|] == a && y[..|b|] == b;
    assert x[|a| + 1..] == I64Bytes(t) && y[|b| + 1..] == I64Bytes(u);
    I64BytesBack(t);
    I64BytesBack(u);
  }

  /** The message decides both the JSON value and the timestamp. */
  lemma MessageDecides(v: Value, t: I64, w: Value, u: I64)
    requires WellFormed(v) && WellFormed(w) && FloatFree(v)
    ensures CanonicalMessage(v, t) == CanonicalMessage(w, u) <==> Same(v, w) && t == u
  {
    CanonicalBytesDecide(v, w);
    if CanonicalMessage(v, t) == CanonicalMessage(w, u) {
      FrameInjective(Canonicalize(v).value, t, Canonicalize(w).value, u);
    }
  }

  /** The separator is the first zero byte of the message. */
  lemma SeparatorIsFirstZero(v: Value, t: I64)
    requires WellFormed(v) && FloatFree(v)
    ensures var n, msg := |Canonicalize(v).value|, CanonicalMessage(v, t).value;
      n < |msg| && msg[n] == 0 && forall j | 0 <= j < n :: msg[j] != 0
  {
    CanonicalHasNoControlByte(v);
  }
}
