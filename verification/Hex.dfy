/** Hexadecimal text for bytes, as `hex::encode` and `hex::decode` have it. */
module Hex {
  import opened Bytes
  import opened Wrappers

  function HexChar(d: nat): (c: char)
    requires d < 16
    ensures c as int >= 0x20
  {
    if d < 10 then (48 + d) as char else (87 + d) as char
  }

  predicate IsHex(c: char) {
    '0' <= c <= '9' || 'a' <= c <= 'f' || 'A' <= c <= 'F'
  }

  function HexValue(c: char): (d: nat)
    requires IsHex(c)
    ensures d < 16
  {
    if c <= '9' then c as int - 48 else if c >= 'a' then c as int - 87 else c as int - 55
  }

  function Encode(bs: seq<byte>): (s: string)
    ensures |s| == 2 * |bs|
  {
    if bs == [] then []
    else [HexChar(bs[0] as int / 16), HexChar(bs[0] as int % 16)] + Encode(bs[1..])
  }

  /** Either case of digit; an odd length or a foreign character is refused. */
  function Decode(s: string): (r: Option<seq<byte>>)
    ensures r.Some? <==> |s| % 2 == 0 && forall i | 0 <= i < |s| :: IsHex(s[i])
    ensures r.Some? ==> |s| == 2 * |r.value|
  {
    if s == [] then Some([])
    else if |s| == 1 || !IsHex(s[0]) || !IsHex(s[1]) then None
    else
      match Decode(s[2..])
      case None => None
      case Some(rest) => Some([(16 * HexValue(s[0]) + HexValue(s[1])) as byte] + rest)
  }

  lemma {:induction false} DecodeEncode(bs: seq<byte>)
    ensures Decode(Encode(bs)) == Some(bs)
  {
    if bs != [] {
      DecodeEncode(bs[1..]);
      assert Encode(bs)[2..] == Encode(bs[1..]);
      assert bs == [bs[0]] + bs[1..];
    }
  }

  lemma EncodeInjective(a: seq<byte>, b: seq<byte>)
    requires Encode(a) == Encode(b)
    ensures a == b
  {
    DecodeEncode(a);
    DecodeEncode(b);
  }

  const LOWER_DIGITS: string := "0123456789abcdef"
  const UPPER_DIGITS: string := "0123456789ABCDEF"

  lemma DigitTables(d: nat)
    requires d < 16
    ensures HexChar(d) == LOWER_DIGITS[d]
    ensures HexValue(LOWER_DIGITS[d]) == d && HexValue(UPPER_DIGITS[d]) == d
  {
    if d >= 10 {
      assert LOWER_DIGITS[d] == (87 + d) as char && UPPER_DIGITS[d] == (55 + d) as char;
    } else {
      assert LOWER_DIGITS[d] == (48 + d) as char && UPPER_DIGITS[d] == (48 + d) as char;
    }
  }

  /** Byte i becomes the two lower-case digits of its halves, the high half first. */
  lemma {:induction false} EncodeAt(bs: seq<byte>, i: nat)
    requires i < |bs|
    ensures Encode(bs)[2 * i] == LOWER_DIGITS[bs[i] as int / 16]
    ensures Encode(bs)[2 * i + 1] == LOWER_DIGITS[bs[i] as int % 16]
  {
    if i == 0 {
      DigitTables(bs[0] as int / 16);
      DigitTables(bs[0] as int % 16);
    } else {
      EncodeAt(bs[1..], i - 1);
    }
  }

  /** Nothing but digits and the letters `a` to `f`. */
  lemma EncodeIsLowerCase(bs: seq<byte>)
    ensures forall i | 0 <= i < |Encode(bs)| :: '0' <= Encode(bs)[i] <= '9' || 'a' <= Encode(bs)[i] <= 'f'
  {
    forall i | 0 <= i < |Encode(bs)| ensures Encode(bs)[i] in LOWER_DIGITS {
      EncodeAt(bs, i / 2);
      assert i == 2 * (i / 2) + i % 2;
    }
    assert forall c | c in LOWER_DIGITS :: '0' <= c <= '9' || 'a' <= c <= 'f';
  }

  /** A pair of digits, in either case, stands for the byte with the first as its high half. */
  lemma DecodePair(high: nat, low: nat, upper: bool)
    requires high < 16 && low < 16
    ensures var digits := if upper then UPPER_DIGITS else LOWER_DIGITS;
      Decode([digits[high], digits[low]]) == Some([(16 * high + low) as byte])
  {
    DigitTables(high);
    DigitTables(low);
    var digits := if upper then UPPER_DIGITS else LOWER_DIGITS;
    var text := [digits[high], digits[low]];
    assert text[2..] == [] && Decode(text[2..]) == Some([]);
    assert HexValue(text[0]) == high && HexValue(text[1]) == low;
    assert [(16 * high + low) as byte] + [] == [(16 * high + low) as byte];
  }
}
