/**
  The writer itself: recursive methods that push onto one shared text buffer, in
  the source's order and with its early exits, proved to append exactly the
  canonical text or to refuse exactly the values that hold a float.
 */
module JcsWriter {
  import opened Bytes
  import opened Wrappers
  import opened Json
  import opened JsonText
  import opened JsonReader
  import opened Unicode
  import opened Jcs

  /** `out: &mut String`. */
  class TextBuffer {
    var text: string

    constructor ()
      ensures text == []
    {
      text := [];
    }

    method Push(c: char)
      modifies this
      ensures text == old(text) + [c]
    {
      text := text + [c];
    }

    method PushStr(s: string)
      modifies this
      ensures text == old(text) + s
    {
      text := text + s;
    }
  }

  // ----- How a list of items, members or characters grows at its end

  lemma Commas(first: string, body: string, last: string)
    ensures first + [','] + (body + [','] + last) == (first + [','] + body) + [','] + last
  {
  }

  lemma {:induction false} RenderOneMoreItem(items: seq<Value>, v: Value)
    requires ItemsFloatFree(items) && FloatFree(v)
    ensures ItemsFloatFree(items + [v])
    ensures RenderItems(items + [v]) == RenderItems(items) + (if items == [] then [] else [',']) + Render(v)
    decreases |items|
  {
    if items == [] {
      assert items + [v] == [v];
    } else {
      var x, rest := items[0], items[1..];
      assert items == [x] + rest && items + [v] == [x] + (rest + [v]);
      RenderOneMoreItem(rest, v);
      FirstItem(x, rest + [v]);
      if rest != [] {
        FirstItem(x, rest);
        Commas(Render(x), RenderItems(rest), Render(v));
      }
    }
  }

  lemma {:induction false} RenderOneMoreMember(ms: seq<Member>, m: Member)
    requires MembersFloatFree(ms) && FloatFree(m.value)
    ensures MembersFloatFree(ms + [m])
    ensures RenderMembers(ms + [m]) == RenderMembers(ms) + (if ms == [] then [] else [',']) + RenderMember(m)
    decreases |ms|
  {
    if ms == [] {
      assert ms + [m] == [m];
    } else {
      var x, rest := ms[0], ms[1..];
      assert ms == [x] + rest && ms + [m] == [x] + (rest + [m]);
      RenderOneMoreMember(rest, m);
      FirstMember(x, rest + [m]);
      if rest != [] {
        FirstMember(x, rest);
        Commas(RenderMember(x), RenderMembers(rest), RenderMember(m));
      }
    }
  }

  lemma {:induction false} EscapeOneMore(s: string, c: char)
    ensures Escape(s + [c]) == Escape(s) + EscapeChar(c)
  {
    if s == [] {
      assert s + [c] == [c];
      assert Escape([c]) == EscapeChar(c) + Escape([]);
    } else {
      assert (s + [c])[1..] == s[1..] + [c];
      EscapeOneMore(s[1..], c);
    }
  }

  /** `text` is an open quote after `before`, then the first `i` characters escaped. */
  predicate HoldsChars(text: string, before: string, s: string, i: nat) {
    i <= |s| && text == before + (['"'] + Escape(s[..i]))
  }

  lemma GrowChars(was: string, text: string, before: string, s: string, i: nat, j: nat)
    requires i < |s| && j == i + 1 && HoldsChars(was, before, s, i) && text == was + EscapeChar(s[i])
    ensures HoldsChars(text, before, s, j)
  {
    EscapeOneMore(s[..i], s[i]);
    assert s[..j] == s[..i] + [s[i]];
  }

  lemma Regroup(before: string, open: string, body: string, sep: string, piece: string)
    ensures before + (open + body) + sep + piece == before + (open + (body + sep + piece))
  {
  }

  lemma Glue(before: string, key: string, value: string, text: string)
    requires text == before + key + [':'] + value
    ensures text == before + (key + [':'] + value)
  {
  }

  /** `text` is the list opened after `before`, holding the first `i` items. */
  ghost predicate HoldsItems(text: string, before: string, done: seq<Value>, i: nat) {
    i <= |done| && ItemsFloatFree(done[..i]) && text == before + (['['] + RenderItems(done[..i]))
  }

  /** Pushing a separator and item `i` after the first `i` items. */
  lemma GrowItems(was: string, text: string, before: string, done: seq<Value>, i: nat, j: nat)
    requires i < |done| && j == i + 1 && HoldsItems(was, before, done, i) && FloatFree(done[i])
    requires text == was + (if i > 0 then [','] else []) + Render(done[i])
    ensures HoldsItems(text, before, done, j)
  {
    assert done[..j] == done[..i] + [done[i]];
    RenderOneMoreItem(done[..i], done[i]);
    Regroup(before, ['['], RenderItems(done[..i]), if i > 0 then [','] else [], Render(done[i]));
  }

  ghost predicate HoldsMembers(text: string, before: string, done: seq<Member>, i: nat) {
    i <= |done| && MembersFloatFree(done[..i]) && text == before + (['{'] + RenderMembers(done[..i]))
  }

  lemma GrowMembers(was: string, text: string, before: string, done: seq<Member>, i: nat, j: nat)
    requires i < |done| && j == i + 1 && HoldsMembers(was, before, done, i) && FloatFree(done[i].value)
    requires text == was + (if i > 0 then [','] else []) + RenderMember(done[i])
    ensures HoldsMembers(text, before, done, j)
  {
    assert done[..j] == done[..i] + [done[i]];
    RenderOneMoreMember(done[..i], done[i]);
    Regroup(before, ['{'], RenderMembers(done[..i]), if i > 0 then [','] else [], RenderMember(done[i]));
  }

  lemma AllMembersHeld(text: string, before: string, done: seq<Member>)
    requires HoldsMembers(text, before, done, |done|)
    ensures MembersFloatFree(done) && text == before + (['{'] + RenderMembers(done))
  {
    assert done[..|done|] == done;
  }

  lemma FloatMember(done: seq<Member>, i: nat)
    requires i < |done| && !FloatFree(done[i].value)
    ensures !MembersFloatFree(done)
  {
  }

  // ----- The writer

  method WriteString(s: string, out: TextBuffer)
    modifies out
    ensures out.text == old(out.text) + Quote(s)
  {
    ghost var before := out.text;
    out.Push('"');
    var i: nat := 0;
    while i < |s|
      invariant i <= |s| && HoldsChars(out.text, before, s, i)
    {
      ghost var was := out.text;
      out.PushStr(EscapeChar(s[i]));
      i := i + 1;
      GrowChars(was, out.text, before, s, i - 1, i);
    }
    assert s[..i] == s;
    out.Push('"');
  }

  /** `i64::to_string`. */
  function IntText(i: I64): string {
    if i < 0 then ['-'] + Digits(0 - i) else Digits(i)
  }

  method WriteNumber(n: Number, out: TextBuffer) returns (r: Result<(), CryptoError>)
    modifies out
    ensures r == if n.Float? then Err(Canonicalization) else Ok(())
    ensures out.text == if n.Float? then old(out.text) else old(out.text) + NumberText(n)
  {
    if n.AsU64().Some? {
      out.PushStr(Digits(n.AsU64().value));
      r := Ok(());
    } else if n.AsI64().Some? {
      out.PushStr(IntText(n.AsI64().value));
      r := Ok(());
    } else {
      r := Err(Canonicalization);
    }
  }

  method WriteValue(v: Value, out: TextBuffer) returns (r: Result<(), CryptoError>)
    requires WellFormed(v)
    modifies out
    ensures r == if FloatFree(v) then Ok(()) else Err(Canonicalization)
    ensures r.Ok? ==> out.text == old(out.text) + CanonicalText(v)
    ensures old(out.text) <= out.text
    decreases v, 0
  {
    match v {
      case Null => out.PushStr("null"); r := Ok(());
      case Bool(b) => out.PushStr(if b then "true" else "false"); r := Ok(());
      case Num(n) => r := WriteNumber(n, out);
      case Str(s) => WriteString(s, out); r := Ok(());
      case Array(items) => r := WriteItems(v, items, out);
      case Object(ms) => r := WriteMembers(v, ms, out);
    }
  }

  method WriteItems(ghost v: Value, items: seq<Value>, out: TextBuffer) returns (r: Result<(), CryptoError>)
    requires v == Array(items) && WellFormed(v)
    modifies out
    ensures r == if FloatFree(v) then Ok(()) else Err(Canonicalization)
    ensures r.Ok? ==> out.text == old(out.text) + CanonicalText(v)
    ensures old(out.text) <= out.text
    decreases items, 1
  {
    ghost var before, done := out.text, NormalItems(items);
    NormalFloatFree(v);
    out.Push('[');
    var i: nat := 0;
    while i < |items|
      invariant i <= |items| && HoldsItems(out.text, before, done, i)
    {
      ghost var was := out.text;
      if i > 0 {
        out.Push(',');
      }
      NormalItemAt(items, i);
      NormalFloatFree(items[i]);
      r := WriteValue(items[i], out);
      if r.Err? {
        return;
      }
      i := i + 1;
      GrowItems(was, out.text, before, done, i - 1, i);
    }
    assert done[..i] == done;
    out.Push(']');
    r := Ok(());
  }

  /** Member number `i` of an object: a separator unless it is the first, then key and value. */
  method WriteMember(i: nat, key: string, value: Value, out: TextBuffer) returns (r: Result<(), CryptoError>)
    requires WellFormed(value)
    modifies out
    ensures r == if FloatFree(value) then Ok(()) else Err(Canonicalization)
    ensures FloatFree(value) <==> FloatFree(Normal(value))
    ensures r.Ok? ==>
      out.text == old(out.text) + (if i > 0 then [','] else []) + RenderMember(Member(key, Normal(value)))
    ensures old(out.text) <= out.text
    decreases value, 1
  {
    NormalFloatFree(value);
    if i > 0 {
      out.Push(',');
    }
    ghost var before := out.text;
    WriteString(key, out);
    out.Push(':');
    r := WriteValue(value, out);
    if r.Ok? {
      Glue(before, Quote(key), Render(Normal(value)), out.text);
    }
  }

  method WriteMembers(ghost v: Value, ms: seq<Member>, out: TextBuffer) returns (r: Result<(), CryptoError>)
    requires v == Object(ms) && WellFormed(v)
    modifies out
    ensures r == if FloatFree(v) then Ok(()) else Err(Canonicalization)
    ensures r.Ok? ==> out.text == old(out.text) + CanonicalText(v)
    ensures old(out.text) <= out.text
    decreases ms, 2
  {
    SortedKeysPresent(ms);
    NormalFloatFree(v);
    var keys := SortKeys(Keys(ms));
    r := WriteInOrder(ms, keys, NormalMembers(ms, keys), out);
  }

  /** Look up and write the members named by `keys`, in that order. */
  method WriteInOrder(ms: seq<Member>, keys: seq<string>, ghost done: seq<Member>, out: TextBuffer)
    returns (r: Result<(), CryptoError>)
    requires AllPresent(ms, keys) && done == NormalMembers(ms, keys)
    requires forall i | 0 <= i < |ms| :: WellFormed(ms[i].value)
    modifies out
    ensures r == if MembersFloatFree(done) then Ok(()) else Err(Canonicalization)
    ensures r.Ok? ==> out.text == old(out.text) + (['{'] + RenderMembers(done) + ['}'])
    ensures old(out.text) <= out.text
    decreases ms, 1
  {
    ghost var before := out.text;
    out.Push('{');
    var i: nat := 0;
    while i < |keys|
      invariant i <= |keys| && HoldsMembers(out.text, before, done, i)
    {
      ghost var was := out.text;
      var found := Lookup(ms, keys[i]);
      NormalMemberAt(ms, keys, i);
      r := WriteMember(i, keys[i], found, out);
      if r.Err? {
        FloatMember(done, i);
        return;
      }
      i := i + 1;
      GrowMembers(was, out.text, before, done, i - 1, i);
    }
    AllMembersHeld(out.text, before, done);
    out.Push('}');
    r := Ok(());
  }

  /** `canonicalize`: a fresh buffer, the writer, and its bytes. */
  method CanonicalizeValue(v: Value) returns (r: Result<seq<byte>, CryptoError>)
    requires WellFormed(v)
    ensures r == Canonicalize(v)
  {
    var out := new TextBuffer();
    var written := WriteValue(v, out);
    if written.Err? {
      return Err(written.error);
    }
    assert out.text == CanonicalText(v);
    r := Ok(Utf8(out.text));
  }

  /** `canonical_message`: the canonical bytes, a zero, and the timestamp, pushed in turn. */
  method BuildMessage(v: Value, timestamp: I64) returns (r: Result<seq<byte>, CryptoError>)
    requires WellFormed(v)
    ensures r == CanonicalMessage(v, timestamp)
  {
    var canonical := CanonicalizeValue(v);
    if canonical.Err? {
      return Err(canonical.error);
    }
    var msg := canonical.value;
    msg := msg + [0];
    msg := msg + I64Bytes(timestamp);
    r := Ok(msg);
  }
}
