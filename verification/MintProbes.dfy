/**
  What the probes of the mint test, said without them: which signature checks the
  scheme must refuse for a credential to be released, what the probes alter, and
  what the released credential and the error report carry.
 */
module MintProbes {
  import opened Bytes
  import opened Wrappers
  import opened Json
  import opened Jcs
  import opened Crypto
  import opened X402
  import opened Vault
  import Hex
  import Mountains

  // ----- What the probes alter

  /** Toggling bit k adds 2^k where the bit is clear and takes it away where it is set. */
  lemma {:induction false} ToggleExactly(x: nat, k: nat)
    ensures Toggle(x, k) == if x / Mountains.Pow2(k) % 2 == 0 then x + Mountains.Pow2(k) else x - Mountains.Pow2(k)
    decreases k
  {
    if k > 0 {
      ToggleExactly(x / 2, k - 1);
      DivideTwice(x, 2, Mountains.Pow2(k - 1));
      assert x == x % 2 + 2 * (x / 2);
    }
  }

  /** One bit of one byte changes; all other bytes stay. */
  lemma FlipBitExactly(sig: Signature, bit: BitIndex, i: nat)
    requires i < 64
    ensures var before, after, weight := sig[i] as int, FlipBit(sig, bit)[i] as int, Mountains.Pow2(bit % 8);
      after == if i != bit / 8 then before else if before / weight % 2 == 0 then before + weight else before - weight
  {
    ToggleExactly(sig[i] as int, bit % 8);
  }

  lemma InsertedMembers(ms: seq<Member>, key: string, value: Value)
    requires DistinctKeys(ms)
    ensures forall m: Member :: m in InsertMember(ms, key, value) <==>
      m == Member(key, value) || (m in ms && m.key != key)
  {
    var ns := InsertMember(ms, key, value);
    if HasKey(ms, key) {
      var i := IndexOf(ms, key);
      assert ns[i] == Member(key, value);
      forall m: Member | m in ms && m.key != key ensures m in ns {
        var j :| 0 <= j < |ms| && ms[j] == m;
        assert ns[j] == m;
      }
      forall m: Member | m in ns && m != Member(key, value) ensures m in ms && m.key != key {
        var j :| 0 <= j < |ns| && ns[j] == m;
        assert j != i && ms[j] == m;
      }
    } else {
      assert forall j | 0 <= j < |ms| :: ms[j].key != key;
    }
  }

  /** An object keeps its other members and gets the marker; any other value becomes the marker's value. */
  lemma TamperedExactly(payload: Value)
    requires WellFormed(payload)
    ensures payload.Object? ==> Tampered(payload).Object? && forall m: Member ::
      m in Tampered(payload).members <==>
        m == Member("__chaos__", Num(PosInt(1))) || (m in payload.members && m.key != "__chaos__")
    ensures !payload.Object? ==> Tampered(payload) == Object([Member("__chaos__", payload)])
  {
    if payload.Object? {
      InsertedMembers(payload.members, "__chaos__", Num(PosInt(1)));
    }
  }

  // ----- What the report says

  /** Trial i: the signature with this bit flipped is refused. */
  predicate Refused(s: Scheme, key: Key, msg: seq<byte>, sig: Signature, flips: seq<BitIndex>, i: nat) {
    i < |flips| && !s.verify(key, msg, FlipBit(sig, flips[i]))
  }

  function RefusedTrials(s: Scheme, key: Key, msg: seq<byte>, sig: Signature, flips: seq<BitIndex>): set<nat> {
    set i: nat | i < |flips| && Refused(s, key, msg, sig, flips, i)
  }

  lemma OneTrialMore(s: Scheme, key: Key, msg: seq<byte>, sig: Signature, flips: seq<BitIndex>, flip: BitIndex,
                     more: seq<BitIndex>)
    requires more == flips + [flip]
    ensures |RefusedTrials(s, key, msg, sig, more)|
         == |RefusedTrials(s, key, msg, sig, flips)| + if s.verify(key, msg, FlipBit(sig, flip)) then 0 else 1
  {
    var n, before, after := |flips|, RefusedTrials(s, key, msg, sig, flips), RefusedTrials(s, key, msg, sig, more);
    assert forall i: nat | i < n :: Refused(s, key, msg, sig, more, i) == Refused(s, key, msg, sig, flips, i);
    assert Refused(s, key, msg, sig, more, n) == !s.verify(key, msg, FlipBit(sig, flip));
    if s.verify(key, msg, FlipBit(sig, flip)) {
      assert after == before;
    } else {
      assert after == before + {n};
    }
  }

  lemma {:induction false} FlipsCounted(s: Scheme, key: Key, payload: Value, now: I64, sig: Signature,
                                        flips: seq<BitIndex>, msg: seq<byte>)
    requires WellFormed(payload) && CanonicalMessage(payload, now) == Ok(msg)
    ensures FlipsRejected(s, key, payload, now, sig, flips) == |RefusedTrials(s, key, msg, sig, flips)|
    decreases |flips|
  {
    if flips != [] {
      var n: nat := |flips| - 1;
      FlipsCounted(s, key, payload, now, sig, flips[..n], msg);
      OneTrialMore(s, key, msg, sig, flips[..n], flips[n], flips);
    }
  }

  /** The messages of the probes: the payload's own, the tampered one's, and those a second off. */
  function MessageOf(payload: Value, timestamp: I64): seq<byte>
    requires WellFormed(payload) && FloatFree(payload)
  {
    Frame(Canonicalize(payload).value, timestamp)
  }

  /** The report of a payload without floats, check by check. */
  lemma ReportExactly(s: Scheme, key: Key, payload: Value, now: I64, sig: Signature, e: Entropy)
    requires WellFormed(payload) && FloatFree(payload)
    ensures WellFormed(Tampered(payload)) && FloatFree(Tampered(payload))
    ensures ChaosTest(s, key, payload, now, sig, e)
         == ChaosReport(
              s.verify(key, MessageOf(payload, now), sig),
              !s.verify(key, MessageOf(Tampered(payload), now), sig),
              && !s.verify(key, MessageOf(payload, WrapAdd(now, 1)), sig)
              && !s.verify(key, MessageOf(payload, WrapAdd(now, -1)), sig),
              |RefusedTrials(s, key, MessageOf(payload, now), sig, e.flips)|,
              !s.verify(s.publicKey(e.stranger), MessageOf(payload, now), sig))
  {
    TamperingChangesMessage(payload, now);
    FlipsCounted(s, key, payload, now, sig, e.flips, MessageOf(payload, now));
  }

  lemma AllOfEight(trials: set<nat>)
    requires forall i | i in trials :: i < 8
    ensures |trials| == 8 <==> forall i: nat | i < 8 :: i in trials
  {
    var all: set<nat> := {0, 1, 2, 3, 4, 5, 6, 7};
    assert |all| == 8 && trials <= all;
    if |trials| == 8 {
      SubsetOfEqualSize(trials, all);
    } else {
      assert trials != all;
    }
  }

  lemma AllRefused(s: Scheme, key: Key, msg: seq<byte>, sig: Signature, flips: Flips)
    ensures |RefusedTrials(s, key, msg, sig, flips)| == 8
       <==> forall i: nat | i < 8 :: !s.verify(key, msg, FlipBit(sig, flips[i]))
  {
    var trials := RefusedTrials(s, key, msg, sig, flips);
    AllOfEight(trials);
    forall i: nat | i < 8 ensures i in trials <==> !s.verify(key, msg, FlipBit(sig, flips[i])) {
      assert Refused(s, key, msg, sig, flips, i) == !s.verify(key, msg, FlipBit(sig, flips[i]));
    }
  }

  // ----- What the mint releases

  /** The honest triple verifies, and the five kinds of altered triples do not. */
  ghost predicate Withstands(s: Scheme, payload: Value, now: I64, e: Entropy)
    requires WellFormed(payload) && FloatFree(payload) && WellFormed(Tampered(payload)) && FloatFree(Tampered(payload))
  {
    var key, msg := s.publicKey(e.seed), MessageOf(payload, now);
    var sig := s.sign(e.seed, msg);
    && s.verify(key, msg, sig)
    && !s.verify(key, MessageOf(Tampered(payload), now), sig)
    && !s.verify(key, MessageOf(payload, WrapAdd(now, 1)), sig)
    && !s.verify(key, MessageOf(payload, WrapAdd(now, -1)), sig)
    && (forall i: nat | i < 8 :: !s.verify(key, msg, FlipBit(sig, e.flips[i])))
    && !s.verify(s.publicKey(e.stranger), msg, sig)
  }

  /** A clean report is exactly what withstanding every attack gives. */
  lemma ClearExactly(s: Scheme, payload: Value, now: I64, e: Entropy, report: ChaosReport)
    requires WellFormed(payload) && FloatFree(payload)
    requires report == ChaosTest(s, s.publicKey(e.seed), payload, now, s.sign(e.seed, MessageOf(payload, now)), e)
    ensures WellFormed(Tampered(payload)) && FloatFree(Tampered(payload))
    ensures report.AllClear() == Withstands(s, payload, now, e)
    ensures report.AllClear() ==> report == ChaosReport(true, true, true, 8, true)
  {
    var key, msg := s.publicKey(e.seed), MessageOf(payload, now);
    var sig := s.sign(e.seed, msg);
    ReportExactly(s, key, payload, now, sig, e);
    AllRefused(s, key, msg, sig, e.flips);
  }

  /**
    The mint refuses a float for its canonical form. Any other payload it mints
    exactly when the signature withstands every attack; what it releases carries
    the receipt's ids, the key, signature and digest as text, the minute, and the
    clean report. Otherwise the error carries the report.
   */
  lemma MintExactly(s: Scheme, payload: Value, receipt: PaymentReceipt, now: I64, e: Entropy)
    requires WellFormed(payload)
    ensures !FloatFree(payload) ==> Mint(s, payload, receipt, now, e) == Err(VaultError.Canonicalization)
    ensures FloatFree(payload) ==>
      WellFormed(Tampered(payload)) && FloatFree(Tampered(payload))
      && (Mint(s, payload, receipt, now, e).Ok? == Withstands(s, payload, now, e))
    ensures Mint(s, payload, receipt, now, e).Ok? ==>
      Mint(s, payload, receipt, now, e).value == EphemeralCredential(
        e.credentialId, receipt.intentId, receipt.receiptId,
        Hex.Encode(s.publicKey(e.seed)), Hex.Encode(s.sign(e.seed, MessageOf(payload, now))),
        Hex.Encode(s.hash(Canonicalize(payload).value)),
        now, WrapAdd(now, 60), ChaosReport(true, true, true, 8, true))
    ensures FloatFree(payload) && Mint(s, payload, receipt, now, e).Err? ==>
      Mint(s, payload, receipt, now, e).error
      == Chaos(ChaosTest(s, s.publicKey(e.seed), payload, now, s.sign(e.seed, MessageOf(payload, now)), e))
  {
    if FloatFree(payload) {
      var sig := s.sign(e.seed, MessageOf(payload, now));
      ClearExactly(s, payload, now, e, ChaosTest(s, s.publicKey(e.seed), payload, now, sig, e));
    }
  }
}
