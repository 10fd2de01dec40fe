/**
  The credential vault: minting a payload-bound credential behind five probes,
  and verifying one. Randomness (the key seed, a stranger's seed, the bits to
  flip, the fresh id) is a parameter.
 */
module Vault {
  import opened Bytes
  import opened Wrappers
  import opened Json
  import opened Jcs
  import opened JcsWriter
  import opened Crypto
  import opened X402
  import Hex
  import Mountains

  const CREDENTIAL_TTL_SECS: I64 := 60
  const CHAOS_SIGNATURE_TRIALS: nat := 8

  datatype ChaosReport = ChaosReport(
    honestVerified: bool,
    tamperedPayloadRejected: bool,
    shiftedTimestampRejected: bool,
    signatureBitflipsRejected: nat,
    wrongKeyRejected: bool)
  {
    predicate AllClear() {
      && honestVerified
      && tamperedPayloadRejected
      && shiftedTimestampRejected
      && signatureBitflipsRejected == CHAOS_SIGNATURE_TRIALS
      && wrongKeyRejected
    }
  }

  datatype EphemeralCredential = EphemeralCredential(
    credentialId: string,
    intentId: string,
    receiptId: string,
    publicKeyHex: string,
    signatureHex: string,
    payloadDigestHex: string,
    issuedAt: I64,
    expiresAt: I64,
    chaos: ChaosReport)

  datatype VaultError =
    | Canonicalization
    | Chaos(report: ChaosReport)
    | OutsideValidity(issuedAt: I64, expiresAt: I64, now: I64)
    | MalformedTtl
    | DigestMismatch
    | Malformed
    | SignatureInvalid

  /** A bit of a 64-byte signature. */
  type BitIndex = b: nat | b < 512

  /** One bit for each signature trial. */
  type Flips = f: seq<BitIndex> | |f| == 8 witness [0, 0, 0, 0, 0, 0, 0, 0]

  /** What the mint draws from the operating system. */
  datatype Entropy = Entropy(seed: Digest, stranger: Digest, flips: Flips, credentialId: string)

  // ----- The probes

  /** `x ^ (1 << k)`. */
  function Toggle(x: nat, k: nat): nat
    decreases k
  {
    if k > 0 then x % 2 + 2 * Toggle(x / 2, k - 1)
    else if x % 2 == 0 then x + 1
    else x - 1
  }

  lemma TwoParts(low: nat, high: nat, x: nat)
    requires low < 2 && x == low + 2 * high
    ensures x % 2 == low && x / 2 == high
  {
  }

  lemma {:induction false} ToggleTwice(x: nat, k: nat)
    ensures Toggle(x, k) != x && Toggle(Toggle(x, k), k) == x
    decreases k
  {
    if k > 0 {
      ToggleTwice(x / 2, k - 1);
      TwoParts(x % 2, Toggle(x / 2, k - 1), Toggle(x, k));
      TwoParts(x % 2, x / 2, x);
    }
  }

  /** Toggling a bit below the n-th stays below 2^n. */
  lemma {:induction false} ToggleFits(x: nat, k: nat, n: nat)
    requires k < n && x < Mountains.Pow2(n)
    ensures Toggle(x, k) < Mountains.Pow2(n)
    decreases n
  {
    Mountains.Pow2Even(n);
    if k > 0 {
      ToggleFits(x / 2, k - 1, n - 1);
    }
  }

  function FlipIn(b: byte, k: nat): (r: byte)
    requires k < 8
    ensures r as int == Toggle(b as int, k)
  {
    assert Mountains.Pow2(8) == 256;
    ToggleFits(b as int, k, 8);
    Toggle(b as int, k) as byte
  }

  /** `sig[bit / 8] ^= 1 << (bit % 8)`. */
  function FlipBit(sig: Signature, bit: BitIndex): Signature {
    sig[bit / 8 := FlipIn(sig[bit / 8], bit % 8)]
  }

  lemma UpdateTwice<T>(s: seq<T>, i: nat, x: T)
    requires i < |s| && x != s[i]
    ensures s[i := x] != s && s[i := x][i := s[i]] == s
  {
    assert s[i := x][i] == x;
  }

  /** The flip changes the signature, and flipping the same bit again undoes it. */
  lemma FlipBitTwice(sig: Signature, bit: BitIndex)
    ensures FlipBit(sig, bit) != sig && FlipBit(FlipBit(sig, bit), bit) == sig
  {
    var i: nat, k: nat := bit / 8, bit % 8;
    ToggleTwice(sig[i] as int, k);
    UpdateTwice(sig, i, FlipIn(sig[i], k));
  }

  const CHAOS_KEY: string := "__chaos__"
  const MARK: Value := Num(PosInt(1))

  /** `Map::insert`: replace the value under the key, or add it. */
  function InsertMember(ms: seq<Member>, key: string, value: Value): seq<Member> {
    if HasKey(ms, key) then ms[IndexOf(ms, key) := Member(key, value)] else ms + [Member(key, value)]
  }

  /** The mutated payload of the second probe. */
  function Tampered(payload: Value): Value {
    match payload
    case Object(ms) => Object(InsertMember(ms, CHAOS_KEY, MARK))
    case _ => Object([Member(CHAOS_KEY, payload)])
  }

  lemma TamperedWellFormed(payload: Value)
    requires WellFormed(payload)
    ensures WellFormed(Tampered(payload))
  {
    if payload.Object? {
      var ms := payload.members;
      assert WellFormed(MARK);
      if !HasKey(ms, CHAOS_KEY) {
        assert forall i | 0 <= i < |ms| :: ms[i].key != CHAOS_KEY;
      }
    }
  }

  /** How many of the flipped signatures are refused. */
  function FlipsRejected(s: Scheme, key: Key, payload: Value, timestamp: I64, sig: Signature, flips: seq<BitIndex>): nat
    requires WellFormed(payload)
  {
    if flips == [] then 0
    else
      FlipsRejected(s, key, payload, timestamp, sig, flips[..|flips| - 1])
      + if VerifyPayload(s, key, payload, timestamp, FlipBit(sig, flips[|flips| - 1])).Err? then 1 else 0
  }

  function ChaosTest(s: Scheme, key: Key, payload: Value, timestamp: I64, sig: Signature, e: Entropy): ChaosReport
    requires WellFormed(payload)
  {
    TamperedWellFormed(payload);
    var msg := match CanonicalMessage(payload, timestamp) case Ok(m) => m case Err(_) => [];
    ChaosReport(
      VerifyPayload(s, key, payload, timestamp, sig).Ok?,
      VerifyPayload(s, key, Tampered(payload), timestamp, sig).Err?,
      && VerifyPayload(s, key, payload, WrapAdd(timestamp, 1), sig).Err?
      && VerifyPayload(s, key, payload, WrapAdd(timestamp, -1), sig).Err?,
      FlipsRejected(s, key, payload, timestamp, sig, e.flips),
      !s.verify(s.publicKey(e.stranger), msg, sig))
  }

  lemma NextFlip(s: Scheme, key: Key, payload: Value, timestamp: I64, sig: Signature, flips: seq<BitIndex>, t: nat)
    requires WellFormed(payload) && t < |flips|
    ensures FlipsRejected(s, key, payload, timestamp, sig, flips[..t + 1])
         == FlipsRejected(s, key, payload, timestamp, sig, flips[..t])
            + if VerifyPayload(s, key, payload, timestamp, FlipBit(sig, flips[t])).Err? then 1 else 0
  {
    assert flips[..t + 1][..t] == flips[..t];
  }

  /** The fourth probe, counting in a loop over a copy of the signature. */
  method CountFlips(s: Scheme, key: Key, payload: Value, timestamp: I64, sig: Signature, flips: Flips)
    returns (rejected: nat)
    requires WellFormed(payload)
    ensures rejected == FlipsRejected(s, key, payload, timestamp, sig, flips)
  {
    rejected := 0;
    var t: nat := 0;
    while t < CHAOS_SIGNATURE_TRIALS
      invariant t <= CHAOS_SIGNATURE_TRIALS
      invariant rejected == FlipsRejected(s, key, payload, timestamp, sig, flips[..t])
    {
      NextFlip(s, key, payload, timestamp, sig, flips, t);
      var mutated := FlipBit(sig, flips[t]);
      if VerifyPayload(s, key, payload, timestamp, mutated).Err? {
        rejected := rejected + 1;
      }
      t := t + 1;
    }
    assert flips[..t] == flips;
  }

  /** The probes in the order they are run. */
  method RunChaosTest(s: Scheme, key: Key, payload: Value, timestamp: I64, sig: Signature, e: Entropy)
    returns (report: ChaosReport)
    requires WellFormed(payload)
    ensures report == ChaosTest(s, key, payload, timestamp, sig, e)
  {
    TamperedWellFormed(payload);
    var honest := VerifyPayload(s, key, payload, timestamp, sig).Ok?;
    var tampered := VerifyPayload(s, key, Tampered(payload), timestamp, sig).Err?;
    var shifted :=
      && VerifyPayload(s, key, payload, WrapAdd(timestamp, 1), sig).Err?
      && VerifyPayload(s, key, payload, WrapAdd(timestamp, -1), sig).Err?;
    var rejected := CountFlips(s, key, payload, timestamp, sig, e.flips);
    var msg := match CanonicalMessage(payload, timestamp) case Ok(m) => m case Err(_) => [];
    var wrong := !s.verify(s.publicKey(e.stranger), msg, sig);
    report := ChaosReport(honest, tampered, shifted, rejected, wrong);
  }

  // ----- Mint and verify

  function Mint(s: Scheme, payload: Value, receipt: PaymentReceipt, now: I64, e: Entropy)
    : Result<EphemeralCredential, VaultError>
    requires WellFormed(payload)
  {
    match Canonicalize(payload)
    case Err(_) => Err(VaultError.Canonicalization)
    case Ok(canonical) =>
      var digest := s.hash(canonical);
      var key := s.publicKey(e.seed);
      match SignPayload(s, e.seed, payload, now)
      case Err(_) => Err(VaultError.Canonicalization)
      case Ok(sig) =>
        var chaos := ChaosTest(s, key, payload, now, sig, e);
        if !chaos.AllClear() then Err(Chaos(chaos))
        else Ok(EphemeralCredential(
          e.credentialId, receipt.intentId, receipt.receiptId,
          Hex.Encode(key), Hex.Encode(sig), Hex.Encode(digest),
          now, WrapAdd(now, CREDENTIAL_TTL_SECS), chaos))
  }

  function DecodeFixed(text: string, n: nat): (r: Result<seq<byte>, VaultError>)
    ensures r.Ok? <==> Hex.Decode(text).Some? && |text| == 2 * n
    ensures r.Ok? ==> Hex.Decode(text) == Some(r.value) && |r.value| == n
    ensures r.Err? ==> r.error == Malformed
  {
    match Hex.Decode(text)
    case None => Err(Malformed)
    case Some(bs) => if |bs| == n then Ok(bs) else Err(Malformed)
  }

  function Verify(s: Scheme, credential: EphemeralCredential, payload: Value, now: I64): Result<(), VaultError>
    requires WellFormed(payload)
  {
    if credential.expiresAt != WrapAdd(credential.issuedAt, CREDENTIAL_TTL_SECS) then Err(MalformedTtl)
    else if now < credential.issuedAt || now >= credential.expiresAt then
      Err(OutsideValidity(credential.issuedAt, credential.expiresAt, now))
    else
      match Canonicalize(payload)
      case Err(_) => Err(VaultError.Canonicalization)
      case Ok(canonical) =>
        if Hex.Encode(s.hash(canonical)) != credential.payloadDigestHex then Err(DigestMismatch)
        else
          match DecodeFixed(credential.publicKeyHex, 32)
          case Err(e) => Err(e)
          case Ok(key) =>
            match DecodeFixed(credential.signatureHex, 64)
            case Err(e) => Err(e)
            case Ok(sig) =>
              match VerifyPayload(s, key, payload, credential.issuedAt, sig)
              case Ok(_) => Ok(())
              case Err(_) => Err(VaultError.SignatureInvalid)
  }

  // ----- What a minted credential is worth

  lemma DecodeEncoded(bs: seq<byte>)
    ensures DecodeFixed(Hex.Encode(bs), |bs|) == Ok(bs)
  {
    Hex.DecodeEncode(bs);
  }

  /**
    A minted credential verifies for its payload at `u` exactly when
    now <= u < now + 60 and now + 60 still fits an `i64`. No property of the
    signature scheme is used: the first probe has already seen this signature verify.
   */
  lemma MintedCredentialWindow(s: Scheme, payload: Value, receipt: PaymentReceipt, now: I64, e: Entropy, u: I64)
    requires WellFormed(payload)
    requires Mint(s, payload, receipt, now, e).Ok?
    ensures Verify(s, Mint(s, payload, receipt, now, e).value, payload, u).Ok?
       <==> now <= u < now + CREDENTIAL_TTL_SECS < TWO_TO_THE_63
  {
    DecodeEncoded(s.publicKey(e.seed));
    DecodeEncoded(SignPayload(s, e.seed, payload, now).value);
  }

  /** Whether a payload already carries the second probe's own marker. */
  predicate Marked(payload: Value) {
    payload.Object? && HasKey(payload.members, CHAOS_KEY) && Lookup(payload.members, CHAOS_KEY) == MARK
  }

  lemma TamperedFloatFree(payload: Value)
    requires FloatFree(payload)
    ensures FloatFree(Tampered(payload))
  {
    assert FloatFree(MARK);
  }

  lemma MarkedIsUntouched(ms: seq<Member>)
    requires WellFormed(Object(ms)) && Marked(Object(ms))
    ensures Tampered(Object(ms)) == Object(ms)
  {
    var i := IndexOf(ms, CHAOS_KEY);
    assert ms[i := Member(CHAOS_KEY, MARK)] == ms;
  }

  lemma UnmarkedIsChanged(ms: seq<Member>)
    requires WellFormed(Object(ms)) && HasKey(ms, CHAOS_KEY) && Lookup(ms, CHAOS_KEY) != MARK
    ensures !Same(Object(ms), Tampered(Object(ms)))
  {
    var i := IndexOf(ms, CHAOS_KEY);
    var ns := ms[i := Member(CHAOS_KEY, MARK)];
    assert Tampered(Object(ms)) == Object(ns);
    TamperedWellFormed(Object(ms));
    IndexOfOwnKey(ns, i);
    assert !Same(ms[i].value, ns[IndexOf(ns, ms[i].key)].value);
  }

  /** A payload that carries the marker is never minted: to the second probe it looks untampered. */
  lemma MarkedPayloadIsNeverMinted(s: Scheme, payload: Value, receipt: PaymentReceipt, now: I64, e: Entropy)
    requires WellFormed(payload) && Marked(payload)
    ensures Mint(s, payload, receipt, now, e).Err?
  {
    MarkedIsUntouched(payload.members);
  }

  /** The second probe changes every payload but one that carries its marker: there the message is the same. */
  lemma TamperingChangesMessage(payload: Value, timestamp: I64)
    requires WellFormed(payload) && FloatFree(payload)
    ensures WellFormed(Tampered(payload)) && FloatFree(Tampered(payload))
    ensures CanonicalMessage(payload, timestamp) == CanonicalMessage(Tampered(payload), timestamp) <==> Marked(payload)
  {
    TamperedWellFormed(payload);
    TamperedFloatFree(payload);
    MessageDecides(payload, timestamp, Tampered(payload), timestamp);
    if Marked(payload) {
      MarkedIsUntouched(payload.members);
    } else if payload.Object? && HasKey(payload.members, CHAOS_KEY) {
      UnmarkedIsChanged(payload.members);
    }
  }

  // ----- Which payloads can be minted at all

  lemma {:induction false} AllFlipsRejected(s: Scheme, key: Key, payload: Value, timestamp: I64, sig: Signature,
                                            flips: seq<BitIndex>)
    requires WellFormed(payload)
    requires forall msg: seq<byte>, other: Signature | other != sig :: !s.verify(key, msg, other)
    ensures FlipsRejected(s, key, payload, timestamp, sig, flips) == |flips|
  {
    if flips != [] {
      AllFlipsRejected(s, key, payload, timestamp, sig, flips[..|flips| - 1]);
      FlipBitTwice(sig, flips[|flips| - 1]);
    }
  }

  /**
    Nothing has been forged for these draws: under the mint's key only the honest
    message and signature verify, and the stranger's key refuses them.
   */
  ghost predicate NothingForged(s: Scheme, msg: seq<byte>, e: Entropy) {
    && (forall m: seq<byte>, t: Signature ::
          s.verify(s.publicKey(e.seed), m, t) <==> m == msg && t == s.sign(e.seed, msg))
    && !s.verify(s.publicKey(e.stranger), msg, s.sign(e.seed, msg))
  }

  /** With nothing forged, no other message verifies under the signature. */
  lemma OtherMessageRefused(s: Scheme, msg: seq<byte>, e: Entropy, v: Value, t: I64)
    requires NothingForged(s, msg, e) && WellFormed(v) && CanonicalMessage(v, t) != Ok(msg)
    ensures VerifyPayload(s, s.publicKey(e.seed), v, t, s.sign(e.seed, msg)).Err?
  {
  }

  lemma ProbesPass(s: Scheme, payload: Value, now: I64, e: Entropy, msg: seq<byte>)
    requires WellFormed(payload) && FloatFree(payload) && !Marked(payload)
    requires CanonicalMessage(payload, now) == Ok(msg) && NothingForged(s, msg, e)
    ensures ChaosTest(s, s.publicKey(e.seed), payload, now, s.sign(e.seed, msg), e).AllClear()
  {
    TamperingChangesMessage(payload, now);
    MessageDecides(payload, now, payload, WrapAdd(now, 1));
    MessageDecides(payload, now, payload, WrapAdd(now, -1));
    OtherMessageRefused(s, msg, e, Tampered(payload), now);
    OtherMessageRefused(s, msg, e, payload, WrapAdd(now, 1));
    OtherMessageRefused(s, msg, e, payload, WrapAdd(now, -1));
    AllFlipsRejected(s, s.publicKey(e.seed), payload, now, s.sign(e.seed, msg), e.flips);
  }

  /** Under any scheme with nothing forged, a payload without floats is minted exactly when it carries no marker. */
  lemma MintAcceptsExactly(s: Scheme, payload: Value, receipt: PaymentReceipt, now: I64, e: Entropy)
    requires WellFormed(payload) && FloatFree(payload)
    requires NothingForged(s, CanonicalMessage(payload, now).value, e)
    ensures Mint(s, payload, receipt, now, e).Ok? <==> !Marked(payload)
  {
    if Marked(payload) {
      MarkedPayloadIsNeverMinted(s, payload, receipt, now, e);
    } else {
      ProbesPass(s, payload, now, e, CanonicalMessage(payload, now).value);
    }
  }

  /** A scheme with one key, one signature and one message it signs. */
  function OneMessageScheme(seed: Digest, msg: seq<byte>): Scheme {
    var sig: Signature := seq(64, _ => 0);
    Scheme(_ => ZERO_DIGEST, d => d, (_, _) => sig, (k, m, t) => k == seed && m == msg && t == sig)
  }

  /** Some vault mints a credential for a payload exactly when it has no float and no marker. */
  lemma MintableExactly(payload: Value, receipt: PaymentReceipt, now: I64)
    requires WellFormed(payload)
    ensures (exists s: Scheme, e: Entropy :: Mint(s, payload, receipt, now, e).Ok?)
       <==> FloatFree(payload) && !Marked(payload)
  {
    if FloatFree(payload) && !Marked(payload) {
      var e := Entropy(seq(32, _ => 0), seq(32, _ => 1), [0, 0, 0, 0, 0, 0, 0, 0], "");
      assert e.seed[0] != e.stranger[0];
      var s := OneMessageScheme(e.seed, CanonicalMessage(payload, now).value);
      MintAcceptsExactly(s, payload, receipt, now, e);
      assert Mint(s, payload, receipt, now, e).Ok?;
    }
    forall s: Scheme, e: Entropy | Marked(payload) ensures Mint(s, payload, receipt, now, e).Err? {
      MarkedPayloadIsNeverMinted(s, payload, receipt, now, e);
    }
  }

  lemma MintNamesItsEntropy(s: Scheme, payload: Value, receipt: PaymentReceipt, now: I64, e: Entropy)
    requires WellFormed(payload) && Mint(s, payload, receipt, now, e).Ok?
    ensures Mint(s, payload, receipt, now, e).value.credentialId == e.credentialId
  {
  }

  // ----- The mint as it runs

  /**
    `mint`, over the writer's own bytes and the probes as they run. What it
    releases names the receipt and verifies for its payload during exactly a minute.
   */
  method MintCredential(s: Scheme, payload: Value, receipt: PaymentReceipt, now: I64, e: Entropy)
    returns (r: Result<EphemeralCredential, VaultError>)
    requires WellFormed(payload)
    ensures r == Mint(s, payload, receipt, now, e)
    ensures r.Ok? ==>
      && r.value.intentId == receipt.intentId && r.value.receiptId == receipt.receiptId
      && forall u: I64 :: Verify(s, r.value, payload, u).Ok? <==> now <= u < now + CREDENTIAL_TTL_SECS < TWO_TO_THE_63
  {
    var canonical := CanonicalizeValue(payload);
    if canonical.Err? {
      return Err(VaultError.Canonicalization);
    }
    var digest := s.hash(canonical.value);
    var key := s.publicKey(e.seed);
    var msg := BuildMessage(payload, now);
    if msg.Err? {
      return Err(VaultError.Canonicalization);
    }
    var sig := s.sign(e.seed, msg.value);
    var chaos := RunChaosTest(s, key, payload, now, sig, e);
    if !chaos.AllClear() {
      return Err(Chaos(chaos));
    }
    r := Ok(EphemeralCredential(
              e.credentialId, receipt.intentId, receipt.receiptId,
              Hex.Encode(key), Hex.Encode(sig), Hex.Encode(digest),
              now, WrapAdd(now, CREDENTIAL_TTL_SECS), chaos));
    forall u: I64
      ensures Verify(s, r.value, payload, u).Ok? <==> now <= u < now + CREDENTIAL_TTL_SECS < TWO_TO_THE_63
    {
      MintedCredentialWindow(s, payload, receipt, now, e, u);
    }
  }
}
