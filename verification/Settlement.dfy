/**
  The settlement envelope and the reference verifier behind it, written apart
  from the vault's own verifier: other order of checks, other error names, its
  own reconstruction of the signed message.
 */
module Settlement {
  import opened Bytes
  import opened Wrappers
  import opened Json
  import opened Jcs
  import opened JcsWriter
  import opened Crypto
  import opened X402
  import opened Intents
  import Hex
  import Vault

  datatype SettlementParams = SettlementParams(
    intent: Value,
    payloadDigestHex: string,
    signerPublicKeyHex: string,
    signatureHex: string,
    issuedAt: I64,
    expiresAt: I64,
    receiptId: string,
    feeMicroUsdc: U64)

  datatype OneShotEnvelope = OneShotEnvelope(idempotencyKey: string, params: SettlementParams)

  datatype HandoffVerifyError =
    | MalformedTtl
    | OutsideValidity(issuedAt: I64, expiresAt: I64, now: I64)
    | DigestMismatch
    | SignatureInvalid
    | Malformed

  /** `OneShotEnvelope::package`. */
  function Package(payload: Value, credential: Vault.EphemeralCredential, receipt: PaymentReceipt): OneShotEnvelope {
    OneShotEnvelope(
      credential.credentialId,
      SettlementParams(
        payload,
        credential.payloadDigestHex,
        credential.publicKeyHex,
        credential.signatureHex,
        credential.issuedAt,
        credential.expiresAt,
        receipt.receiptId,
        receipt.amountMicroUsdc))
  }

  /** `verify_handoff`, over raw bytes. */
  function VerifyHandoff(s: Scheme, key: Key, sig: Signature, canonical: seq<byte>,
                         issuedAt: I64, expiresAt: I64, now: I64): Result<(), HandoffVerifyError> {
    if expiresAt != WrapAdd(issuedAt, Vault.CREDENTIAL_TTL_SECS) then Err(MalformedTtl)
    else if now < issuedAt || now >= expiresAt then Err(OutsideValidity(issuedAt, expiresAt, now))
    else if s.verify(key, Frame(canonical, issuedAt), sig) then Ok(())
    else Err(HandoffVerifyError.SignatureInvalid)
  }

  /** The same, pushing the message bytes one part at a time. */
  method RunVerifyHandoff(s: Scheme, key: Key, sig: Signature, canonical: seq<byte>,
                          issuedAt: I64, expiresAt: I64, now: I64) returns (r: Result<(), HandoffVerifyError>)
    ensures r == VerifyHandoff(s, key, sig, canonical, issuedAt, expiresAt, now)
  {
    if expiresAt != WrapAdd(issuedAt, Vault.CREDENTIAL_TTL_SECS) {
      return Err(MalformedTtl);
    }
    if now < issuedAt || now >= expiresAt {
      return Err(OutsideValidity(issuedAt, expiresAt, now));
    }
    var msg: seq<byte> := [];
    msg := msg + canonical;
    msg := msg + [0];
    msg := msg + I64Bytes(issuedAt);
    assert msg == Frame(canonical, issuedAt);
    if s.verify(key, msg, sig) {
      r := Ok(());
    } else {
      r := Err(HandoffVerifyError.SignatureInvalid);
    }
  }

  function DecodeHexArray(text: string, n: nat): (r: Result<seq<byte>, HandoffVerifyError>)
    ensures r.Ok? <==> Hex.Decode(text).Some? && |text| == 2 * n
    ensures r.Ok? ==> Hex.Decode(text) == Some(r.value) && |r.value| == n
    ensures r.Err? ==> r.error == Malformed
  {
    match Hex.Decode(text)
    case None => Err(Malformed)
    case Some(bs) => if |bs| == n then Ok(bs) else Err(Malformed)
  }

  /** `SettlementParams::verify`. */
  function Verify(s: Scheme, p: SettlementParams, now: I64): Result<(), HandoffVerifyError>
    requires WellFormed(p.intent)
  {
    match DecodeHexArray(p.signerPublicKeyHex, 32)
    case Err(e) => Err(e)
    case Ok(key) =>
      match DecodeHexArray(p.signatureHex, 64)
      case Err(e) => Err(e)
      case Ok(sig) =>
        match Canonicalize(p.intent)
        case Err(_) => Err(Malformed)
        case Ok(canonical) =>
          if Hex.Encode(s.hash(canonical)) != p.payloadDigestHex then Err(DigestMismatch)
          else VerifyHandoff(s, key, sig, canonical, p.issuedAt, p.expiresAt, now)
  }

  /** Everything an accepted envelope has: a float-free intent, its digest, a signature over it, and its minute. */
  predicate Acceptable(s: Scheme, p: SettlementParams, now: I64)
    requires WellFormed(p.intent)
  {
    && FloatFree(p.intent)
    && p.payloadDigestHex == Hex.Encode(s.hash(Canonicalize(p.intent).value))
    && DecodeHexArray(p.signerPublicKeyHex, 32).Ok? && DecodeHexArray(p.signatureHex, 64).Ok?
    && s.verify(DecodeHexArray(p.signerPublicKeyHex, 32).value, Frame(Canonicalize(p.intent).value, p.issuedAt),
                DecodeHexArray(p.signatureHex, 64).value)
    && p.expiresAt == WrapAdd(p.issuedAt, Vault.CREDENTIAL_TTL_SECS)
    && p.issuedAt <= now < p.expiresAt
  }

  /** `SettlementParams::verify` as it runs: accepted exactly when all of it is in order. */
  method VerifyEnvelope(s: Scheme, p: SettlementParams, now: I64) returns (r: Result<(), HandoffVerifyError>)
    requires WellFormed(p.intent)
    ensures r == Verify(s, p, now)
    ensures r.Ok? <==> Acceptable(s, p, now)
  {
    var key := DecodeHexArray(p.signerPublicKeyHex, 32);
    if key.Err? {
      return Err(key.error);
    }
    var sig := DecodeHexArray(p.signatureHex, 64);
    if sig.Err? {
      return Err(sig.error);
    }
    var canonical := CanonicalizeValue(p.intent);
    if canonical.Err? {
      return Err(Malformed);
    }
    if Hex.Encode(s.hash(canonical.value)) != p.payloadDigestHex {
      return Err(DigestMismatch);
    }
    r := RunVerifyHandoff(s, key.value, sig.value, canonical.value, p.issuedAt, p.expiresAt, now);
  }

  // ----- The two verifiers

  /** Whatever the credential, payload, receipt and time, the two verifiers accept together. */
  lemma VerifiersAgree(s: Scheme, credential: Vault.EphemeralCredential, payload: Value, receipt: PaymentReceipt,
                       now: I64)
    requires WellFormed(payload)
    ensures Vault.Verify(s, credential, payload, now).Ok?
       <==> Verify(s, Package(payload, credential, receipt).params, now).Ok?
  {
  }

  /** A freshly packaged envelope verifies during exactly the minute after its mint. */
  lemma PackagedWindow(s: Scheme, payload: Value, receipt: PaymentReceipt, issued: I64, e: Vault.Entropy, now: I64)
    requires WellFormed(payload)
    requires Vault.Mint(s, payload, receipt, issued, e).Ok?
    ensures var credential := Vault.Mint(s, payload, receipt, issued, e).value;
      Verify(s, Package(payload, credential, receipt).params, now).Ok?
      <==> issued <= now < issued + Vault.CREDENTIAL_TTL_SECS < TWO_TO_THE_63
  {
    VerifiersAgree(s, Vault.Mint(s, payload, receipt, issued, e).value, payload, receipt, now);
    Vault.MintedCredentialWindow(s, payload, receipt, issued, e, now);
  }

  /** What an error says, apart from which verifier says it. */
  datatype Reason = Ttl | Window | Digest | Signature | Material

  function VaultReason(e: Vault.VaultError): Reason {
    match e
    case MalformedTtl => Ttl
    case OutsideValidity(_, _, _) => Window
    case DigestMismatch => Digest
    case SignatureInvalid => Signature
    case _ => Material
  }

  function HandoffReason(e: HandoffVerifyError): Reason {
    match e
    case MalformedTtl => Ttl
    case OutsideValidity(_, _, _) => Window
    case DigestMismatch => Digest
    case SignatureInvalid => Signature
    case Malformed => Material
  }

  function VaultOutcome(s: Scheme, c: Vault.EphemeralCredential, payload: Value, now: I64): Option<Reason>
    requires WellFormed(payload)
  {
    match Vault.Verify(s, c, payload, now) case Ok(_) => None case Err(e) => Some(VaultReason(e))
  }

  function HandoffOutcome(s: Scheme, p: SettlementParams, now: I64): Option<Reason>
    requires WellFormed(p.intent)
  {
    match Verify(s, p, now) case Ok(_) => None case Err(e) => Some(HandoffReason(e))
  }

  /** The time checks alone: which of them fails first. */
  function TimeReason(c: Vault.EphemeralCredential, now: I64): Option<Reason> {
    if c.expiresAt != WrapAdd(c.issuedAt, Vault.CREDENTIAL_TTL_SECS) then Some(Ttl)
    else if now < c.issuedAt || now >= c.expiresAt then Some(Window)
    else None
  }

  predicate MaterialOk(c: Vault.EphemeralCredential) {
    Vault.DecodeFixed(c.publicKeyHex, 32).Ok? && Vault.DecodeFixed(c.signatureHex, 64).Ok?
  }

  predicate DigestOk(s: Scheme, c: Vault.EphemeralCredential, payload: Value)
    requires WellFormed(payload) && FloatFree(payload)
  {
    Hex.Encode(s.hash(Canonicalize(payload).value)) == c.payloadDigestHex
  }

  /** What the signature check alone says. */
  function SignatureReason(s: Scheme, c: Vault.EphemeralCredential, payload: Value): Option<Reason>
    requires WellFormed(payload) && FloatFree(payload) && MaterialOk(c)
  {
    if s.verify(Vault.DecodeFixed(c.publicKeyHex, 32).value, Frame(Canonicalize(payload).value, c.issuedAt),
                Vault.DecodeFixed(c.signatureHex, 64).value)
    then None else Some(Signature)
  }

  lemma VaultSignature(s: Scheme, c: Vault.EphemeralCredential, payload: Value, now: I64)
    requires WellFormed(payload) && FloatFree(payload) && TimeReason(c, now).None?
    requires DigestOk(s, c, payload) && MaterialOk(c)
    ensures VaultOutcome(s, c, payload, now) == SignatureReason(s, c, payload)
  {
    assert CanonicalMessage(payload, c.issuedAt) == Ok(Frame(Canonicalize(payload).value, c.issuedAt));
  }

  lemma VaultInTime(s: Scheme, c: Vault.EphemeralCredential, payload: Value, now: I64)
    requires WellFormed(payload) && FloatFree(payload) && TimeReason(c, now).None?
    ensures VaultOutcome(s, c, payload, now)
         == if !DigestOk(s, c, payload) then Some(Digest)
            else if !MaterialOk(c) then Some(Material)
            else SignatureReason(s, c, payload)
  {
    if DigestOk(s, c, payload) && MaterialOk(c) {
      VaultSignature(s, c, payload, now);
    }
  }

  /** The vault looks at the time first, then the digest, then the key material. */
  lemma VaultOrder(s: Scheme, c: Vault.EphemeralCredential, payload: Value, now: I64)
    requires WellFormed(payload)
    ensures VaultOutcome(s, c, payload, now)
         == if TimeReason(c, now).Some? then TimeReason(c, now)
            else if !FloatFree(payload) then Some(Material)
            else if !DigestOk(s, c, payload) then Some(Digest)
            else if !MaterialOk(c) then Some(Material)
            else SignatureReason(s, c, payload)
  {
    if TimeReason(c, now).None? && FloatFree(payload) {
      VaultInTime(s, c, payload, now);
    }
  }

  /** The envelope looks at the key material first, then the digest, then the time. */
  lemma HandoffOrder(s: Scheme, c: Vault.EphemeralCredential, payload: Value, receipt: PaymentReceipt, now: I64)
    requires WellFormed(payload)
    ensures HandoffOutcome(s, Package(payload, c, receipt).params, now)
         == if !MaterialOk(c) || !FloatFree(payload) then Some(Material)
            else if !DigestOk(s, c, payload) then Some(Digest)
            else if TimeReason(c, now).Some? then TimeReason(c, now)
            else SignatureReason(s, c, payload)
  {
  }

  /** The window error carries the credential's own times and the clock, in both verifiers. */
  lemma WindowErrorsCarryTimes(s: Scheme, c: Vault.EphemeralCredential, payload: Value, receipt: PaymentReceipt,
                               now: I64)
    requires WellFormed(payload)
    ensures TimeReason(c, now) == Some(Window) ==>
      Vault.Verify(s, c, payload, now) == Err(Vault.OutsideValidity(c.issuedAt, c.expiresAt, now))
    ensures HandoffOutcome(s, Package(payload, c, receipt).params, now) == Some(Window) ==>
      Verify(s, Package(payload, c, receipt).params, now) == Err(OutsideValidity(c.issuedAt, c.expiresAt, now))
  {
  }

  /** Within its minute, the vault tells a float from malformed key material. */
  lemma VaultMaterialErrors(s: Scheme, c: Vault.EphemeralCredential, payload: Value, now: I64)
    requires WellFormed(payload) && TimeReason(c, now).None?
    ensures !FloatFree(payload) ==> Vault.Verify(s, c, payload, now) == Err(Vault.VaultError.Canonicalization)
    ensures FloatFree(payload) && DigestOk(s, c, payload) && !MaterialOk(c) ==>
      Vault.Verify(s, c, payload, now) == Err(Vault.VaultError.Malformed)
  {
  }

  /**
    The two verifiers give the same answer, reason included, exactly when: beside
    a bad time nothing else is wrong, and beside a bad digest the key material decodes.
   */
  lemma ReasonsAgreeExactly(s: Scheme, c: Vault.EphemeralCredential, payload: Value, receipt: PaymentReceipt, now: I64)
    requires WellFormed(payload)
    ensures VaultOutcome(s, c, payload, now) == HandoffOutcome(s, Package(payload, c, receipt).params, now)
       <==> if TimeReason(c, now).Some? then FloatFree(payload) && DigestOk(s, c, payload) && MaterialOk(c)
            else !FloatFree(payload) || DigestOk(s, c, payload) || MaterialOk(c)
  {
    VaultOrder(s, c, payload, now);
    HandoffOrder(s, c, payload, receipt, now);
  }

  // ----- Payload binding, end to end

  /** The colliding inputs if an altered payload were accepted. */
  function BindingInputs(payload: Value, altered: Value): (seq<byte>, seq<byte>)
    requires WellFormed(payload) && FloatFree(payload) && WellFormed(altered) && FloatFree(altered)
  {
    (Canonicalize(payload).value, Canonicalize(altered).value)
  }

  /**
    An envelope packaged from a credential minted for `payload`, altered only in
    its intent, still verifies only if the altered intent is the same JSON value
    or its canonical bytes collide with the signed ones.
   */
  lemma PayloadIsBound(s: Scheme, payload: Value, receipt: PaymentReceipt, issued: I64, e: Vault.Entropy,
                       altered: Value, now: I64)
    requires WellFormed(payload) && WellFormed(altered)
    requires Vault.Mint(s, payload, receipt, issued, e).Ok?
    requires var credential := Vault.Mint(s, payload, receipt, issued, e).value;
      Verify(s, Package(payload, credential, receipt).params.(intent := altered), now).Ok?
    ensures FloatFree(payload) && FloatFree(altered)
    ensures Same(payload, altered) || Collision(s.hash, BindingInputs(payload, altered))
  {
    var credential := Vault.Mint(s, payload, receipt, issued, e).value;
    Hex.EncodeInjective(s.hash(Canonicalize(payload).value), s.hash(Canonicalize(altered).value));
    CanonicalBytesDecide(payload, altered);
  }

  lemma IntentIsUnmarked(intent: AgentIntent)
    ensures !Vault.Marked(Payload(intent))
  {
    var ms := IntentMembers(intent);
    assert |ms[0].key| == 9 && |ms[1].key| == 12 && |ms[2].key| == 6 && |ms[3].key| == 5;
    assert ms[0].key[0] == 'i';
  }

  /** No intent carries the vault's marker, so under a scheme with nothing forged every paid intent is minted. */
  lemma IntentsAreMinted(s: Scheme, intent: AgentIntent, receipt: PaymentReceipt, now: I64, e: Vault.Entropy)
    ensures !Vault.Marked(Payload(intent))
    ensures Vault.NothingForged(s, CanonicalMessage(Payload(intent), now).value, e) ==>
      Vault.Mint(s, Payload(intent), receipt, now, e).Ok?
  {
    IntentIsUnmarked(intent);
    if Vault.NothingForged(s, CanonicalMessage(Payload(intent), now).value, e) {
      Vault.MintAcceptsExactly(s, Payload(intent), receipt, now, e);
    }
  }

  /** For intents: an envelope is good for exactly its own intent and minute, or a collision is at hand. */
  lemma IntentIsBound(s: Scheme, intent: AgentIntent, receipt: PaymentReceipt, issued: I64, e: Vault.Entropy,
                      other: AgentIntent, now: I64)
    requires Vault.Mint(s, Payload(intent), receipt, issued, e).Ok?
    ensures var credential := Vault.Mint(s, Payload(intent), receipt, issued, e).value;
      var altered := Package(Payload(intent), credential, receipt).params.(intent := Payload(other));
      || Collision(s.hash, BindingInputs(Payload(intent), Payload(other)))
      || (Verify(s, altered, now).Ok?
          <==> other == intent && issued <= now < issued + Vault.CREDENTIAL_TTL_SECS < TWO_TO_THE_63)
  {
    var credential := Vault.Mint(s, Payload(intent), receipt, issued, e).value;
    PayloadDecidesIntent(intent, other);
    PackagedWindow(s, Payload(intent), receipt, issued, e, now);
    if Verify(s, Package(Payload(intent), credential, receipt).params.(intent := Payload(other)), now).Ok? {
      PayloadIsBound(s, Payload(intent), receipt, issued, e, Payload(other), now);
    }
  }
}
