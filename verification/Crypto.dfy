/**
  The primitives under the vault, kept uninterpreted: a hash, key derivation, and
  a signature scheme. No result below assumes that signatures are unforgeable or
  even that an honest signature verifies, unless it says so.
 */
module Crypto {
  import opened Bytes
  import opened Wrappers
  import opened Json
  import opened Jcs

  type Key = k: seq<byte> | |k| == 32 witness seq(32, _ => 0)
  type Signature = s: seq<byte> | |s| == 64 witness seq(64, _ => 0)

  datatype Scheme = Scheme(
    hash: HashFn,
    publicKey: Digest -> Key,
    sign: (Digest, seq<byte>) -> Signature,
    verify: (Key, seq<byte>, Signature) -> bool)

  /** Every honest signature verifies under its own key. */
  ghost predicate SignsCorrectly(s: Scheme) {
    forall seed: Digest, msg: seq<byte> :: s.verify(s.publicKey(seed), msg, s.sign(seed, msg))
  }

  /** `sign_payload`. */
  function SignPayload(s: Scheme, seed: Digest, payload: Value, timestamp: I64): Result<Signature, CryptoError>
    requires WellFormed(payload)
  {
    match CanonicalMessage(payload, timestamp)
    case Ok(msg) => Ok(s.sign(seed, msg))
    case Err(e) => Err(e)
  }

  /** `verify_payload`. */
  function VerifyPayload(s: Scheme, key: Key, payload: Value, timestamp: I64, sig: Signature)
    : Result<(), CryptoError>
    requires WellFormed(payload)
  {
    match CanonicalMessage(payload, timestamp)
    case Ok(msg) => if s.verify(key, msg, sig) then Ok(()) else Err(SignatureInvalid)
    case Err(e) => Err(e)
  }

  /** Which answer verification gives, and why. */
  lemma VerifiesExactly(s: Scheme, key: Key, payload: Value, timestamp: I64, sig: Signature)
    requires WellFormed(payload)
    ensures var r := VerifyPayload(s, key, payload, timestamp, sig);
      && (r == Err(Canonicalization) <==> !FloatFree(payload))
      && (FloatFree(payload) ==>
            (r == Ok(()) <==> s.verify(key, Frame(Canonicalize(payload).value, timestamp), sig))
            && (r == Err(SignatureInvalid) <==> !s.verify(key, Frame(Canonicalize(payload).value, timestamp), sig)))
  {
  }

  /** A signature made over one member order verifies over every other, and float payloads never verify. */
  lemma SignedThenReordered(s: Scheme, seed: Digest, payload: Value, reordered: Value, timestamp: I64)
    requires SignsCorrectly(s) && WellFormed(payload) && WellFormed(reordered) && Same(payload, reordered)
    ensures SignPayload(s, seed, payload, timestamp).Ok? <==> FloatFree(payload)
    ensures FloatFree(payload) ==>
      VerifyPayload(s, s.publicKey(seed), reordered, timestamp,
                    SignPayload(s, seed, payload, timestamp).value) == Ok(())
    ensures !FloatFree(payload) ==> forall key, sig ::
      VerifyPayload(s, key, reordered, timestamp, sig) == Err(Canonicalization)
  {
    SameNormal(payload, reordered);
    NormalFloatFree(payload);
    NormalFloatFree(reordered);
    if FloatFree(payload) {
      MessageDecides(payload, timestamp, reordered, timestamp);
    }
  }
}
