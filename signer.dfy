/** The backend's claim-token signer: loads the backend keypair from its
    secret, stamps the current time in whole seconds, and signs the claim
    message that the on-chain program will rebuild. Ed25519 (section 5.1 of
    RFC 8032), the base58 codec and the secret-key parser are not modelled:
    they are the functions of a `Crypto` value. */
module Signer {
  import opened Wrappers
  import opened Bytes
  import opened Program

  datatype Keypair = Keypair(publicKey: seq<Byte>, secretKey: seq<Byte>)

  /** The cryptographic primitives the signer calls. */
  datatype Crypto = Crypto(
    /** `nacl.sign.keyPair.fromSecretKey(bs58.decode(secret))`; None where either throws. */
    keypairFromSecret: string -> Option<Keypair>,
    /** `nacl.sign.detached(message, secretKey)`. */
    sign: (seq<Byte>, seq<Byte>) -> seq<Byte>,
    /** `bs58.encode`. */
    base58: seq<Byte> -> string)

  /** `ClaimToken`: the timestamp and score the signature covers, the
      signature and the backend public key (both base58). */
  datatype ClaimToken = ClaimToken(timestamp: int, fairscaleScore: int, signature: string, backendPubkey: string)

  datatype SignerError = SecretNotSet | SecretUnusable

  /** `loadBackendKeypair` with `BACKEND_KEYPAIR_SECRET` passed in: an unset
      or empty secret is an error, as is one the key parser rejects. */
  function LoadBackendKeypair(secret: Option<string>, crypto: Crypto): (r: Result<Keypair, SignerError>)
    ensures r == Failure(SecretNotSet) <==> (secret.None? || secret.value == "")
    ensures r.Success? <==> secret.Some? && secret.value != "" && crypto.keypairFromSecret(secret.value).Some?
    ensures r.Success? ==> Some(r.value) == crypto.keypairFromSecret(secret.value)
  {
    if secret.None? || secret.value == "" then Failure(SecretNotSet)
    else match crypto.keypairFromSecret(secret.value)
      case None => Failure(SecretUnusable)
      case Some(kp) => Success(kp)
  }

  /** `signClaimToken` with the clock reading `nowMs` (milliseconds, as
      `Date.now()`) and the secret passed in. */
  function SignClaimToken(secret: Option<string>, crypto: Crypto, nowMs: nat,
                          dropId: seq<Byte>, claimer: Key, fairscaleScore: int): (r: Result<ClaimToken, SignerError>)
    requires |dropId| == 32
    ensures r.Failure? <==> LoadBackendKeypair(secret, crypto).Failure?
    ensures r.Success? ==>
      var kp := LoadBackendKeypair(secret, crypto).value;
      && r.value.timestamp * 1000 <= nowMs < (r.value.timestamp + 1) * 1000
      && r.value.fairscaleScore == fairscaleScore
      && r.value.signature == crypto.base58(crypto.sign(
           ClaimMessage(dropId, claimer, r.value.timestamp, r.value.fairscaleScore), kp.secretKey))
      && r.value.backendPubkey == crypto.base58(kp.publicKey)
  {
    match LoadBackendKeypair(secret, crypto)
    case Failure(e) => Failure(e)
    case Success(kp) =>
      var timestamp := nowMs / 1000;
      var message := ClaimMessage(dropId, claimer, timestamp, fairscaleScore);
      Success(ClaimToken(timestamp, fairscaleScore,
        crypto.base58(crypto.sign(message, kp.secretKey)), crypto.base58(kp.publicKey)))
  }

  /** What the client does with a token (`buildClaimTransaction`): it rebuilds
      the message for the Ed25519 instruction from the token's own timestamp
      and score, and packs the same two values into the claim instruction. The
      first is exactly the message that was signed; the second, decoded by the
      program, rebuilds that message too, so the signature covers the claim
      the program executes. */
  lemma TokenCoversClaim(secret: Option<string>, crypto: Crypto, nowMs: nat,
                         dropId: seq<Byte>, claimer: Key, score: int)
    requires |dropId| == 32
    requires SignClaimToken(secret, crypto, nowMs, dropId, claimer, score).Success?
    ensures var t := SignClaimToken(secret, crypto, nowMs, dropId, claimer, score).value;
      var kp := LoadBackendKeypair(secret, crypto).value;
      var signed := ClaimMessage(dropId, claimer, nowMs / 1000, score);
      var ix := ClaimIxData(t.timestamp, t.fairscaleScore);
      && t.signature == crypto.base58(crypto.sign(signed, kp.secretKey))
      && ClaimMessage(dropId, claimer, t.timestamp, t.fairscaleScore) == signed
      && ClaimMessage(dropId, claimer, I64Value(ix[8..16]), LeValue(ix[16..18])) == signed
  {
    var t := SignClaimToken(secret, crypto, nowMs, dropId, claimer, score).value;
    ClaimIxRebuildsMessage(dropId, claimer, t.timestamp, t.fairscaleScore);
  }

  /** Two tokens signed for different claims (a different drop, claimer,
      second or score in range) are signatures over different messages. */
  lemma DistinctClaimsDistinctMessages(d1: seq<Byte>, c1: Key, now1: nat, s1: int,
                                       d2: seq<Byte>, c2: Key, now2: nat, s2: int)
    requires |d1| == 32 && |d2| == 32
    requires now1 / 1000 < TWO63 && now2 / 1000 < TWO63
    requires 0 <= s1 < TWO16 && 0 <= s2 < TWO16
    requires d1 != d2 || c1 != c2 || now1 / 1000 != now2 / 1000 || s1 != s2
    ensures ClaimMessage(d1, c1, now1 / 1000, s1) != ClaimMessage(d2, c2, now2 / 1000, s2)
  {
    if ClaimMessage(d1, c1, now1 / 1000, s1) == ClaimMessage(d2, c2, now2 / 1000, s2) {
      ClaimMessageInjective(d1, c1, now1 / 1000, s1, d2, c2, now2 / 1000, s2);
    }
  }
}
