/** The my-drops endpoint: a wallet proves it signed a recent sign-in message
    and receives the claim-link slugs of the listed drops it created. Date
    parsing, base64 decoding and Ed25519 verification (section 5.1 of
    RFC 8032) are functions of `MyDropEnv`; the clock reading is `now`. */
module MyDropRoute {
  import opened Wrappers
  import opened Bytes
  import Strings
  import Base64
  import opened Program
  import Siws
  import opened Db

  /** Seven days in milliseconds. */
  const MAX_MESSAGE_AGE_MS: int := 7 * 24 * 60 * 60 * 1000
  /** How far in the future an issued-at time may lie. */
  const MAX_CLOCK_SKEW_MS: int := 60000

  /** The JSON body; `dropAddresses` is None when it is absent or not an array. */
  datatype MyDropBody = MyDropBody(walletAddress: Option<string>, signature: Option<string>, nonce: Option<string>,
                                   issuedAt: Option<string>, dropAddresses: Option<seq<string>>)

  datatype MyDropResponse =
    | Slugs(slugs: map<string, string>)
    | BadRequest(error: string)
    | Forbidden(error: string)
    | InternalError

  datatype MyDropEnv = MyDropEnv(
    parseKey: string -> Option<Key>,
    /** `new Date(s).getTime()`; None for NaN. */
    parseDate: string -> Option<int>,
    /** The host of the configured application URL. */
    appHost: string,
    /** `Buffer.from(s, "base64")`. */
    decodeBase64: string -> seq<Byte>,
    /** `nacl.sign.detached.verify` over the UTF-8 bytes of the message, for
        a signature of `SIGNATURE_LEN` bytes (any other length makes it throw). */
    verify: (string, seq<Byte>, Key) -> bool)

  /** The Ed25519 signature size `nacl.sign.detached.verify` insists on. */
  const SIGNATURE_LEN: nat := 64

  /** The fields the handler demands: wallet, signature and nonce non-empty,
      and the drop addresses an array. */
  predicate HasRequiredFields(b: MyDropBody): (ok: bool)
    ensures !ok <==>
      || b.walletAddress.None? || b.walletAddress.value == ""
      || b.signature.None? || b.signature.value == ""
      || b.nonce.None? || b.nonce.value == ""
      || b.dropAddresses.None?
  {
    Present(b.walletAddress) && Present(b.signature) && Present(b.nonce) && b.dropAddresses.Some?
  }

  /** The base64url-to-base64 repair of the signature: `-` to `+`, `_` to `/`,
      then `=` up to a multiple of four. */
  function NormalizeSignature(signature: string): (r: string)
    ensures |r| % 4 == 0 && |signature| <= |r| < |signature| + 4
    ensures '-' !in r && '_' !in r
  {
    var base64 := Strings.ReplaceChar(Strings.ReplaceChar(signature, '-', '+'), '_', '/');
    var r := Strings.PadEnd(base64, |base64| + (4 - |base64| % 4) % 4, '=');
    assert forall i :: 0 <= i < |r| ==> r[i] != '-' && r[i] != '_' by {
      forall i | 0 <= i < |r| ensures r[i] != '-' && r[i] != '_' {
        if i < |base64| { assert r[i] == base64[i]; }
      }
    }
    r
  }

  /** Standard padded base64, which is what the browser sends, passes
      through unchanged. */
  lemma NormalizeKeepsStandard(b: seq<Byte>)
    ensures NormalizeSignature(Base64.Encode(b)) == Base64.Encode(b)
  {
    var e := Base64.Encode(b);
    var swapped := Strings.ReplaceChar(Strings.ReplaceChar(e, '-', '+'), '_', '/');
    forall i | 0 <= i < |e| ensures swapped[i] == e[i] {
      assert Base64.IsStdChar(e[i]) || e[i] == '=';
    }
    assert swapped == e;
  }

  /** Unpadded base64url text of any bytes is repaired to exactly their
      padded standard base64. */
  lemma NormalizeRepairsUrl(b: seq<Byte>)
    ensures NormalizeSignature(Base64.EncodeUrl(b)) == Base64.Encode(b)
  {
    var d := Base64.Digits(b);
    Base64.UrlDigitsBack(b);
    Base64.PaddedLength(|b|);
    PadCompletesGroup(d, Base64.Padding(|b|), (|b| + 2) / 3);
  }

  /** Padding d with `=` to a multiple of four adds exactly the padding p
      when d + p is a whole number of groups of four. */
  lemma PadCompletesGroup(d: string, p: string, groups: nat)
    requires |p| < 4 && |d| + |p| == 4 * groups
    requires forall i :: 0 <= i < |p| ==> p[i] == '='
    ensures Strings.PadEnd(d, |d| + (4 - |d| % 4) % 4, '=') == d + p
  {
    PadAmount(|d|, |p|, groups);
    var r := Strings.PadEnd(d, |d| + (4 - |d| % 4) % 4, '=');
    assert |r| == |d + p|;
    forall i | 0 <= i < |r| ensures r[i] == (d + p)[i] {
      if i < |d| {
        assert r[i] == r[..|d|][i] == d[i];
      }
    }
  }

  lemma PadAmount(n: nat, pad: nat, groups: nat)
    requires pad < 4 && n + pad == 4 * groups
    ensures (4 - n % 4) % 4 == pad
  {
    if pad == 0 {
      DivModUnique(n, 4, groups, 0);
    } else {
      DivModUnique(n, 4, groups - 1, 4 - pad);
      DivModUnique(4 - pad, 4, 0, 4 - pad);
    }
  }

  /** The freshness checks on a present, non-empty `issuedAt`; `None` when
      the message may be checked further. */
  function Freshness(issuedAt: Option<string>, parseDate: string -> Option<int>, now: int): (r: Option<MyDropResponse>)
    ensures r.Some? ==> Present(issuedAt) && (r.value.BadRequest? || r.value.Forbidden?)
  {
    if issuedAt.None? || issuedAt.value == "" then None
    else match parseDate(issuedAt.value)
      case None => Some(BadRequest("Invalid issuedAt format"))
      case Some(messageTime) =>
        if now - messageTime > MAX_MESSAGE_AGE_MS then Some(Forbidden("Signature expired"))
        else if messageTime > now + MAX_CLOCK_SKEW_MS then Some(BadRequest("Invalid timestamp"))
        else None
  }

  /** A message passes the freshness checks exactly when it has no issued-at
      time, or one that parses and lies between seven days ago and one
      minute ahead, both ends included; a message older than that is
      "Signature expired" (403), one further ahead "Invalid timestamp" (400). */
  lemma FreshnessWindow(issuedAt: Option<string>, parseDate: string -> Option<int>, now: int)
    ensures Freshness(issuedAt, parseDate, now).None? <==>
      issuedAt.None? || issuedAt.value == ""
      || (parseDate(issuedAt.value).Some?
          && now - MAX_MESSAGE_AGE_MS <= parseDate(issuedAt.value).value <= now + MAX_CLOCK_SKEW_MS)
    ensures issuedAt.Some? && issuedAt.value != "" && parseDate(issuedAt.value).Some? ==>
      var t := parseDate(issuedAt.value).value;
      && (t < now - MAX_MESSAGE_AGE_MS <==> Freshness(issuedAt, parseDate, now) == Some(Forbidden("Signature expired")))
      && (t > now + MAX_CLOCK_SKEW_MS <==> Freshness(issuedAt, parseDate, now) == Some(BadRequest("Invalid timestamp")))
    ensures issuedAt.Some? && issuedAt.value != "" && parseDate(issuedAt.value).None? ==>
      Freshness(issuedAt, parseDate, now) == Some(BadRequest("Invalid issuedAt format"))
  {
  }

  /** The outcome of the checks: a response, or the wallet and addresses to
      look slugs up for. */
  datatype Decision = Reject(response: MyDropResponse) | Accept(walletAddress: string, dropAddresses: seq<string>)

  /** Every check of the handler up to the slug lookup, in its order. */
  function Decide(env: MyDropEnv, body: Option<MyDropBody>, now: int): (d: Decision)
    ensures d.Accept? ==>
      && body.Some?
      && var b := body.value;
      && b.walletAddress == Some(d.walletAddress) && b.dropAddresses == Some(d.dropAddresses)
      && b.signature.Some? && b.nonce.Some?
      && env.parseKey(d.walletAddress).Some?
      && Freshness(b.issuedAt, env.parseDate, now).None?
      && |env.decodeBase64(NormalizeSignature(b.signature.value))| == SIGNATURE_LEN
      && env.verify(Siws.BuildSignInMessage(env.appHost, d.walletAddress, b.nonce.value, b.issuedAt),
                    env.decodeBase64(NormalizeSignature(b.signature.value)),
                    env.parseKey(d.walletAddress).value)
  {
    if body.None? then Reject(InternalError)
    else
      var b := body.value;
      if !HasRequiredFields(b) then
        Reject(BadRequest("Missing required fields"))
      else match env.parseKey(b.walletAddress.value)
        case None => Reject(BadRequest("Invalid wallet address"))
        case Some(pubkey) =>
          match Freshness(b.issuedAt, env.parseDate, now)
          case Some(rejection) => Reject(rejection)
          case None =>
            var message := Siws.BuildSignInMessage(env.appHost, b.walletAddress.value, b.nonce.value, b.issuedAt);
            var signatureBytes := env.decodeBase64(NormalizeSignature(b.signature.value));
            if |signatureBytes| != SIGNATURE_LEN then Reject(InternalError)
            else if !env.verify(message, signatureBytes, pubkey) then Reject(Forbidden("Invalid signature"))
            else Accept(b.walletAddress.value, b.dropAddresses.value)
  }

  /** Each failed check gives its own response: a body that is not JSON 500,
      a missing field 400, a wallet address that is not a key 400, a failed
      freshness check its own response (an unparsable issued-at time 400
      "Invalid issuedAt format"), a signature that does not decode to 64
      bytes 500 (the verifier throws), and a wrong signature 403. */
  lemma DecideRejections(env: MyDropEnv, body: Option<MyDropBody>, now: int)
    ensures body.None? ==> Decide(env, body, now) == Reject(InternalError)
    ensures body.Some? && !HasRequiredFields(body.value) ==>
      Decide(env, body, now) == Reject(BadRequest("Missing required fields"))
    ensures body.Some? && HasRequiredFields(body.value) && env.parseKey(body.value.walletAddress.value).None? ==>
      Decide(env, body, now) == Reject(BadRequest("Invalid wallet address"))
    ensures body.Some? && HasRequiredFields(body.value) && env.parseKey(body.value.walletAddress.value).Some? ==>
      var b := body.value;
      && (Freshness(b.issuedAt, env.parseDate, now).Some? ==>
            Decide(env, body, now) == Reject(Freshness(b.issuedAt, env.parseDate, now).value))
      && (b.issuedAt.Some? && b.issuedAt.value != "" && env.parseDate(b.issuedAt.value).None? ==>
            Decide(env, body, now) == Reject(BadRequest("Invalid issuedAt format")))
      && (Freshness(b.issuedAt, env.parseDate, now).None? ==>
            var message := Siws.BuildSignInMessage(env.appHost, b.walletAddress.value, b.nonce.value, b.issuedAt);
            var signatureBytes := env.decodeBase64(NormalizeSignature(b.signature.value));
            && (|signatureBytes| != SIGNATURE_LEN ==> Decide(env, body, now) == Reject(InternalError))
            && (|signatureBytes| == SIGNATURE_LEN
                && !env.verify(message, signatureBytes, env.parseKey(b.walletAddress.value).value) ==>
                  Decide(env, body, now) == Reject(Forbidden("Invalid signature"))))
  {
  }

  /** A request built the way the browser builds it (the message it signed
      for this host, wallet, nonce and issued-at, its signature sent as
      standard base64) is checked against exactly that message and those
      signature bytes. */
  lemma ServerChecksWhatBrowserSigned(env: MyDropEnv, wallet: string, nonce: string, issuedAt: string,
                                      signature: seq<Byte>, addresses: seq<string>, now: int)
    requires env.decodeBase64(Base64.Encode(signature)) == signature
    requires |signature| == SIGNATURE_LEN && wallet != "" && nonce != "" && env.parseKey(wallet).Some?
    requires Freshness(Some(issuedAt), env.parseDate, now).None?
    ensures var body := MyDropBody(Some(wallet), Some(Base64.Encode(signature)), Some(nonce), Some(issuedAt), Some(addresses));
      var signed := Siws.BuildSignInMessage(env.appHost, wallet, nonce, Some(issuedAt));
      Decide(env, Some(body), now) ==
        (if env.verify(signed, signature, env.parseKey(wallet).value) then Accept(wallet, addresses)
         else Reject(Forbidden("Invalid signature")))
  {
    assert |Base64.Encode(signature)| >= 4;
    NormalizeKeepsStandard(signature);
  }

  /** The my-drops `POST` handler against the slug store. */
  method PostMyDrop(store: SlugStore, env: MyDropEnv, body: Option<MyDropBody>, now: int)
    returns (response: MyDropResponse)
    ensures Decide(env, body, now).Reject? ==> response == Decide(env, body, now).response
    ensures Decide(env, body, now).Accept? ==>
      response.Slugs?
      && IsSlugsOfCreator(store.kv, Decide(env, body, now).dropAddresses, Decide(env, body, now).walletAddress,
                          response.slugs)
  {
    if body.None? {
      return InternalError;
    }
    var b := body.value;
    if !HasRequiredFields(b) {
      return BadRequest("Missing required fields");
    }
    var walletAddress, signature, nonce := b.walletAddress.value, b.signature.value, b.nonce.value;

    var pubkey := env.parseKey(walletAddress);
    if pubkey.None? {
      return BadRequest("Invalid wallet address");
    }

    if b.issuedAt.Some? && b.issuedAt.value != "" {
      var messageTime := env.parseDate(b.issuedAt.value);
      if messageTime.None? {
        return BadRequest("Invalid issuedAt format");
      }
      if now - messageTime.value > MAX_MESSAGE_AGE_MS {
        return Forbidden("Signature expired");
      }
      if messageTime.value > now + MAX_CLOCK_SKEW_MS {
        return BadRequest("Invalid timestamp");
      }
    }

    var message := Siws.BuildSignInMessage(env.appHost, walletAddress, nonce, b.issuedAt);
    var signatureBytes := env.decodeBase64(NormalizeSignature(signature));
    if |signatureBytes| != SIGNATURE_LEN {
      return InternalError;
    }
    var isValid := env.verify(message, signatureBytes, pubkey.value);
    if !isValid {
      return Forbidden("Invalid signature");
    }

    var slugs := store.GetSlugsByCreator(b.dropAddresses.value, walletAddress);
    response := Slugs(slugs);
  }
}
