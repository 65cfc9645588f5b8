/** The browser side of sign-in-with-wallet: a nonce generator, a session
    cache in local storage keyed by wallet, and the hook that signs a fresh
    sign-in message when a connected wallet has no cached session. The hook's
    effects and promise callbacks are methods of `WalletAuth`; React runs them
    when their dependencies change, and the signing itself happens in the
    wallet between `RunSignEffect` and `OnSignSuccess`/`OnSignFailure`. */
module WalletAuth {
  import opened Wrappers
  import opened Bytes
  import Strings
  import Base64
  import Siws

  /** `generateNonce` with its twelve random bytes passed in: standard
      base64, then `+` to `-`, `/` to `_`, and the padding removed. */
  function GenerateNonce(random: seq<Byte>): (nonce: string)
    requires |random| == 12
    ensures |nonce| == 16 && forall i :: 0 <= i < |nonce| ==> Base64.IsUrlChar(nonce[i])
  {
    StripToUrl(random);
    var padded := Base64.Encode(random);
    Strings.RemoveChar(Strings.ReplaceChar(Strings.ReplaceChar(padded, '+', '-'), '/', '_'), '=')
  }

  /** The rewriting in `generateNonce` turns padded standard base64 into
      unpadded base64url, for any input length. */
  lemma StripToUrl(b: seq<Byte>)
    ensures Strings.RemoveChar(Strings.ReplaceChar(Strings.ReplaceChar(Base64.Encode(b), '+', '-'), '/', '_'), '=')
            == Base64.EncodeUrl(b)
  {
    var p := Base64.Padding(|b|);
    var url := Base64.EncodeUrl(b);
    SwapThenPadding(b);
    Strings.RemoveCharAppend(url, p, '=');
    Strings.RemoveCharAll(p, '=');
    UrlHasNoPad(url);
  }

  /** Swapping the two alphabet characters of padded base64 gives the
      base64url digits followed by the same padding. */
  lemma SwapThenPadding(b: seq<Byte>)
    ensures Strings.ReplaceChar(Strings.ReplaceChar(Base64.Encode(b), '+', '-'), '/', '_')
            == Base64.EncodeUrl(b) + Base64.Padding(|b|)
  {
    var d, p := Base64.Digits(b), Base64.Padding(|b|);
    assert Base64.Encode(b) == d + p;
    var swapped := Strings.ReplaceChar(Strings.ReplaceChar(d + p, '+', '-'), '/', '_');
    var url := Base64.EncodeUrl(b);
    assert |swapped| == |url + p|;
    forall i | 0 <= i < |swapped| ensures swapped[i] == (url + p)[i] {
      if i < |d| {
        assert (d + p)[i] == d[i];
      } else {
        assert (d + p)[i] == p[i - |d|] == '=';
      }
    }
  }

  lemma UrlHasNoPad(url: string)
    requires forall i :: 0 <= i < |url| ==> Base64.IsUrlChar(url[i])
    ensures Strings.RemoveChar(url, '=') == url
  {
    assert '=' !in url by {
      forall i | 0 <= i < |url| ensures url[i] != '=' {
        assert Base64.IsUrlChar(url[i]);
      }
    }
  }

  /** The nonce is the 16-character base64url text of its bytes, so it has
      none of `+`, `/` and `=`. */
  lemma NonceShape(random: seq<Byte>)
    requires |random| == 12
    ensures GenerateNonce(random) == Base64.EncodeUrl(random)
    ensures |GenerateNonce(random)| == 16
    ensures forall i :: 0 <= i < 16 ==> Base64.IsUrlChar(GenerateNonce(random)[i])
    ensures '+' !in GenerateNonce(random) && '/' !in GenerateNonce(random) && '=' !in GenerateNonce(random)
  {
    StripToUrl(random);
    var n := GenerateNonce(random);
    forall i | 0 <= i < |n| ensures n[i] != '+' && n[i] != '/' && n[i] != '=' {
      assert Base64.IsUrlChar(n[i]);
    }
  }

  /** `AuthCache`: a sign-in proof kept for one wallet. */
  datatype AuthCache = AuthCache(signature: string, nonce: string, issuedAt: string)

  /** A local-storage value: the JSON text of an `AuthCache`, the JSON text
      of some other value (only whether it is truthy matters to the hook), or
      text that is not JSON (the empty string among them). */
  datatype CacheValue = Serialized(auth: AuthCache) | OtherJson(truthy: bool) | NotJson(text: string)

  /** What `getCachedAuth` hands back: `null`, a session, or another truthy
      parsed value, which the hook holds and treats as a session too. */
  datatype Cached = Nothing | Session(auth: AuthCache) | OtherValue

  const CACHE_KEY_PREFIX: string := "auth:"

  /** `getCacheKey`. */
  function CacheKey(walletAddress: string): (k: string)
    ensures |k| == |CACHE_KEY_PREFIX| + |walletAddress|
    ensures k[..|CACHE_KEY_PREFIX|] == CACHE_KEY_PREFIX && k[|CACHE_KEY_PREFIX|..] == walletAddress
  {
    CACHE_KEY_PREFIX + walletAddress
  }

  lemma CacheKeyInjective(w1: string, w2: string)
    ensures CacheKey(w1) == CacheKey(w2) <==> w1 == w2
  {
    if CacheKey(w1) == CacheKey(w2) {
      assert w1 == CacheKey(w1)[5..] == CacheKey(w2)[5..] == w2;
    }
  }

  /** `getCachedAuth`: the parsed entry, or nothing when the entry is
      missing, not JSON, or a falsy JSON value. */
  function GetCachedAuth(storage: map<string, CacheValue>, walletAddress: string): (r: Cached)
    ensures r.Session? <==> CacheKey(walletAddress) in storage && storage[CacheKey(walletAddress)].Serialized?
    ensures r.Session? ==> storage[CacheKey(walletAddress)] == Serialized(r.auth)
    ensures r.OtherValue? <==> CacheKey(walletAddress) in storage && storage[CacheKey(walletAddress)] == OtherJson(true)
    ensures r.Nothing? <==>
      CacheKey(walletAddress) !in storage || storage[CacheKey(walletAddress)].NotJson?
      || storage[CacheKey(walletAddress)] == OtherJson(false)
  {
    var key := CacheKey(walletAddress);
    if key !in storage then Nothing
    else match storage[key]
      case Serialized(auth) => Session(auth)
      case OtherJson(truthy) => if truthy then OtherValue else Nothing
      case NotJson(_) => Nothing
  }

  /** Removing one wallet's entry leaves every other wallet's session as it was. */
  lemma RemoveIsLocal(storage: map<string, CacheValue>, w: string, other: string)
    ensures GetCachedAuth(storage - {CacheKey(w)}, w) == Nothing
    ensures other != w ==> GetCachedAuth(storage - {CacheKey(w)}, other) == GetCachedAuth(storage, other)
  {
    CacheKeyInjective(w, other);
  }

  /** A signing request in flight: the wallet it was started for and what it signs. */
  datatype SignRequest = SignRequest(walletAddress: string, nonce: string, issuedAt: string, message: string)

  /** The state of one mounted `useWalletAuth` hook together with the local
      storage it shares. `wallet` is the connected wallet's address as both
      the hook's `publicKey` and its `currentWalletRef` hold it after the
      wallet effect has run. */
  class WalletAuthHook {
    var storage: map<string, CacheValue>
    var wallet: Option<string>
    var connected: bool
    var disconnecting: bool
    var aborted: bool
    var auth: Cached
    var isAuthenticating: bool
    var error: Option<string>
    var reSignTrigger: nat

    /** The session shown is always the cached one for the current wallet. */
    ghost predicate Valid()
      reads this
    {
      auth == (if wallet.Some? then GetCachedAuth(storage, wallet.value) else Nothing)
    }

    constructor(storage: map<string, CacheValue>)
      ensures Valid()
      ensures this.storage == storage && wallet == None && auth == Nothing
      ensures !connected && !disconnecting && !aborted && !isAuthenticating
      ensures error == None && reSignTrigger == 0
    {
      this.storage := storage;
      wallet := None;
      connected := false;
      disconnecting := false;
      aborted := false;
      auth := Nothing;
      isAuthenticating := false;
      error := None;
      reSignTrigger := 0;
    }

    /** The `[publicKey]` effect: follow the new wallet and show its cached session. */
    method OnPublicKey(publicKey: Option<string>)
      modifies this
      ensures Valid()
      ensures wallet == publicKey && error == None
      ensures auth == (if publicKey.Some? then GetCachedAuth(storage, publicKey.value) else Nothing)
      ensures storage == old(storage) && connected == old(connected) && disconnecting == old(disconnecting)
      ensures aborted == old(aborted) && isAuthenticating == old(isAuthenticating)
      ensures reSignTrigger == old(reSignTrigger)
    {
      wallet := publicKey;
      if publicKey.Some? {
        auth := GetCachedAuth(storage, publicKey.value);
      } else {
        auth := Nothing;
      }
      error := None;
    }

    /** The `[connected, disconnecting, publicKey]` effect: a wallet that is
        neither connected nor disconnecting loses its cached session. */
    method OnConnectionState(connected: bool, disconnecting: bool)
      requires Valid()
      modifies this
      ensures Valid()
      ensures this.connected == connected && this.disconnecting == disconnecting
      ensures if !connected && !disconnecting && wallet.Some? then
          storage == old(storage) - {CacheKey(wallet.value)} && auth == Nothing
        else storage == old(storage) && auth == old(auth)
      ensures wallet == old(wallet) && aborted == old(aborted) && isAuthenticating == old(isAuthenticating)
      ensures error == old(error) && reSignTrigger == old(reSignTrigger)
    {
      this.connected := connected;
      this.disconnecting := disconnecting;
      if !connected && !disconnecting && wallet.Some? {
        storage := storage - {CacheKey(wallet.value)};
        auth := Nothing;
        RemoveIsLocal(old(storage), wallet.value, wallet.value);
      }
    }

    /** The `auth:expired` listener: only an event for the current wallet
        clears its session and asks for a new signature. */
    method OnExpiredEvent(walletAddress: string)
      requires Valid() || wallet == Some(walletAddress)
      modifies this
      ensures Valid()
      ensures wallet == Some(walletAddress) ==>
        && storage == old(storage) - {CacheKey(walletAddress)} && auth == Nothing && error == None
        && reSignTrigger == old(reSignTrigger) + 1
      ensures wallet != Some(walletAddress) ==>
        && storage == old(storage) && auth == old(auth) && error == old(error)
        && reSignTrigger == old(reSignTrigger)
      ensures wallet == old(wallet) && connected == old(connected) && disconnecting == old(disconnecting)
      ensures aborted == old(aborted) && isAuthenticating == old(isAuthenticating)
    {
      if wallet == Some(walletAddress) {
        storage := storage - {CacheKey(walletAddress)};
        auth := Nothing;
        error := None;
        reSignTrigger := reSignTrigger + 1;
        RemoveIsLocal(old(storage), walletAddress, walletAddress);
      }
    }

    /** `notifyAuthExpired(w)`: drop w's cached session, then dispatch the
        event, whose listener runs at once. */
    method NotifyAuthExpired(walletAddress: string)
      requires Valid()
      modifies this
      ensures Valid()
      ensures GetCachedAuth(storage, walletAddress) == Nothing
      ensures storage == old(storage) - {CacheKey(walletAddress)}
      ensures wallet == Some(walletAddress) ==> auth == Nothing && reSignTrigger == old(reSignTrigger) + 1
      ensures wallet != Some(walletAddress) ==> auth == old(auth) && reSignTrigger == old(reSignTrigger)
      ensures wallet == Some(walletAddress) ==> error == None
      ensures wallet != Some(walletAddress) ==> error == old(error)
      ensures wallet == old(wallet) && connected == old(connected) && disconnecting == old(disconnecting)
      ensures aborted == old(aborted) && isAuthenticating == old(isAuthenticating)
    {
      storage := storage - {CacheKey(walletAddress)};
      if wallet.Some? {
        RemoveIsLocal(old(storage), walletAddress, wallet.value);
      }
      OnExpiredEvent(walletAddress);
    }

    /** The signing effect (on connection, wallet, signer or re-sign trigger
        change). It starts a signing request only for a connected wallet with
        a signer and nothing truthy cached for it (a parseable entry that is
        not a session also suppresses signing); `random`, `domain` and `issuedAt` are
        the nonce bytes, the page host and the ISO time it reads. */
    method RunSignEffect(hasSigner: bool, random: seq<Byte>, domain: string, issuedAt: string)
      returns (request: Option<SignRequest>)
      requires Valid() && |random| == 12
      modifies this
      ensures Valid() && !aborted
      ensures request.Some? <==> connected && wallet.Some? && hasSigner && GetCachedAuth(storage, wallet.value).Nothing?
      ensures request.Some? ==>
        && request.value.walletAddress == wallet.value && auth == Nothing
        && request.value.nonce == GenerateNonce(random)
        && request.value.message == Siws.BuildSignInMessage(domain, wallet.value, request.value.nonce, Some(issuedAt))
        && request.value.issuedAt == issuedAt
        && isAuthenticating && error == None
      ensures request.None? ==> isAuthenticating == old(isAuthenticating) && error == old(error)
      ensures storage == old(storage) && wallet == old(wallet) && auth == old(auth)
      ensures connected == old(connected) && disconnecting == old(disconnecting)
      ensures reSignTrigger == old(reSignTrigger)
    {
      aborted := false;
      if !connected || wallet.None? || !hasSigner {
        return None;
      }
      var walletAddress := wallet.value;
      var cached := GetCachedAuth(storage, walletAddress);
      if !cached.Nothing? {
        return None;
      }
      isAuthenticating := true;
      error := None;
      var nonce := GenerateNonce(random);
      var message := Siws.BuildSignInMessage(domain, walletAddress, nonce, Some(issuedAt));
      request := Some(SignRequest(walletAddress, nonce, issuedAt, message));
    }

    /** A request is stale once the hook unmounted or the wallet changed. */
    predicate Stale(request: SignRequest)
      reads this
    {
      aborted || wallet != Some(request.walletAddress)
    }

    /** The request's promise resolved with the signature bytes. A stale
        result is dropped; otherwise the session is cached under the signing
        wallet and shown. */
    method OnSignSuccess(request: SignRequest, signatureBytes: seq<Byte>)
      requires Valid()
      modifies this
      ensures Valid()
      ensures old(Stale(request)) ==>
        storage == old(storage) && auth == old(auth) && isAuthenticating == old(isAuthenticating)
      ensures !old(Stale(request)) ==>
        var session := AuthCache(Base64.Encode(signatureBytes), request.nonce, request.issuedAt);
        && storage == old(storage)[CacheKey(request.walletAddress) := Serialized(session)]
        && auth == Session(session) && !isAuthenticating
      ensures wallet == old(wallet) && aborted == old(aborted) && error == old(error)
      ensures connected == old(connected) && disconnecting == old(disconnecting)
      ensures reSignTrigger == old(reSignTrigger)
    {
      if aborted || wallet != Some(request.walletAddress) {
        return;
      }
      var signature := Base64.Encode(signatureBytes);
      var newAuth := AuthCache(signature, request.nonce, request.issuedAt);
      storage := storage[CacheKey(request.walletAddress) := Serialized(newAuth)];
      auth := Session(newAuth);
      isAuthenticating := false;
    }

    /** The request's promise rejected with `message` (the error's message, or
        "Authentication failed"). A stale failure is dropped. */
    method OnSignFailure(request: SignRequest, message: string)
      requires Valid()
      modifies this
      ensures Valid()
      ensures old(Stale(request)) ==> error == old(error) && isAuthenticating == old(isAuthenticating)
      ensures !old(Stale(request)) ==> error == Some(message) && !isAuthenticating
      ensures storage == old(storage) && auth == old(auth) && wallet == old(wallet) && aborted == old(aborted)
      ensures connected == old(connected) && disconnecting == old(disconnecting)
      ensures reSignTrigger == old(reSignTrigger)
    {
      if aborted || wallet != Some(request.walletAddress) {
        return;
      }
      error := Some(message);
      isAuthenticating := false;
    }

    /** The unmount cleanup: every request in flight becomes stale. */
    method Unmount()
      requires Valid()
      modifies this
      ensures Valid() && aborted
      ensures storage == old(storage) && auth == old(auth) && wallet == old(wallet) && error == old(error)
      ensures isAuthenticating == old(isAuthenticating) && reSignTrigger == old(reSignTrigger)
      ensures connected == old(connected) && disconnecting == old(disconnecting)
    {
      aborted := true;
    }

    /** `clearAuth` (and `reauthenticate`, which only calls it): forget the
        current wallet's session. */
    method ClearAuth()
      requires Valid()
      modifies this
      ensures Valid()
      ensures wallet.Some? ==> storage == old(storage) - {CacheKey(wallet.value)} && auth == Nothing && error == None
      ensures wallet.None? ==> storage == old(storage) && auth == old(auth) && error == old(error)
      ensures wallet == old(wallet) && aborted == old(aborted) && isAuthenticating == old(isAuthenticating)
      ensures connected == old(connected) && disconnecting == old(disconnecting)
      ensures reSignTrigger == old(reSignTrigger)
    {
      if wallet.Some? {
        storage := storage - {CacheKey(wallet.value)};
        auth := Nothing;
        error := None;
        RemoveIsLocal(old(storage), wallet.value, wallet.value);
      }
    }
  }

  /** A result that arrives after the user switched wallets is never cached:
      the session of the wallet that is now connected, and the entry of the
      wallet that signed, are both as they were. */
  method StaleResultIgnored(hook: WalletAuthHook, request: SignRequest, other: string, signatureBytes: seq<Byte>)
    requires hook.Valid() && request.walletAddress != other
    modifies hook
    ensures hook.Valid() && hook.wallet == Some(other)
    ensures hook.storage == old(hook.storage)
    ensures hook.auth == GetCachedAuth(old(hook.storage), other)
  {
    hook.OnPublicKey(Some(other));
    hook.OnSignSuccess(request, signatureBytes);
  }
}
