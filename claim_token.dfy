/** The claim-token endpoint: a fixed sequence of checks (global, per-IP and
    per-wallet rate limits, request fields, the slug bound to the drop, the
    claimer address, the drop's state, the reputation score) ending in a
    signed claim token. The decision is the function `ClaimFlow`; the handler
    `PostClaimToken` performs the same steps against the shared limiter and
    slug store. The request clock is read once (`now`). */
module ClaimTokenRoute {
  import opened Wrappers
  import opened Bytes
  import Strings
  import opened Program
  import opened Signer
  import opened RateLimit
  import opened Db

  const WINDOW_MS: int := 60 * 1000
  const WALLET_LIMIT: int := 10
  const IP_LIMIT: int := 30
  const GLOBAL_LIMIT: int := 500

  const GLOBAL_KEY: string := "global"
  /** The per-address counter's key: "ip:" then the address. */
  function IpKey(ip: string): (k: string)
    ensures |k| == 3 + |ip| && k[..3] == "ip:" && k[3..] == ip
  {
    "ip:" + ip
  }

  /** The per-wallet counter's key: "wallet:" then the claimer. */
  function WalletKey(claimer: string): (k: string)
    ensures |k| == 7 + |claimer| && k[..7] == "wallet:" && k[7..] == claimer
  {
    "wallet:" + claimer
  }

  /** The three kinds of limiter keys never collide, and each kind keeps
      different addresses (or wallets) on different counters. */
  lemma LimiterKeysDistinct(ip: string, ip': string, claimer: string, claimer': string)
    ensures IpKey(ip) != GLOBAL_KEY && WalletKey(claimer) != GLOBAL_KEY && WalletKey(claimer) != IpKey(ip)
    ensures IpKey(ip) == IpKey(ip') <==> ip == ip'
    ensures WalletKey(claimer) == WalletKey(claimer') <==> claimer == claimer'
  {
    assert IpKey(ip)[0] == 'i' && WalletKey(claimer)[0] == 'w' && GLOBAL_KEY[0] == 'g';
    if IpKey(ip) == IpKey(ip') {
      assert ip == IpKey(ip)[3..];
    }
    if WalletKey(claimer) == WalletKey(claimer') {
      assert claimer == WalletKey(claimer)[7..];
    }
  }

  /** `getClientIp` with the two headers passed in (absent as None): the
      trimmed first element of `x-forwarded-for` when that header is present
      (even if it trims to nothing), else `x-real-ip`, else "unknown"
      (`ForwardedClientIp` locates the address inside the header). */
  function GetClientIp(forwardedFor: Option<string>, realIp: Option<string>): (ip: string)
    ensures forwardedFor.Some? ==>
      && ',' !in ip
      && Strings.Trimmed(ip)
      && forall c :: c in ip ==> c in forwardedFor.value
    ensures forwardedFor.None? && realIp.Some? ==> ip == realIp.value
    ensures forwardedFor.None? && realIp.None? ==> ip == "unknown"
  {
    match forwardedFor
    case Some(xff) =>
      var first := Strings.FirstField(xff, ',');
      TrimKeepsChars(first);
      Strings.SliceKeepsElements(xff, 0, first);
      Strings.Trim(first)
    case None =>
      match realIp
      case Some(r) => r
      case None => "unknown"
  }

  /** With a forwarded header present, the client address is its first
      comma-separated element (`Strings.FirstField`) with the white space
      around it removed: the element is the address surrounded by nothing but
      white space. */
  lemma ForwardedClientIp(xff: string, realIp: Option<string>)
    ensures var first := Strings.FirstField(xff, ',');
      Strings.SpacedAround(first, |first| - |Strings.TrimStart(first)|, GetClientIp(Some(xff), realIp))
  {
    ForwardedIsTrimmedField(xff, realIp);
    Strings.TrimParts(Strings.FirstField(xff, ','));
  }

  lemma ForwardedIsTrimmedField(xff: string, realIp: Option<string>)
    ensures GetClientIp(Some(xff), realIp) == Strings.Trim(Strings.FirstField(xff, ','))
  {
  }

  /** A forwarded header holding one address with no white space is that
      address. */
  lemma PlainForwardedHeader(xff: string, realIp: Option<string>)
    requires ',' !in xff && forall i :: 0 <= i < |xff| ==> !Strings.IsJsSpace(xff[i])
    ensures GetClientIp(Some(xff), realIp) == xff
  {
    var first := Strings.FirstField(xff, ',');
    assert first == xff;
  }

  /** Trimming only removes characters. */
  lemma TrimKeepsChars(s: string)
    ensures forall c :: c in Strings.Trim(s) ==> c in s
  {
    Strings.SliceKeepsElements(s, |s| - |Strings.TrimStart(s)|, Strings.Trim(s));
  }

  /** `Math.ceil(ms / 1000)`: the whole number of seconds covering `ms`. */
  function RetryAfter(ms: int): (secs: int)
    ensures (secs - 1) * 1000 < ms <= secs * 1000
  {
    -((-ms) / 1000)
  }

  /** The JSON body as the handler destructures it; a body that does not
      parse is `None`, an absent field is `None`. */
  datatype ClaimBody = ClaimBody(dropAddress: Option<string>, claimer: Option<string>, slug: Option<string>)
  datatype ClaimRequest = ClaimRequest(forwardedFor: Option<string>, realIp: Option<string>, body: Option<ClaimBody>)


  /** The responses, with their status codes given by `Status`. */
  datatype ClaimResponse =
    | TokenIssued(token: ClaimToken)
    | RateLimited(error: string, retryAfter: int)
    | BadRequest(error: string)
    | Forbidden(error: string)
    | ScoreTooLow(required: int, actual: int)
    | NotFound(error: string)
    | InternalError

  function Status(r: ClaimResponse): int {
    match r
    case TokenIssued(_) => 200
    case RateLimited(_, _) => 429
    case BadRequest(_) => 400
    case Forbidden(_) => 403
    case ScoreTooLow(_, _) => 403
    case NotFound(_) => 404
    case InternalError => 500
  }

  /** The steps of the handler, in the order it runs them. Each branch of the
      flow below labels its outcome with the steps it ran (a leading part of
      `FULL_ORDER`); the label is documentation of the branch, written next to
      the code that takes it, not something derived from it. */
  datatype Step =
    | GlobalLimitStep | IpLimitStep | ParseBodyStep | RequiredFieldsStep | SlugBindingStep
    | ClaimerAddressStep | WalletLimitStep | FetchDropStep | DropActiveStep | ScoreStep | SignStep

  const FULL_ORDER: seq<Step> := [GlobalLimitStep, IpLimitStep, ParseBodyStep, RequiredFieldsStep,
    SlugBindingStep, ClaimerAddressStep, WalletLimitStep, FetchDropStep, DropActiveStep, ScoreStep, SignStep]

  /** What the handler reaches: the key parser, the account fetch and the
      reputation lookup (`getFairScaleScore`, whose own mapping of an unknown
      wallet to 0 is inside it), the signing secret and the crypto. */
  datatype ClaimEnv = ClaimEnv(
    parseKey: string -> Option<Key>,
    getAccount: Key -> Rpc<Option<seq<Byte>>>,
    fairScale: string -> Rpc<int>,
    secret: Option<string>,
    crypto: Crypto)

  /** The score the handler signs with, or why it stops. */
  datatype ScoreDecision = ScoreOk(score: int) | ScoreBelow(required: int, actual: int) | ScoreFailed

  /** With a minimum above 0 the lookup must succeed and reach the minimum
      (the minimum itself passes); with no minimum a failed lookup counts as 0. */
  function DecideScore(minScore: int, lookup: Rpc<int>): (d: ScoreDecision)
    ensures minScore > 0 ==> (d.ScoreFailed? <==> lookup.RpcError?)
    ensures minScore > 0 ==> (d.ScoreBelow? <==> lookup.RpcOk? && lookup.value < minScore)
    ensures minScore > 0 && d.ScoreOk? ==> d.score == lookup.value && d.score >= minScore
    ensures d.ScoreBelow? ==> lookup.RpcOk? && d.required == minScore && d.actual == lookup.value
    ensures minScore <= 0 ==> d.ScoreOk? && d.score == (if lookup.RpcOk? then lookup.value else 0)
  {
    if minScore > 0 then
      match lookup
      case RpcError => ScoreFailed
      case RpcOk(score) => if score < minScore then ScoreBelow(minScore, score) else ScoreOk(score)
    else
      match lookup
      case RpcOk(score) => ScoreOk(score)
      case RpcError => ScoreOk(0)
  }

  /** The response, the limiter store afterwards, and the steps run. */
  datatype ClaimOutcome = ClaimOutcome(response: ClaimResponse, limits: map<string, Entry>, trace: seq<Step>)

  /** The steps after the claimer address is known: per-wallet limit, the
      drop, the score and the signature. */
  function AfterClaimer(l2: map<string, Entry>, env: ClaimEnv, now: nat,
                        dropAddress: string, claimer: string, claimerKey: Key): (o: ClaimOutcome)
    ensures 7 <= |o.trace| <= |FULL_ORDER| && o.trace == FULL_ORDER[..|o.trace|]
    ensures o.response.TokenIssued? ==> o.trace == FULL_ORDER
    ensures o.response.RateLimited? <==> |o.trace| == 7
    ensures o.limits == Check(l2, WalletKey(claimer), WALLET_LIMIT, WINDOW_MS, now).1
  {
    var pre := FULL_ORDER[..7];
    var (w, l3) := Check(l2, WalletKey(claimer), WALLET_LIMIT, WINDOW_MS, now);
    if !w.allowed then
      ClaimOutcome(RateLimited("Too many requests from this wallet, please wait a moment",
        RetryAfter(w.resetAt - now)), l3, pre)
    else match FetchDrop(dropAddress, env.parseKey, env.getAccount)
      case RpcError => ClaimOutcome(InternalError, l3, FULL_ORDER[..8])
      case RpcOk(None) => ClaimOutcome(NotFound("Drop not found"), l3, FULL_ORDER[..8])
      case RpcOk(Some(drop)) =>
        if !drop.isActive then ClaimOutcome(BadRequest("Drop is no longer active"), l3, FULL_ORDER[..9])
        else match DecideScore(drop.minFairscaleScore, env.fairScale(claimer))
          case ScoreFailed => ClaimOutcome(InternalError, l3, FULL_ORDER[..10])
          case ScoreBelow(required, actual) => ClaimOutcome(ScoreTooLow(required, actual), l3, FULL_ORDER[..10])
          case ScoreOk(score) =>
            match SignClaimToken(env.secret, env.crypto, now, drop.dropId, claimerKey, score)
            case Failure(_) => ClaimOutcome(InternalError, l3, FULL_ORDER)
            case Success(token) => ClaimOutcome(TokenIssued(token), l3, FULL_ORDER)
  }

  /** The steps after both rate limits let the request through: the body,
      the fields, the slug binding and the claimer address. */
  function AfterLimits(l2: map<string, Entry>, kv: map<string, StoredValue>, env: ClaimEnv,
                       body: Option<ClaimBody>, now: nat): (o: ClaimOutcome)
    ensures 3 <= |o.trace| <= |FULL_ORDER| && o.trace == FULL_ORDER[..|o.trace|]
    ensures o.response.TokenIssued? ==> o.trace == FULL_ORDER
    ensures o.response.RateLimited? <==> |o.trace| == 7
    ensures |o.trace| < 7 ==> o.limits == l2
    ensures |o.trace| >= 7 ==>
      && body.Some? && body.value.claimer.Some?
      && o.limits == Check(l2, WalletKey(body.value.claimer.value), WALLET_LIMIT, WINDOW_MS, now).1
  {
    if body.None? then ClaimOutcome(InternalError, l2, FULL_ORDER[..3])
    else
      var b := body.value;
      if !Present(b.dropAddress) || !Present(b.claimer) || !Present(b.slug) then
        ClaimOutcome(BadRequest("Missing required fields"), l2, FULL_ORDER[..4])
      else if Resolve(kv, b.slug.value) != Some(Text(b.dropAddress.value)) then
        ClaimOutcome(Forbidden("Invalid claim link"), l2, FULL_ORDER[..5])
      else match env.parseKey(b.claimer.value)
        case None => ClaimOutcome(BadRequest("Invalid claimer address"), l2, FULL_ORDER[..6])
        case Some(claimerKey) => AfterClaimer(l2, env, now, b.dropAddress.value, b.claimer.value, claimerKey)
  }

  /** Each check after the two first limits answers with its own response:
      a body that is not JSON 500 (the handler's catch), a missing drop
      address, claimer or slug 400, a slug not bound to the drop 403, and a
      claimer that is not a key 400; none of them charges the wallet counter. */
  lemma RejectionsBeforeWalletLimit(l2: map<string, Entry>, kv: map<string, StoredValue>, env: ClaimEnv,
                                    body: Option<ClaimBody>, now: nat)
    ensures var o := AfterLimits(l2, kv, env, body, now);
      && (body.None? ==> o.response == InternalError && o.limits == l2)
      && (body.Some? && !(Present(body.value.dropAddress) && Present(body.value.claimer) && Present(body.value.slug)) ==>
            o.response == BadRequest("Missing required fields") && o.limits == l2)
      && (body.Some? && Present(body.value.dropAddress) && Present(body.value.claimer) && Present(body.value.slug) ==>
            var b := body.value;
            && (Resolve(kv, b.slug.value) != Some(Text(b.dropAddress.value)) ==>
                  o.response == Forbidden("Invalid claim link") && o.limits == l2)
            && (Resolve(kv, b.slug.value) == Some(Text(b.dropAddress.value)) && env.parseKey(b.claimer.value).None? ==>
                  o.response == BadRequest("Invalid claimer address") && o.limits == l2))
  {
  }

  /** Each check after the wallet limit answers with its own response: a
      missing account 404, an inactive drop 400, a failed drop fetch, a failed
      score lookup under a minimum or a failed signing 500, a score under the
      minimum 403 with both numbers; otherwise the token, carrying the score
      `DecideScore` chose (the looked-up one whenever the lookup succeeded). */
  lemma ResponsesAfterWalletLimit(l2: map<string, Entry>, env: ClaimEnv, now: nat,
                                  dropAddress: string, claimer: string, claimerKey: Key)
    ensures var o := AfterClaimer(l2, env, now, dropAddress, claimer, claimerKey);
      var allowed := Check(l2, WalletKey(claimer), WALLET_LIMIT, WINDOW_MS, now).0.allowed;
      var f := FetchDrop(dropAddress, env.parseKey, env.getAccount);
      var active := f.RpcOk? && f.value.Some? && f.value.value.isActive;
      var d := if active then DecideScore(f.value.value.minFairscaleScore, env.fairScale(claimer)) else ScoreFailed;
      var signs := LoadBackendKeypair(env.secret, env.crypto).Success?;
      && (o.response == NotFound("Drop not found") <==> allowed && f == RpcOk(None))
      && (o.response == BadRequest("Drop is no longer active") <==>
            allowed && f.RpcOk? && f.value.Some? && !f.value.value.isActive)
      && (o.response == InternalError <==>
            allowed && (f.RpcError? || (active && (d.ScoreFailed? || (d.ScoreOk? && !signs)))))
      && (o.response.ScoreTooLow? <==> allowed && active && d.ScoreBelow?)
      && (o.response.ScoreTooLow? ==> o.response == ScoreTooLow(d.required, d.actual))
      && (o.response.TokenIssued? <==> allowed && active && d.ScoreOk? && signs)
      && (o.response.TokenIssued? ==> o.response.token.fairscaleScore == d.score)
      && (o.response.TokenIssued? && env.fairScale(claimer).RpcOk? ==>
            o.response.token.fairscaleScore == env.fairScale(claimer).value)
  {
  }

  /** The claim-token `POST` handler as a function of the limiter store, the
      slug store, the environment, the request and the clock. */
  function ClaimFlow(limits: map<string, Entry>, kv: map<string, StoredValue>, env: ClaimEnv,
                     req: ClaimRequest, now: nat): (o: ClaimOutcome)
    ensures GLOBAL_KEY in o.limits
    ensures forall k :: k in limits ==> k in o.limits
  {
    var (g, l1) := Check(limits, GLOBAL_KEY, GLOBAL_LIMIT, WINDOW_MS, now);
    if !g.allowed then
      ClaimOutcome(RateLimited("Server is busy, please try again later", RetryAfter(g.resetAt - now)), l1, FULL_ORDER[..1])
    else AfterGlobalLimit(l1, kv, env, req, now)
  }

  /** The handler from the per-address limit on, once the global limit let
      the request through. */
  function AfterGlobalLimit(limits: map<string, Entry>, kv: map<string, StoredValue>, env: ClaimEnv,
                            req: ClaimRequest, now: nat): (o: ClaimOutcome)
    ensures forall k :: k in limits ==> k in o.limits
  {
    var ip := GetClientIp(req.forwardedFor, req.realIp);
    var (i, l2) := Check(limits, IpKey(ip), IP_LIMIT, WINDOW_MS, now);
    if !i.allowed then
      ClaimOutcome(RateLimited("Too many requests from your IP, please wait a moment", RetryAfter(i.resetAt - now)), l2, FULL_ORDER[..2])
    else AfterLimits(l2, kv, env, req.body, now)
  }

  // ---------------------------------------------------------------------------
  // Properties of the decision

  /** The handler runs its steps in the fixed order and stops at the first
      that rejects: the steps run are always a leading part of the full order,
      and only a request that ran every step gets a token. */
  lemma StepsRunInOrder(limits: map<string, Entry>, kv: map<string, StoredValue>, env: ClaimEnv,
                        req: ClaimRequest, now: nat)
    ensures var o := ClaimFlow(limits, kv, env, req, now);
      && 1 <= |o.trace| <= |FULL_ORDER| && o.trace == FULL_ORDER[..|o.trace|]
      && (o.response.TokenIssued? ==> o.trace == FULL_ORDER)
      && (o.response.RateLimited? ==> o.trace in {FULL_ORDER[..1], FULL_ORDER[..2], FULL_ORDER[..7]})
  {
  }

  /** Everything a token requires: both global counters let the request
      through, the fields are present, the slug is bound to the drop, the
      claimer is a key, the wallet counter lets it through, the drop exists
      and is active, the score clears a positive minimum, and the token is
      the one signed for this drop's id, this claimer's key and that score. */
  lemma TokenOnlyWhenAllChecksPass(limits: map<string, Entry>, kv: map<string, StoredValue>, env: ClaimEnv,
                                   req: ClaimRequest, now: nat)
    requires ClaimFlow(limits, kv, env, req, now).response.TokenIssued?
    ensures var token := ClaimFlow(limits, kv, env, req, now).response.token;
      var ip := GetClientIp(req.forwardedFor, req.realIp);
      var (g, l1) := Check(limits, GLOBAL_KEY, GLOBAL_LIMIT, WINDOW_MS, now);
      var (i, l2) := Check(l1, IpKey(ip), IP_LIMIT, WINDOW_MS, now);
      && g.allowed && i.allowed && req.body.Some?
      && var b := req.body.value;
      && Present(b.dropAddress) && Present(b.claimer) && Present(b.slug)
      && Resolve(kv, b.slug.value) == Some(Text(b.dropAddress.value))
      && env.parseKey(b.claimer.value).Some?
      && Check(l2, WalletKey(b.claimer.value), WALLET_LIMIT, WINDOW_MS, now).0.allowed
      && var fetched := FetchDrop(b.dropAddress.value, env.parseKey, env.getAccount);
      && fetched.RpcOk? && fetched.value.Some?
      && var drop := fetched.value.value;
      && drop.isActive
      && (drop.minFairscaleScore > 0 ==> env.fairScale(b.claimer.value) == RpcOk(token.fairscaleScore)
                                          && token.fairscaleScore >= drop.minFairscaleScore)
      && SignClaimToken(env.secret, env.crypto, now, drop.dropId, env.parseKey(b.claimer.value).value,
                        token.fairscaleScore) == Success(token)
  {
  }

  /** The score threshold is inclusive: for a request that reaches the score
      step of an active drop with a positive minimum, a score equal to the
      minimum is signed, and any lower score is refused with the required and
      actual scores. */
  lemma ScoreThresholdInclusive(l2: map<string, Entry>, env: ClaimEnv, now: nat,
                                dropAddress: string, claimer: string, claimerKey: Key)
    requires Check(l2, WalletKey(claimer), WALLET_LIMIT, WINDOW_MS, now).0.allowed
    requires var f := FetchDrop(dropAddress, env.parseKey, env.getAccount);
      f.RpcOk? && f.value.Some? && f.value.value.isActive && f.value.value.minFairscaleScore > 0
      && env.fairScale(claimer).RpcOk?
    ensures var drop := FetchDrop(dropAddress, env.parseKey, env.getAccount).value.value;
      var score := env.fairScale(claimer).value;
      var o := AfterClaimer(l2, env, now, dropAddress, claimer, claimerKey);
      && (score < drop.minFairscaleScore <==> o.response == ScoreTooLow(drop.minFairscaleScore, score))
      && (score >= drop.minFairscaleScore && LoadBackendKeypair(env.secret, env.crypto).Success? ==>
            o.response.TokenIssued? && o.response.token.fairscaleScore == score)
  {
  }

  /** With no minimum score a failed lookup does not block the claim: the
      token is signed with score 0. */
  lemma NoMinimumDegradesToZero(l2: map<string, Entry>, env: ClaimEnv, now: nat,
                                dropAddress: string, claimer: string, claimerKey: Key)
    requires Check(l2, WalletKey(claimer), WALLET_LIMIT, WINDOW_MS, now).0.allowed
    requires var f := FetchDrop(dropAddress, env.parseKey, env.getAccount);
      f.RpcOk? && f.value.Some? && f.value.value.isActive && f.value.value.minFairscaleScore == 0
    requires env.fairScale(claimer).RpcError?
    requires LoadBackendKeypair(env.secret, env.crypto).Success?
    ensures var o := AfterClaimer(l2, env, now, dropAddress, claimer, claimerKey);
      o.response.TokenIssued? && o.response.token.fairscaleScore == 0
  {
  }

  /** A request whose slug is not bound to its drop address is refused with
      "Invalid claim link" before the claimer is parsed, before the wallet
      counter is touched and before the drop or the score is looked up. */
  lemma SlugMismatchStopsEarly(limits: map<string, Entry>, kv: map<string, StoredValue>, env: ClaimEnv,
                               req: ClaimRequest, now: nat)
    requires var ip := GetClientIp(req.forwardedFor, req.realIp);
      var (g, l1) := Check(limits, GLOBAL_KEY, GLOBAL_LIMIT, WINDOW_MS, now);
      g.allowed && Check(l1, IpKey(ip), IP_LIMIT, WINDOW_MS, now).0.allowed
    requires req.body.Some? && Present(req.body.value.dropAddress) && Present(req.body.value.claimer)
      && Present(req.body.value.slug)
    requires Resolve(kv, req.body.value.slug.value) != Some(Text(req.body.value.dropAddress.value))
    ensures var o := ClaimFlow(limits, kv, env, req, now);
      var ip := GetClientIp(req.forwardedFor, req.realIp);
      && o.response == Forbidden("Invalid claim link") && Status(o.response) == 403
      && o.trace == FULL_ORDER[..5]
      && o.limits == Check(Check(limits, GLOBAL_KEY, GLOBAL_LIMIT, WINDOW_MS, now).1, IpKey(ip), IP_LIMIT, WINDOW_MS, now).1
  {
  }

  /** The global and per-IP counters are charged for every request that
      reaches them, whatever happens afterwards; no counter other than the
      three keys of this request changes. */
  lemma CountersCharged(limits: map<string, Entry>, kv: map<string, StoredValue>, env: ClaimEnv,
                        req: ClaimRequest, now: nat)
    ensures var o := ClaimFlow(limits, kv, env, req, now);
      var ip := GetClientIp(req.forwardedFor, req.realIp);
      var (g, l1) := Check(limits, GLOBAL_KEY, GLOBAL_LIMIT, WINDOW_MS, now);
      && GLOBAL_KEY in o.limits && o.limits[GLOBAL_KEY] == l1[GLOBAL_KEY]
      && (g.allowed ==> IpKey(ip) in o.limits && o.limits[IpKey(ip)] == Check(l1, IpKey(ip), IP_LIMIT, WINDOW_MS, now).1[IpKey(ip)])
      && forall k :: k in limits && k != GLOBAL_KEY && k != IpKey(ip)
           && (req.body.None? || req.body.value.claimer.None? || k != WalletKey(req.body.value.claimer.value))
           ==> k in o.limits && o.limits[k] == limits[k]
  {
    var o := ClaimFlow(limits, kv, env, req, now);
    var ip := GetClientIp(req.forwardedFor, req.realIp);
    var (g, l1) := Check(limits, GLOBAL_KEY, GLOBAL_LIMIT, WINDOW_MS, now);
    var walletKey := if req.body.Some? && req.body.value.claimer.Some? then WalletKey(req.body.value.claimer.value)
                     else GLOBAL_KEY;
    var claimer := if req.body.Some? && req.body.value.claimer.Some? then req.body.value.claimer.value else "";
    LimiterKeysDistinct(ip, ip, claimer, claimer);
    if g.allowed {
      var (i, l2) := Check(l1, IpKey(ip), IP_LIMIT, WINDOW_MS, now);
      if i.allowed {
        var late := AfterLimits(l2, kv, env, req.body, now);
        assert o == late;
        assert late.limits == l2 || late.limits == Check(l2, walletKey, WALLET_LIMIT, WINDOW_MS, now).1;
      } else {
        assert o.limits == l2;
      }
    } else {
      assert o.limits == l1;
    }
  }

  /** A refusing counter was in a live window, and the refusal reports the
      end of that window. */
  lemma RefusedInLiveWindow(s: map<string, Entry>, key: string, limit: int, windowMs: int, now: int)
    requires !Check(s, key, limit, windowMs, now).0.allowed
    ensures key in s && now <= s[key].windowEnd
    ensures Check(s, key, limit, windowMs, now).0.resetAt == s[key].windowEnd
  {
  }

  /** A 429 after both first limits comes from the per-wallet counter. */
  lemma WalletRefusal(l2: map<string, Entry>, kv: map<string, StoredValue>, env: ClaimEnv,
                      body: Option<ClaimBody>, now: nat)
    requires AfterLimits(l2, kv, env, body, now).response.RateLimited?
    ensures body.Some? && body.value.claimer.Some?
    ensures var w := Check(l2, WalletKey(body.value.claimer.value), WALLET_LIMIT, WINDOW_MS, now).0;
      !w.allowed && AfterLimits(l2, kv, env, body, now).response.retryAfter == RetryAfter(w.resetAt - now)
  {
  }

  /** A refusal by a rate limit tells the client to wait until the window
      that refused it closes, rounded up to whole seconds, and never a
      negative time. */
  lemma RetryAfterCoversWindow(limits: map<string, Entry>, kv: map<string, StoredValue>, env: ClaimEnv,
                               req: ClaimRequest, now: nat)
    requires ClaimFlow(limits, kv, env, req, now).response.RateLimited?
    ensures var o := ClaimFlow(limits, kv, env, req, now);
      exists key :: key in limits && now <= limits[key].windowEnd
        && (o.response.retryAfter - 1) * 1000 < limits[key].windowEnd - now <= o.response.retryAfter * 1000
        && o.response.retryAfter >= 0
  {
    var o := ClaimFlow(limits, kv, env, req, now);
    var ip := GetClientIp(req.forwardedFor, req.realIp);
    var (g, l1) := Check(limits, GLOBAL_KEY, GLOBAL_LIMIT, WINDOW_MS, now);
    var key: string;
    if !g.allowed {
      RefusedInLiveWindow(limits, GLOBAL_KEY, GLOBAL_LIMIT, WINDOW_MS, now);
      key := GLOBAL_KEY;
    } else {
      LimiterKeysDistinct(ip, ip, "", "");
      var (i, l2) := Check(l1, IpKey(ip), IP_LIMIT, WINDOW_MS, now);
      if !i.allowed {
        RefusedInLiveWindow(l1, IpKey(ip), IP_LIMIT, WINDOW_MS, now);
        key := IpKey(ip);
      } else {
        assert o == AfterLimits(l2, kv, env, req.body, now);
        WalletRefusal(l2, kv, env, req.body, now);
        var claimer := req.body.value.claimer.value;
        LimiterKeysDistinct(ip, ip, claimer, claimer);
        RefusedInLiveWindow(l2, WalletKey(claimer), WALLET_LIMIT, WINDOW_MS, now);
        key := WalletKey(claimer);
      }
    }
    assert key in limits && limits[key].windowEnd - now >= 0;
    assert o.response.retryAfter == RetryAfter(limits[key].windowEnd - now);
  }

  // ---------------------------------------------------------------------------
  // The handler

  /** The claim-token `POST` handler against the shared limiter and slug store. */
  method PostClaimToken(limiter: RateLimiter, slugs: SlugStore, env: ClaimEnv, req: ClaimRequest, now: nat)
    returns (response: ClaimResponse)
    modifies limiter
    ensures var o := ClaimFlow(old(limiter.store), slugs.kv, env, req, now);
      response == o.response && limiter.store == o.limits
  {
    var globalLimit := limiter.CheckRateLimit(GLOBAL_KEY, GLOBAL_LIMIT, WINDOW_MS, now);
    if !globalLimit.allowed {
      return RateLimited("Server is busy, please try again later", RetryAfter(globalLimit.resetAt - now));
    }
    response := RespondAfterGlobalLimit(limiter, slugs, env, req, now);
  }

  /** The handler from the per-address limit on, once the global limit let
      the request through. */
  method RespondAfterGlobalLimit(limiter: RateLimiter, slugs: SlugStore, env: ClaimEnv, req: ClaimRequest, now: nat)
    returns (response: ClaimResponse)
    modifies limiter
    ensures var o := AfterGlobalLimit(old(limiter.store), slugs.kv, env, req, now);
      response == o.response && limiter.store == o.limits
  {
    var ip := GetClientIp(req.forwardedFor, req.realIp);
    var ipLimit := limiter.CheckRateLimit(IpKey(ip), IP_LIMIT, WINDOW_MS, now);
    if !ipLimit.allowed {
      return RateLimited("Too many requests from your IP, please wait a moment", RetryAfter(ipLimit.resetAt - now));
    }
    response := RespondAfterLimits(limiter, slugs, env, req.body, now);
  }

  /** The handler from the body on, once both limits let the request through. */
  method RespondAfterLimits(limiter: RateLimiter, slugs: SlugStore, env: ClaimEnv, body: Option<ClaimBody>, now: nat)
    returns (response: ClaimResponse)
    modifies limiter
    ensures var o := AfterLimits(old(limiter.store), slugs.kv, env, body, now);
      response == o.response && limiter.store == o.limits
  {
    if body.None? {
      return InternalError;
    }
    var b := body.value;
    if !Present(b.dropAddress) || !Present(b.claimer) || !Present(b.slug) {
      return BadRequest("Missing required fields");
    }
    var dropAddress, claimer, slug := b.dropAddress.value, b.claimer.value, b.slug.value;

    var slugValid := slugs.VerifySlug(slug, dropAddress);
    if !slugValid {
      return Forbidden("Invalid claim link");
    }

    var claimerKey := env.parseKey(claimer);
    if claimerKey.None? {
      return BadRequest("Invalid claimer address");
    }
    response := RespondAfterClaimer(limiter, env, now, dropAddress, claimer, claimerKey.value);
  }

  /** The handler from the per-wallet limit on. */
  method RespondAfterClaimer(limiter: RateLimiter, env: ClaimEnv, now: nat,
                             dropAddress: string, claimer: string, claimerKey: Key)
    returns (response: ClaimResponse)
    modifies limiter
    ensures var o := AfterClaimer(old(limiter.store), env, now, dropAddress, claimer, claimerKey);
      response == o.response && limiter.store == o.limits
  {
    var walletLimit := limiter.CheckRateLimit(WalletKey(claimer), WALLET_LIMIT, WINDOW_MS, now);
    if !walletLimit.allowed {
      return RateLimited("Too many requests from this wallet, please wait a moment", RetryAfter(walletLimit.resetAt - now));
    }

    var fetched := FetchDrop(dropAddress, env.parseKey, env.getAccount);
    if fetched.RpcError? {
      return InternalError;
    }
    if fetched.value.None? {
      return NotFound("Drop not found");
    }
    var drop := fetched.value.value;
    if !drop.isActive {
      return BadRequest("Drop is no longer active");
    }

    var fairscaleScore := 0;
    if drop.minFairscaleScore > 0 {
      var result := env.fairScale(claimer);
      if result.RpcError? {
        return InternalError;
      }
      fairscaleScore := result.value;
      if fairscaleScore < drop.minFairscaleScore {
        return ScoreTooLow(drop.minFairscaleScore, fairscaleScore);
      }
    } else {
      var result := env.fairScale(claimer);
      if result.RpcOk? {
        fairscaleScore := result.value;
      } else {
        fairscaleScore := 0;
      }
    }

    var claimToken := SignClaimToken(env.secret, env.crypto, now, drop.dropId, claimerKey, fairscaleScore);
    if claimToken.Failure? {
      return InternalError;
    }
    response := TokenIssued(claimToken.value);
  }
}
