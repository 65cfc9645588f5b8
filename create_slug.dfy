/** The create-slug endpoint: checks that the caller created the drop, then
    draws random slugs until one is unused (giving up after the sixth taken
    one) and saves it. The random draws are passed in. */
module CreateSlugRoute {
  import opened Wrappers
  import opened Bytes
  import opened Program
  import opened Db

  datatype CreateSlugBody = CreateSlugBody(dropAddress: Option<string>, creator: Option<string>)

  datatype CreateSlugResponse =
    | SlugCreated(slug: string)
    | BadRequest(error: string)
    | Forbidden(error: string)
    | NotFound(error: string)
    | ServerError(error: string)

  /** The key parser, the account fetch, and the base58 text of a key (the
      stored creator is compared as text with the request's creator). */
  datatype CreateSlugEnv = CreateSlugEnv(
    parseKey: string -> Option<Key>,
    getAccount: Key -> Rpc<Option<seq<Byte>>>,
    keyText: Key -> string)

  /** Draws that can feed the retry loop: seven slugs' worth of random bytes. */
  predicate EnoughDraws(draws: seq<seq<Byte>>) {
    |draws| >= 7 && forall i :: 0 <= i < |draws| ==> |draws[i]| == 9
  }

  function Candidate(draws: seq<seq<Byte>>, j: nat): string
    requires EnoughDraws(draws) && j < |draws|
  {
    GenerateSlug(draws[j])
  }

  /** The first of the candidates `j..5` that is not in use, if any. */
  function FirstFree(kv: map<string, StoredValue>, draws: seq<seq<Byte>>, j: nat): (r: Option<nat>)
    requires EnoughDraws(draws) && j <= 6
    ensures r.Some? ==> j <= r.value < 6 && Resolve(kv, Candidate(draws, r.value)).None?
    ensures r.Some? ==> forall i :: j <= i < r.value ==> Resolve(kv, Candidate(draws, i)).Some?
    ensures r.None? ==> forall i :: j <= i < 6 ==> Resolve(kv, Candidate(draws, i)).Some?
    decreases 6 - j
  {
    if j == 6 then None
    else if Resolve(kv, Candidate(draws, j)).None? then Some(j)
    else FirstFree(kv, draws, j + 1)
  }

  /** The checks before the retry loop; `None` when the request may have a
      slug: both fields given, both addresses keys, the drop on-chain, and
      the caller its creator. Each failure has its own response. */
  function Validate(env: CreateSlugEnv, body: Option<CreateSlugBody>): (r: Option<CreateSlugResponse>)
    ensures r.None? <==>
      && body.Some? && Present(body.value.dropAddress) && Present(body.value.creator)
      && env.parseKey(body.value.dropAddress.value).Some? && env.parseKey(body.value.creator.value).Some?
      && var fetched := FetchDrop(body.value.dropAddress.value, env.parseKey, env.getAccount);
      && fetched.RpcOk? && fetched.value.Some?
      && env.keyText(fetched.value.value.creator) == body.value.creator.value
    ensures body.None? ==> r == Some(ServerError("Internal server error"))
    ensures body.Some? && !(Present(body.value.dropAddress) && Present(body.value.creator)) ==>
      r == Some(BadRequest("Missing required fields"))
    ensures body.Some? && Present(body.value.dropAddress) && Present(body.value.creator) ==>
      var b := body.value;
      var fetched := FetchDrop(b.dropAddress.value, env.parseKey, env.getAccount);
      && (env.parseKey(b.dropAddress.value).None? || env.parseKey(b.creator.value).None? ==>
            r == Some(BadRequest("Invalid address")))
      && (env.parseKey(b.dropAddress.value).Some? && env.parseKey(b.creator.value).Some? ==>
            && (fetched.RpcError? ==> r == Some(ServerError("Internal server error")))
            && (fetched == RpcOk(None) ==> r == Some(NotFound("Drop not found on-chain")))
            && (fetched.RpcOk? && fetched.value.Some? && env.keyText(fetched.value.value.creator) != b.creator.value ==>
                  r == Some(Forbidden("Not the creator of this drop"))))
  {
    if body.None? then Some(ServerError("Internal server error"))
    else
      var b := body.value;
      if !Present(b.dropAddress) || !Present(b.creator) then
        Some(BadRequest("Missing required fields"))
      else if env.parseKey(b.dropAddress.value).None? || env.parseKey(b.creator.value).None? then
        Some(BadRequest("Invalid address"))
      else match FetchDrop(b.dropAddress.value, env.parseKey, env.getAccount)
        case RpcError => Some(ServerError("Internal server error"))
        case RpcOk(None) => Some(NotFound("Drop not found on-chain"))
        case RpcOk(Some(drop)) =>
          if env.keyText(drop.creator) != b.creator.value then Some(Forbidden("Not the creator of this drop"))
          else None
  }

  /** The create-slug `POST` handler as a function of the store, the
      environment, the body and the draws: its response and the new store. */
  function CreateSlugFlow(kv: map<string, StoredValue>, env: CreateSlugEnv, body: Option<CreateSlugBody>,
                          draws: seq<seq<Byte>>): (r: (map<string, StoredValue>, CreateSlugResponse))
    requires EnoughDraws(draws)
    ensures r.1.SlugCreated? <==> Validate(env, body).None? && FirstFree(kv, draws, 0).Some?
    ensures !r.1.SlugCreated? ==> r.0 == kv
    ensures r.1.SlugCreated? ==>
      && body.Some? && Present(body.value.dropAddress) && Present(body.value.creator)
      && var dropAddress, creator := body.value.dropAddress.value, body.value.creator.value;
         r.0 == kv[SlugKey(r.1.slug) := Text(dropAddress)][MetaKey(dropAddress) := MetaRecord(DropMeta(r.1.slug, creator))]
  {
    match Validate(env, body)
    case Some(rejection) => (kv, rejection)
    case None =>
      var dropAddress, creator := body.value.dropAddress.value, body.value.creator.value;
      match FirstFree(kv, draws, 0)
      case None => (kv, ServerError("Failed to generate unique slug"))
      case Some(j) =>
        var slug := Candidate(draws, j);
        (kv[SlugKey(slug) := Text(dropAddress)][MetaKey(dropAddress) := MetaRecord(DropMeta(slug, creator))],
         SlugCreated(slug))
  }

  /** The handler gives up exactly when all six looked-up candidates are in
      use, and then the store is unchanged. */
  lemma GivesUpOnlyWhenAllTaken(kv: map<string, StoredValue>, env: CreateSlugEnv, body: Option<CreateSlugBody>,
                                draws: seq<seq<Byte>>)
    requires EnoughDraws(draws) && Validate(env, body).None?
    ensures var (kv', r) := CreateSlugFlow(kv, env, body, draws);
      && (r == ServerError("Failed to generate unique slug") <==>
            forall i :: 0 <= i < 6 ==> Resolve(kv, Candidate(draws, i)).Some?)
      && (r.ServerError? ==> kv' == kv)
  {
  }

  /** A created slug was free before, is the first free candidate, and
      afterwards resolves to the drop, so the claim-token endpoint accepts it
      for this drop and no other; the drop's meta records the slug and its
      creator. */
  lemma CreatedSlugIsFreshAndBound(kv: map<string, StoredValue>, env: CreateSlugEnv, body: Option<CreateSlugBody>,
                                   draws: seq<seq<Byte>>, other: string)
    requires EnoughDraws(draws)
    requires CreateSlugFlow(kv, env, body, draws).1.SlugCreated?
    ensures var (kv', r) := CreateSlugFlow(kv, env, body, draws);
      var dropAddress, creator := body.value.dropAddress.value, body.value.creator.value;
      && Validate(env, body).None?
      && (var fetched := FetchDrop(dropAddress, env.parseKey, env.getAccount);
          fetched.RpcOk? && fetched.value.Some? && env.keyText(fetched.value.value.creator) == creator)
      && Resolve(kv, r.slug).None?
      && (exists j :: 0 <= j < 6 && r.slug == Candidate(draws, j)
            && forall i :: 0 <= i < j ==> Resolve(kv, Candidate(draws, i)).Some?)
      && (Resolve(kv', r.slug) == Some(Text(other)) <==> other == dropAddress)
      && kv'[MetaKey(dropAddress)] == MetaRecord(DropMeta(r.slug, creator))
  {
    var dropAddress := body.value.dropAddress.value;
    var r := CreateSlugFlow(kv, env, body, draws).1;
    KeysSeparate(r.slug, r.slug, dropAddress, dropAddress);
  }

  /** A request that fails a check before the loop leaves the store as it was. */
  lemma RejectionLeavesStore(kv: map<string, StoredValue>, env: CreateSlugEnv, body: Option<CreateSlugBody>,
                             draws: seq<seq<Byte>>)
    requires EnoughDraws(draws) && Validate(env, body).Some?
    ensures CreateSlugFlow(kv, env, body, draws) == (kv, Validate(env, body).value)
    ensures !Validate(env, body).value.SlugCreated?
  {
  }

  /** The create-slug `POST` handler against the shared slug store. */
  method PostCreateSlug(store: SlugStore, env: CreateSlugEnv, body: Option<CreateSlugBody>, draws: seq<seq<Byte>>)
    returns (response: CreateSlugResponse)
    requires EnoughDraws(draws)
    modifies store
    ensures (store.kv, response) == CreateSlugFlow(old(store.kv), env, body, draws)
  {
    var rejection := Validate(env, body);
    if rejection.Some? {
      return rejection.value;
    }
    var dropAddress, creator := body.value.dropAddress.value, body.value.creator.value;

    var slug := GenerateSlug(draws[0]);
    var attempts := 0;
    while store.ResolveSlug(slug) != None
      invariant 0 <= attempts <= 5
      invariant slug == Candidate(draws, attempts)
      invariant FirstFree(store.kv, draws, 0) == FirstFree(store.kv, draws, attempts)
      invariant store.kv == old(store.kv)
      decreases 5 - attempts
    {
      slug := GenerateSlug(draws[attempts + 1]);
      attempts := attempts + 1;
      if attempts > 5 {
        return ServerError("Failed to generate unique slug");
      }
    }

    store.SaveSlug(slug, dropAddress, creator);
    response := SlugCreated(slug);
  }
}
