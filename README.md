# FairDrop claim authorization, in Dafny

FairDrop lets a creator lock SOL or SPL tokens in an on-chain drop and share a
claim link; a wallet claims once, and only when its FairScale reputation score
reaches the drop's minimum. This project models the TypeScript side that
decides who may claim and what is signed:

- the byte layouts shared with the on-chain program: the 89-byte claim
  message, the claim and create-drop instruction payloads, and the `Drop` and
  `ClaimRecord` account decoders, with their round trips;
- the backend signer that stamps a claim token and signs the claim message;
- the in-memory fixed-window rate limiter and its periodic sweep;
- the slug store (slug to drop address, drop address to slug and creator);
- the three API routes: claim-token, create-slug and my-drops;
- the sign-in-with-wallet message and the browser hook that caches a signed
  session per wallet;
- the create-drop form's payload and score tiers, and the dashboard's filter,
  sort, paging, summary figures and card actions.

Every route is a pure function of the request, the store contents and the
outside world, and an imperative method that follows the handler's own early
returns is proved equal to it. The outside world is passed in as functions:
key parsing, account reads, the FairScale lookup, the clock, random bytes,
Ed25519 signing and verification, base58 and base64 decoding.

Files: `wrappers.dfy` (Option, Result), `bytes.dfy` (little-endian codecs as
`DataView` writes them), `strings.dfy` (the JavaScript string operations
used), `base64.dfy` (RFC 4648 sections 4 and 5), `sorting.dfy` (a stable sort
by key), `constants.dfy`, `program.dfy`, `signer.dfy`, `siws.dfy`,
`rate_limit.dfy`, `db.dfy`, `wallet_auth.dfy`, `claim_token.dfy`,
`create_slug.dfy`, `mydrop.dfy`, `create_drop_form.dfy`,
`drop_dashboard.dfy`.

## Model

| member | source | states |
|---|---|---|
| Bytes.WrapI64 | lib/program.ts:72 | `BigInt.asIntN(64, t)` lies in the signed 64-bit range and differs from t by a multiple of 2^64 |
| Bytes.U16RoundTrip | lib/program.ts:73 | reading back a `setUint16` gives the value modulo 2^16 |
| Bytes.U32RoundTrip | components/CreateDropForm.tsx:206 | reading back a `setUint32` gives the value modulo 2^32 |
| Bytes.U64RoundTrip | components/CreateDropForm.tsx:205 | reading back a `setBigUint64` gives the value modulo 2^64 |
| Bytes.I64RoundTrip | lib/program.ts:72 | `getBigInt64` after `setBigInt64` gives the 64-bit wrap of the value, and the value itself when it is in range |
| Bytes.LeValueInjective | lib/program.ts:173-176 | two byte strings of one length that read as the same number are equal |
| Bytes.SetAt | lib/program.ts:69-71 | `Uint8Array.set(src, off)` replaces exactly the bytes off..off+\|src\| with src and leaves the rest |
| Strings.ReplaceChar | lib/wallet-auth.tsx:25-26 | a global one-character replace keeps the length and changes exactly the matching positions |
| Strings.RemoveChar | lib/wallet-auth.tsx:27 | removing a character leaves no occurrence of it and keeps every other character as often as it occurs; a one-character string loses exactly that character, and with the append lemma the kept characters stay in order |
| Strings.RemoveCharAppend | lib/wallet-auth.tsx:27 | removal distributes over concatenation |
| Strings.PadEnd | app/api/mydrop/route.ts:78 | `padEnd` keeps the string as a prefix, fills the rest with the pad character, and leaves longer strings alone |
| Strings.FirstField | app/api/claim-token/route.ts:16 | `split(sep)[0]` is the longest prefix without sep, ended by sep or the end of the string |
| Strings.Trim | app/api/claim-token/route.ts:16 | `trim` returns a piece of the string that starts where the leading white space ends and neither starts nor ends with JavaScript white space |
| Strings.TrimParts | app/api/claim-token/route.ts:16 | the string is its leading JavaScript white space, then the `trim` result, then trailing JavaScript white space |
| Strings.TrimStart | app/api/claim-token/route.ts:16 | the result is a suffix, everything cut off is white space, and it does not start with white space |
| Strings.TrimEnd | app/api/claim-token/route.ts:16 | the result is a prefix, everything cut off is white space, and it does not end with white space |
| Strings.DecimalString | lib/program.ts:293-303 | a whole number renders as decimal digits that denote it, with no leading zero |
| Base64.Encode | lib/wallet-auth.tsx:30-32 | `btoa` output has 4·⌈n/3⌉ characters, all from the standard alphabet or `=` |
| Base64.Digits | lib/wallet-auth.tsx:30-32 | the unpadded digits of n bytes are ⌈4n/3⌉ characters of the standard alphabet |
| Base64.EncodeUrl | lib/db.ts:19 | base64url has ⌈4n/3⌉ characters, all URL-safe |
| Base64.UrlDigitsBack | app/api/mydrop/route.ts:77 | swapping `-` and `_` back in base64url text gives the standard digits |
| Constants.PrefixEncoding | lib/program.ts:64-65 | the claim prefix is 15 ASCII characters and encodes to the fixed 15 bytes the builder relies on |
| Constants.DiscriminatorsDistinct | lib/constants.ts:48-51 | the four instruction discriminators are 8 bytes each and pairwise different |
| Constants.FeeWalletOffset | lib/constants.ts:31-33 | the fee wallet starts after the 8-byte discriminator and the 32-byte authority |
| Constants.FeeIsOnePercent | lib/constants.ts:29 | 100 basis points of an amount is one percent of it, rounded down |
| Sorting.SortByKey | lib/program.ts:270 | the result is a permutation of the input with keys in ascending order |
| Program.ClaimMessage | lib/program.ts:58-76 | the claim message of any four inputs is 89 bytes; its fields are placed by the layout lemma |
| Program.BuildClaimMessage | lib/program.ts:58-76 | the fresh 89-byte buffer holds exactly the claim message of the four inputs |
| Program.ClaimMessageLayout | lib/program.ts:64-73 | prefix at 0..15, drop id at 15..47, claimer at 47..79, timestamp reading back as its i64 wrap at 79..87, score as its u16 wrap at 87..89 |
| Program.ClaimMessageInjective | lib/program.ts:58-76 | two claim messages with in-range numbers are equal only when drop id, claimer, timestamp and score all are |
| Program.ClaimIxData | lib/program.ts:98-102 | the claim instruction data is 18 bytes |
| Program.BuildClaimIxData | lib/program.ts:98-102 | the fresh 18-byte buffer is the claim discriminator, the i64 timestamp and the u16 score |
| Program.ClaimIxRebuildsMessage | lib/program.ts:92-102 | the timestamp and score the program reads out of the claim instruction rebuild exactly the message the backend signed |
| Program.DropLayout | lib/program.ts:151-162 | the field widths of the drop account add up to 125 and the offsets are their running sums |
| Program.DecodeDrop | lib/program.ts:164-197 | decoding fails exactly when the account is shorter than 125 bytes; a decoded drop has its address, u64/u32/u16 fields in range and the derived flags |
| Program.DecodeDropFields | lib/program.ts:164-178 | any account of at least 125 bytes decodes with creator, drop id and mint at 8, 40 and 72, the little-endian amount, max claims, current claims and minimum score at 104, 112, 116 and 120, the native and canceled flags set exactly by the byte 1 at 122 and 123, and the bytes past 125 ignored |
| Program.ExactlyOneStatus | lib/program.ts:180-195 | a decoded drop is exactly one of active, ended and canceled; an active one has claims left; a canceled one has none |
| Program.ParseDropAccount | lib/program.ts:164-197 | walking the `off` cursor gives the same result as the decoder |
| Program.DropRoundTrip | lib/program.ts:164-197 | decoding the stored layout of any in-range drop gives its fields and the derived ones back |
| Program.WithDerived | lib/program.ts:177-195 | the stored fields and the address are copied; exactly one of active, ended and canceled holds; an active drop has claims left, an ended one none, a canceled one 0 |
| Program.FetchDrop | lib/program.ts:201-209 | an unparsable address gives no drop and no error; a parsed address whose account is missing gives no drop; an RPC failure surfaces only when the address parses; an existing account gives exactly the drop decoded from its data |
| Program.ClaimRecordLayout | lib/program.ts:233-239 | the claim record widths add up to 89 with offsets 40, 72 and 80 for claimer, time and amount |
| Program.ClaimRecordRoundTrip | lib/program.ts:253-267 | a history item decoded from a stored claim record carries its claimer, claim time, amount and the given signature |
| Program.DecodeClaimRecord | lib/program.ts:254-267 | a decoded item has the claimer bytes at 40..72 and the given signature, a claim time in the signed and an amount in the unsigned 64-bit range |
| Program.DecodeRecords | lib/program.ts:253-268 | item i carries the claimer, claim time and amount read from account i's data at 40, 72 and 80, and account i's newest signature |
| Program.DecodeRecordsOfEncoded | lib/program.ts:253-268 | accounts holding stored records decode, item by item, to those records' claimer, time and amount with their account's signature |
| Program.ClaimHistory | lib/program.ts:241-271 | an unparseable drop address gives no items; otherwise every record appears once and the list is in ascending claim time |
| Program.DecodeDrops | lib/program.ts:219-221 | a drop is kept exactly when some account decodes to it, every kept drop is well formed, and a single account gives its drop or nothing |
| Program.DecodeDropsAppend | lib/program.ts:219-221 | decoding a concatenation is the concatenation of the decodings, so the kept drops are in account order |
| Program.Rank | lib/program.ts:226 | rank 0 exactly for an active drop, 1 exactly for an ended one that is not active, and for a decoded drop 2 exactly for a canceled one |
| Program.ListedBeforePreorder | lib/program.ts:224-229 | the comparator's order (rank ascending, then remaining claims descending) is reflexive, total and transitive |
| Program.SortKeyOrdersLikeComparator | lib/program.ts:224-229 | the integer sort key orders drops as the comparator does: by status rank, then by remaining claims descending |
| Program.DropsByCreator | lib/program.ts:211-230 | the creator's drops are a permutation of the decoded accounts, active first, then ended, then canceled, more remaining claims first within a status |
| Program.AgeOf | lib/program.ts:290-304 | each of the twelve buckets is chosen exactly for its range of elapsed seconds (bounds 5, 60, 120, 3600, 7200, 86400, 172800, 604800, 1209600, 2592000 and 5184000), and a counted bucket's number is the elapsed time in its unit, rounded down |
| Program.AgeMonotone | lib/program.ts:290-304 | a longer elapsed time never gives a younger bucket or a smaller count in the same bucket |
| Program.AgeText | lib/program.ts:291-303 | "just now" exactly for the youngest bucket; every other text ends in " ago" |
| Program.TimeAgo | lib/program.ts:290-304 | "just now" exactly when fewer than 5 seconds have passed; otherwise the text ends in " ago" |
| Program.TimeAgoRanges | lib/program.ts:290-304 | each range of elapsed whole seconds gives its text: "just now", "N seconds ago", "a minute ago", "N minutes ago", "an hour ago", "N hours ago", "a day ago", "N days ago", "a week ago", "N weeks ago", "a month ago", "N months ago", with N the elapsed time in that unit rounded down |
| Signer.LoadBackendKeypair | lib/signer.ts:17-21 | an unset or empty secret fails as not set; otherwise the key pair is the one decoded from the secret, when it decodes |
| Signer.SignClaimToken | lib/signer.ts:30-54 | the token fails exactly when the key pair does; its timestamp is the current second, its score the one given, its signature base58 of the signature over the claim message of those values, and its public key base58 of the key pair's |
| Signer.TokenCoversClaim | lib/signer.ts:36-46 | the signed message is the one the client rebuilds from the token and the one the program rebuilds from the claim instruction |
| Signer.DistinctClaimsDistinctMessages | lib/signer.ts:36-44 | claims that differ in drop, claimer, second or score are signed over different messages |
| Siws.BuildSignInMessage | lib/siws.ts:1-17 | the message is the three-line base, followed by the issued-at line exactly when issuedAt is present and non-empty |
| Siws.BaseIsPrefix | lib/siws.ts:7-14 | the base is always a prefix, and an empty issuedAt gives the same message as none |
| Siws.SignInMessageInjective | lib/siws.ts:1-17 | for one domain and wallet, nonces without line breaks and the same presence of issuedAt, equal messages mean equal nonce and issuedAt |
| RateLimit.Check | lib/rate-limit.ts:26-41 | after a check the key has an entry and every other key is untouched |
| RateLimit.FreshWindow | lib/rate-limit.ts:30-33 | with no entry or an expired one, the call is allowed with limit−1 remaining and opens a new window of count 1 |
| RateLimit.LiveWindow | lib/rate-limit.ts:35-40 | in a live window a full count is refused with 0 remaining and no change; otherwise the count goes up by one and remaining is the limit minus the new count |
| RateLimit.AllowedWithinWindow | lib/rate-limit.ts:26-41 | inside one live window at most limit−count further calls are allowed |
| RateLimit.ThreeThenRefused | lib/rate-limit.ts:26-41 | with limit 3 the first three calls in a window are allowed with 2, 1, 0 remaining and the fourth is refused until the first call's window ends |
| RateLimit.Swept | lib/rate-limit.ts:8-13 | the sweep keeps exactly the unexpired entries, unchanged |
| RateLimit.SweepUnobservable | lib/rate-limit.ts:8-13 | a check gives the same result and the same entry for its key whether or not a sweep ran first |
| RateLimit.RateLimiter.constructor | lib/rate-limit.ts:6 | the store starts empty |
| RateLimit.RateLimiter.CheckRateLimit | lib/rate-limit.ts:26-41 | the result and the new store are those of the check on the old store |
| RateLimit.RateLimiter.Sweep | lib/rate-limit.ts:8-13 | the loop deletes exactly the expired entries |
| Db.SlugKey | lib/db.ts:8 | the key is the slug prefix followed by the slug |
| Db.MetaKey | lib/db.ts:9 | the key is the meta prefix followed by the drop address |
| Db.KeysSeparate | lib/db.ts:8-9 | slug keys never equal meta keys, and each kind of key determines its slug or address |
| Db.GenerateSlug | lib/db.ts:16-20 | a slug is 12 URL-safe characters |
| Db.SlugIsWholeEncoding | lib/db.ts:16-20 | the 12-character cut keeps the whole base64url encoding of the 9 random bytes |
| Db.Resolve | lib/db.ts:38-40 | a slug resolves exactly when its key is stored, to the stored value |
| Db.SlugStore.constructor | lib/db.ts:3-6 | the store holds the given contents |
| Db.SlugStore.SaveSlug | lib/db.ts:24-34 | both keys are written: the slug resolves to the drop address and the drop's meta names the slug and the creator |
| Db.SlugStore.ResolveSlug | lib/db.ts:38-40 | the read is the resolution against the current store |
| Db.SlugStore.VerifySlug | lib/db.ts:42-45 | true exactly when the slug is stored with that drop address |
| Db.SlugStore.GetSlugsByCreator | lib/db.ts:47-69 | the result maps exactly the listed addresses whose meta is a well-formed record of this creator to their slugs |
| Db.SaveThenRead | lib/db.ts:24-69 | after a save the slug verifies for that drop only, and a later lookup lists the drop with its slug exactly when the asker is the creator |
| WalletAuth.StripToUrl | lib/wallet-auth.tsx:24-27 | the three rewrites turn padded standard base64 into unpadded base64url, for any byte count |
| WalletAuth.GenerateNonce | lib/wallet-auth.tsx:21-28 | a nonce is 16 URL-safe characters |
| WalletAuth.NonceShape | lib/wallet-auth.tsx:21-28 | a nonce is the 16-character base64url encoding of its 12 random bytes, with no `+`, `/` or `=` |
| WalletAuth.CacheKey | lib/wallet-auth.tsx:34-36 | the key is the `auth:` prefix followed by the wallet address |
| WalletAuth.CacheKeyInjective | lib/wallet-auth.tsx:34-36 | two wallets share a cache key only when they are the same wallet |
| WalletAuth.GetCachedAuth | lib/wallet-auth.tsx:38-45 | a stored session is returned as that session; another truthy JSON value is returned as such; a missing entry, text that is not JSON, or a falsy JSON value gives nothing |
| WalletAuth.RemoveIsLocal | lib/wallet-auth.tsx:53-57 | removing one wallet's session removes it and leaves every other wallet's session |
| WalletAuth.WalletAuthHook.constructor | lib/wallet-auth.tsx:69-78 | the hook starts with no wallet, no session, no error, not signing and trigger 0 |
| WalletAuth.WalletAuthHook.OnPublicKey | lib/wallet-auth.tsx:80-91 | the current wallet becomes the new key, the session is that wallet's cached one, and the error is cleared |
| WalletAuth.WalletAuthHook.OnConnectionState | lib/wallet-auth.tsx:99-105 | a disconnected, not disconnecting wallet loses its cached and current session; otherwise nothing changes |
| WalletAuth.WalletAuthHook.OnExpiredEvent | lib/wallet-auth.tsx:108-120 | an expiry for the current wallet removes its session, clears the error and bumps the re-sign trigger; any other expiry changes nothing |
| WalletAuth.WalletAuthHook.NotifyAuthExpired | lib/wallet-auth.tsx:62-67 | the wallet's cache entry is removed in every case; for the current wallet the session and the error are cleared and the re-sign trigger goes up by one, for any other wallet both stay; the wallet, connection, disconnecting, aborted and signing flags never change |
| WalletAuth.WalletAuthHook.RunSignEffect | lib/wallet-auth.tsx:122-138 | a sign request goes out exactly when a connected wallet with a signer has nothing truthy cached; it signs the sign-in message for a fresh nonce |
| WalletAuth.WalletAuthHook.OnSignSuccess | lib/wallet-auth.tsx:140-155 | unless stale, the base64 signature, nonce and issued-at are cached for the wallet and become the session |
| WalletAuth.WalletAuthHook.OnSignFailure | lib/wallet-auth.tsx:156-174 | unless stale, the error is recorded and signing stops; the cache is never touched |
| WalletAuth.WalletAuthHook.Unmount | lib/wallet-auth.tsx:93-97 | unmounting only marks later results as aborted |
| WalletAuth.WalletAuthHook.ClearAuth | lib/wallet-auth.tsx:178-189 | with a wallet, its cached and current session and the error are cleared; without one nothing changes |
| WalletAuth.StaleResultIgnored | lib/wallet-auth.tsx:142-144 | a signature that arrives after the wallet switched is not cached and does not become the session |
| ClaimTokenRoute.IpKey | app/api/claim-token/route.ts:36 | the per-IP key is "ip:" followed by the address |
| ClaimTokenRoute.WalletKey | app/api/claim-token/route.ts:68 | the per-wallet key is "wallet:" followed by the claimer |
| ClaimTokenRoute.LimiterKeysDistinct | app/api/claim-token/route.ts:27-68 | the global, per-IP and per-wallet counters never share a key, and two addresses (or two claimers) share a counter only when they are equal |
| ClaimTokenRoute.GetClientIp | app/api/claim-token/route.ts:14-20 | with a forwarded header the IP holds no comma, neither starts nor ends with white space and uses only the header's characters; else the real-IP header; else "unknown" |
| ClaimTokenRoute.ForwardedClientIp | app/api/claim-token/route.ts:16 | with a forwarded header the IP is exactly its first comma-separated entry with the white space at both ends removed: the entry is white space, the IP, white space |
| ClaimTokenRoute.PlainForwardedHeader | app/api/claim-token/route.ts:14-20 | a forwarded header holding a single address without white space gives that address |
| ClaimTokenRoute.RetryAfter | app/api/claim-token/route.ts:31 | `Math.ceil(ms / 1000)` is the whole number of seconds covering ms |
| ClaimTokenRoute.DecideScore | app/api/claim-token/route.ts:81-95 | with a minimum, a failed lookup is an error and a score below it is refused, the minimum itself passing; without one, a failed lookup counts as 0 |
| ClaimTokenRoute.AfterLimits | app/api/claim-token/route.ts:44-104 | after the first two limits the steps run in order, a token means every step ran, and the wallet counter is charged only once the claimer parsed |
| ClaimTokenRoute.AfterClaimer | app/api/claim-token/route.ts:67-104 | from the wallet limit on the steps run in order, a 429 exactly when the wallet counter refuses, and the wallet counter is charged once |
| ClaimTokenRoute.ResponsesAfterWalletLimit | app/api/claim-token/route.ts:67-104 | once the wallet counter allows: 404 "Drop not found" exactly for a missing drop, 400 "Drop is no longer active" exactly for an inactive one, 500 exactly on a failed fetch, a failed score lookup under a positive minimum or a failed signing, 403 with required and actual score exactly when the score is too low, and otherwise a token carrying the decided score, which is the looked-up score whenever the lookup succeeded (0 when it failed without a minimum) |
| ClaimTokenRoute.RejectionsBeforeWalletLimit | app/api/claim-token/route.ts:44-65 | an unparsable body is 500, a missing drop address, claimer or slug 400 "Missing required fields", an unbound slug 403 "Invalid claim link", an unparsable claimer 400 "Invalid claimer address", none of them charging the wallet counter |
| ClaimTokenRoute.ClaimFlow | app/api/claim-token/route.ts:22-109 | every request charges the global counter, and no counter is ever removed |
| ClaimTokenRoute.StepsRunInOrder | app/api/claim-token/route.ts:22-109 | the step labels of every outcome are a leading part of the eleven steps; a token carries all of them; a 429 ends at one of the three limit steps |
| ClaimTokenRoute.TokenOnlyWhenAllChecksPass | app/api/claim-token/route.ts:22-104 | a token is issued only when all three limits allow, the fields are present, the slug is bound to the drop, the claimer parses, the drop exists and is active, the score reaches the minimum, and the token is the signer's for that drop, claimer and score |
| ClaimTokenRoute.ScoreThresholdInclusive | app/api/claim-token/route.ts:83-92 | a score below the minimum is refused with 403 carrying required and actual; a score equal to or above it gets a token carrying that score |
| ClaimTokenRoute.NoMinimumDegradesToZero | app/api/claim-token/route.ts:93-95 | for a drop without a minimum a failed score lookup still gives a token, with score 0 |
| ClaimTokenRoute.SlugMismatchStopsEarly | app/api/claim-token/route.ts:56-61 | a slug not bound to the drop gives 403 "Invalid claim link" after five steps, with only the global and IP counters charged |
| ClaimTokenRoute.CountersCharged | app/api/claim-token/route.ts:26-74 | the global counter is always charged, the IP counter once the global limit allows, and no other counter than those and the claimer's changes |
| ClaimTokenRoute.RefusedInLiveWindow | lib/rate-limit.ts:29-36 | a refusal happens only for a key with an entry whose window has not ended, and reports that window's end |
| ClaimTokenRoute.WalletRefusal | app/api/claim-token/route.ts:67-73 | a 429 after the first two limits means a claimer was given and the per-wallet counter refused, with Retry-After computed from its reset time |
| ClaimTokenRoute.RetryAfterCoversWindow | app/api/claim-token/route.ts:28-73 | a 429's Retry-After is the number of whole seconds until the refusing counter's window ends |
| ClaimTokenRoute.PostClaimToken | app/api/claim-token/route.ts:22-109 | the handler's response and the limiter's new store are those of the claim flow |
| ClaimTokenRoute.RespondAfterGlobalLimit | app/api/claim-token/route.ts:24-104 | once the global limit allows, the response and the new store are those of the per-IP limit and the steps after it |
| ClaimTokenRoute.RespondAfterLimits | app/api/claim-token/route.ts:44-104 | once the global and IP limits allow, the response and the new store are those of the flow's remaining steps |
| ClaimTokenRoute.RespondAfterClaimer | app/api/claim-token/route.ts:67-104 | once the claimer parsed, the response and the new store are those of the wallet limit, drop, activity and score steps |
| CreateSlugRoute.FirstFree | app/api/create-slug/route.ts:28-35 | the first free candidate among the six looked up, with every earlier one taken, or none when all six are taken |
| CreateSlugRoute.Validate | app/api/create-slug/route.ts:8-25 | the checks pass exactly when both fields are non-empty, both addresses parse, the drop exists on-chain and its creator is the caller; otherwise 400 "Missing required fields", 400 "Invalid address", 500 on a failed fetch, 404 "Drop not found on-chain" or 403 "Not the creator of this drop", in that order |
| CreateSlugRoute.CreateSlugFlow | app/api/create-slug/route.ts:6-43 | a slug is created exactly when the checks pass and one of the six looked-up candidates is free; the new store then maps the slug to the drop and the drop to its slug and creator, with every other key unchanged; any other outcome leaves the store as it was |
| CreateSlugRoute.GivesUpOnlyWhenAllTaken | app/api/create-slug/route.ts:28-35 | after the checks, 500 "Failed to generate unique slug" comes exactly when all six looked-up candidates are taken, and then nothing is written |
| CreateSlugRoute.CreatedSlugIsFreshAndBound | app/api/create-slug/route.ts:19-38 | a created slug belongs to a drop fetched on-chain whose creator is the caller, was unused, is the first unused candidate, now resolves to the drop only, and the drop's meta names it and the creator |
| CreateSlugRoute.RejectionLeavesStore | app/api/create-slug/route.ts:11-25 | a rejected request writes nothing |
| CreateSlugRoute.PostCreateSlug | app/api/create-slug/route.ts:6-43 | the handler's loop gives the store and response of the create-slug flow |
| MyDropRoute.NormalizeSignature | app/api/mydrop/route.ts:76-79 | the repaired signature has a length that is a multiple of four, at most three longer, with no `-` or `_` |
| MyDropRoute.NormalizeKeepsStandard | app/api/mydrop/route.ts:76-79 | standard padded base64 is left unchanged |
| MyDropRoute.NormalizeRepairsUrl | app/api/mydrop/route.ts:76-79 | unpadded base64url of any bytes becomes exactly their padded standard base64 |
| MyDropRoute.Freshness | app/api/mydrop/route.ts:43-67 | a message without an issued-at time always passes; a failure is a 400 or a 403 |
| MyDropRoute.FreshnessWindow | app/api/mydrop/route.ts:43-67 | a message passes with no issued-at or one between seven days ago and one minute ahead, both ends included; unparsable is 400 "Invalid issuedAt format", older 403 "Signature expired", further ahead 400 "Invalid timestamp" |
| MyDropRoute.Decide | app/api/mydrop/route.ts:11-98 | a request is accepted only with all fields, a parseable wallet, a fresh message, and a 64-byte signature that verifies over the rebuilt sign-in message with the wallet's key |
| MyDropRoute.HasRequiredFields | app/api/mydrop/route.ts:26 | the fields are missing exactly when the wallet, signature or nonce is absent or empty, or the drop addresses are not an array |
| MyDropRoute.DecideRejections | app/api/mydrop/route.ts:9-112 | unparsable body 500, missing field 400, bad wallet 400, a freshness failure its own response (unparsable issued-at 400), a signature not decoding to 64 bytes 500 (the verifier throws), a wrong signature 403 |
| MyDropRoute.ServerChecksWhatBrowserSigned | app/api/mydrop/route.ts:73-98 | for the browser's request with its 64-byte signature, and a base64 decoder that inverts encoding, the server verifies exactly the message the browser signed and the signature bytes it sent |
| MyDropRoute.PostMyDrop | app/api/mydrop/route.ts:9-114 | a rejection is the decision's response; an accepted request gets exactly the creator's slugs for the listed drops |
| CreateDropForm.CreateDropData | components/CreateDropForm.tsx:200-208 | the create-drop payload is 55 bytes |
| CreateDropForm.CreateDropSlices | components/CreateDropForm.tsx:200-208 | discriminator at 0..8, drop id at 8..40, u64 total at 40..48, u32 max claims at 48..52, u16 minimum score at 52..54, native flag at 54 |
| CreateDropForm.DecodeCreateDrop | components/CreateDropForm.tsx:200-208 | a payload reads back only when it is 55 bytes with the create-drop discriminator, and every number is within its field width |
| CreateDropForm.CreateDropRoundTrip | components/CreateDropForm.tsx:200-208 | reading the payload gives every argument back, each number reduced to its field width, an unparseable max claims as 0 |
| CreateDropForm.CreateDropInjective | components/CreateDropForm.tsx:200-208 | payloads of in-range arguments are equal only for equal arguments |
| CreateDropForm.BuildCreateDropData | components/CreateDropForm.tsx:200-208 | advancing the cursor field by field fills the fresh buffer with exactly the payload |
| CreateDropForm.Bars | components/CreateDropForm.tsx:65-72 | at most five bars are filled, and none only for "open to all" |
| CreateDropForm.Tier | components/CreateDropForm.tsx:33-41 | "open to all" exactly for a minimum of 0 |
| CreateDropForm.TierRanges | components/CreateDropForm.tsx:33-63 | 0 bars at 0, then 1 below 100, 2 below 300, 3 below 600, 4 below 850, 5 from 850 |
| CreateDropForm.TierMonotone | components/CreateDropForm.tsx:48-63 | a larger non-zero minimum never shows fewer bars |
| DropDashboard.Keep | components/DropDashboard.tsx:405-409 | `filter` keeps exactly the elements satisfying the predicate, each as often as in the input |
| DropDashboard.Reverse | components/DropDashboard.tsx:411 | `reverse` puts element i at position n−1−i |
| DropDashboard.ReverseSameElements | components/DropDashboard.tsx:411 | reversing keeps the same elements |
| DropDashboard.FilterDrops | components/DropDashboard.tsx:403-413 | the list holds exactly the drops passing the status and token filters; "newest" keeps the fetched order, "oldest" reverses it, "most claimed" orders by claims descending |
| DropDashboard.TotalPages | components/DropDashboard.tsx:417 | the fewest pages of six that hold every item |
| DropDashboard.Paginated | components/DropDashboard.tsx:418 | a page holds at most six items, the ones at its positions in the list |
| DropDashboard.PageNonEmpty | components/DropDashboard.tsx:417-418 | a page has items exactly when its number is at most the page count |
| DropDashboard.ItemOnItsPage | components/DropDashboard.tsx:417-418 | item i is shown on page ⌊i/6⌋+1 at position i mod 6 |
| DropDashboard.PrevPage | components/DropDashboard.tsx:521 | the previous button goes one page back, and stays on page 1 from page 1 |
| DropDashboard.NextPage | components/DropDashboard.tsx:536 | the next button goes one page on below the last page, and to the last page from the last page or beyond it (a reload after a cancel or close can leave the page past the end) |
| DropDashboard.PrevUndoesNext | components/DropDashboard.tsx:521-536 | within the page range, previous after next and next after previous return to the page |
| DropDashboard.ActiveCount | components/DropDashboard.tsx:419 | the active figure is at most the number of drops |
| DropDashboard.ActiveCountMatchesTab | components/DropDashboard.tsx:419 | the active figure is the number of drops the Active tab lists |
| DropDashboard.TotalClaims | components/DropDashboard.tsx:420 | the claims total of one drop is its claims, and the total is 0 exactly when no drop has a claim |
| DropDashboard.TotalClaimsAppend | components/DropDashboard.tsx:420 | the claims total adds up over any split of the list |
| DropDashboard.TotalClaimsBoundsEach | components/DropDashboard.tsx:420 | the claims total is at least each drop's claims |
| DropDashboard.ShowCancel | components/DropDashboard.tsx:314 | cancel is offered only on an active drop, and on every active decoded drop |
| DropDashboard.ShowClose | components/DropDashboard.tsx:326 | close is offered on a decoded drop exactly when it is not active |
| DropDashboard.OneActionPerCard | components/DropDashboard.tsx:314-335 | a decoded drop's card offers cancel exactly while active and close exactly when not active |

## Left out

- Program-derived addresses (`lib/pda.ts`): the SHA-256 off-curve search is not modelled; addresses are given.
- Ed25519 signing and verification, base58 and base64 decoding, and `new PublicKey` parsing are functions passed in. Only one property of them is assumed: MyDropRoute.ServerChecksWhatBrowserSigned requires that the base64 decoder inverts standard base64 encoding. Nothing is assumed about the signing and verification functions.
- ClaimTokenRoute.ClaimEnv: the FairScale score is modelled as an integer. `data.fair_score ?? 0` (lib/fairscale.ts:30) may be fractional. In that case `setUint16` truncates it in the signed message and in the claim instruction (lib/program.ts:73 and 102), while the token and the 403 body carry the fraction. The threshold decision is the same for integer minima.
- Redis, `localStorage`, the ledger RPC, the FairScale HTTP API and JSON: the stores are maps, and every remote call is a function returning a value or an error. In `lib/fairscale.ts:24` a 404 already becomes score 0 inside the lookup, so the route sees it as a successful 0.
- The transaction account lists (lib/program.ts:104-147, components/DropDashboard.tsx:142-210, components/CreateDropForm.tsx:210-256): only the byte payloads are modelled.
- Floating-point amount maths: the fee, net and per-claim previews, `Math.floor(totalFloat * LAMPORTS_PER_SOL)` and display percentages. The create-drop payload takes the total in base units.
- Timers and concurrency: the sweep's `setInterval` is a method taking `now`; the handler's awaits run one after another; the dashboard's `setTimeout` retry is not modelled.
- Each request reads the clock once, as `now`. The source calls `Date.now()` separately for the limiter and for Retry-After, a few milliseconds apart.
- RateLimit.Check: the entry `count++` mutates in place; the model replaces the map value, which no other holder of the entry can observe.
- RateLimit.Check: a limit of 0 is never configured; for it the first call of a window is still allowed with remaining −1, as in the source.
- Db.SlugStore.GetSlugsByCreator: a meta value stored as a plain string is treated as malformed and skipped. In the source, a string holding valid meta JSON would be parsed; `saveSlug` never stores one.
- Body fields that are not strings (numbers, objects) are not modelled; a field is absent, empty or a string.
- MyDropRoute.Decide: the "Invalid signature format" 400 (app/api/mydrop/route.ts:80-85) is not modelled. `Buffer.from(s, "base64")` never throws, so that branch cannot be reached.
- Sorting.SortByKey: sorts by an integer key and is stable by construction. Stability is not stated as a property. `Array.prototype.sort` is stable since ES2019.
- Program.ClaimHistory: `Number(getBigInt64(...))` loses precision above 2^53. Claim times are kept exact, which is the same for any real Unix time.
- DropDashboard.FilterDrops: `list.sort` and `list.reverse` work in place on a copied array. The model reassigns a sequence, which no one else can observe because the array is a fresh copy.
- WalletAuth.WalletAuthHook: `reauthenticate` (lib/wallet-auth.tsx:187-189) only calls `clearAuth`, so ClearAuth models both. The `console` logging in the failure handler is left out.
- The claim message is 89 bytes, with the timestamp at bytes 79..87 before the score at 87..89; a comment at lib/signer.ts:38 says 96.
- create-slug looks up six candidates before giving up, and draws a seventh that it never looks up.
