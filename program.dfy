/** The client's view of the on-chain program: the claim message that the
    backend signs and the program re-checks, the claim instruction payload,
    the decoding of `Drop` and `ClaimRecord` accounts, the ordering of drop
    and claim lists, and the "time ago" label. */
module Program {
  import opened Wrappers
  import opened Bytes
  import opened Constants
  import Sorting
  import Strings

  /** A 32-byte public key (`PublicKey.toBytes()`). Keys are kept as bytes;
      their base58 text is a bijective rendering and is not modelled. */
  type Key = k: seq<Byte> | |k| == 32 witness seq(32, _ => 0)

  // ---------------------------------------------------------------------------
  // Claim message

  /** The length `buildClaimMessage` allocates: prefix, dropId, claimer,
      timestamp, score. */
  const CLAIM_MESSAGE_LEN: nat := 89

  /** The signed claim message, as `buildClaimMessage` lays it out: the ASCII
      prefix at 0..15, the drop id at 15..47, the claimer at 47..79, the
      timestamp as a little-endian i64 at 79..87 and the score as a
      little-endian u16 at 87..89. */
  function ClaimMessage(dropId: seq<Byte>, claimer: Key, timestamp: int, score: int): (m: seq<Byte>)
    requires |dropId| == 32
    ensures |m| == CLAIM_MESSAGE_LEN
  {
    CLAIM_MESSAGE_PREFIX_BYTES + dropId + claimer + I64Bytes(timestamp) + U16Bytes(score)
  }

  /** `(prefix + rest)` after `set(src, |prefix|)`. */
  lemma SetAfterPrefix(prefix: seq<Byte>, src: seq<Byte>, rest: seq<Byte>)
    requires |src| <= |rest|
    ensures (prefix + rest)[..|prefix|] + src + (prefix + rest)[|prefix| + |src|..]
            == prefix + src + rest[|src|..]
  {
    assert (prefix + rest)[..|prefix|] == prefix;
    assert (prefix + rest)[|prefix| + |src|..] == rest[|src|..];
  }

  /** `buildClaimMessage`: writes the fields into a fresh zeroed buffer. */
  method BuildClaimMessage(dropId: seq<Byte>, claimer: Key, timestamp: int, fairscaleScore: int)
    returns (msg: array<Byte>)
    requires |dropId| == 32
    ensures fresh(msg)
    ensures msg[..] == ClaimMessage(dropId, claimer, timestamp, fairscaleScore)
  {
    var prefix := CLAIM_MESSAGE_PREFIX_BYTES;
    var prefixLen := |prefix|;
    msg := new Byte[CLAIM_MESSAGE_LEN](_ => 0);
    ghost var zeros := msg[..];
    SetAt(msg, 0, prefix);
    assert msg[..] == prefix + zeros[15..];
    SetAt(msg, prefixLen, dropId);
    SetAfterPrefix(prefix, dropId, zeros[15..]);
    assert msg[..] == prefix + dropId + zeros[47..];
    SetAt(msg, prefixLen + 32, claimer);
    SetAfterPrefix(prefix + dropId, claimer, zeros[47..]);
    assert msg[..] == prefix + dropId + claimer + zeros[79..];
    SetAt(msg, prefixLen + 64, I64Bytes(timestamp));
    SetAfterPrefix(prefix + dropId + claimer, I64Bytes(timestamp), zeros[79..]);
    assert msg[..] == prefix + dropId + claimer + I64Bytes(timestamp) + zeros[87..];
    SetAt(msg, prefixLen + 72, U16Bytes(fairscaleScore));
    SetAfterPrefix(prefix + dropId + claimer + I64Bytes(timestamp), U16Bytes(fairscaleScore), zeros[87..]);
  }

  /** Each part of a five-part concatenation sits at the running offset. */
  lemma FieldsOfConcat(a: seq<Byte>, b: seq<Byte>, c: seq<Byte>, d: seq<Byte>, e: seq<Byte>)
    ensures var m := a + b + c + d + e;
      && m[..|a|] == a
      && m[|a|..|a| + |b|] == b
      && m[|a| + |b|..|a| + |b| + |c|] == c
      && m[|a| + |b| + |c|..|a| + |b| + |c| + |d|] == d
      && m[|a| + |b| + |c| + |d|..] == e
  {
    var a1 := a + b;
    var a2 := a1 + c;
    var a3 := a2 + d;
    var m := a3 + e;
    assert m[..|a3|] == a3 && m[|a3|..] == e;
    assert a3[..|a2|] == a2 && a3[|a2|..] == d;
    assert a2[..|a1|] == a1 && a2[|a1|..] == c;
    assert a1[..|a|] == a && a1[|a|..] == b;
  }

  /** The five fields of the claim message, each at its offset. */
  lemma ClaimMessageSlices(dropId: seq<Byte>, claimer: Key, timestamp: int, score: int)
    requires |dropId| == 32
    ensures var m := ClaimMessage(dropId, claimer, timestamp, score);
      && m[..15] == CLAIM_MESSAGE_PREFIX_BYTES
      && m[15..47] == dropId
      && m[47..79] == claimer
      && m[79..87] == I64Bytes(timestamp)
      && m[87..89] == U16Bytes(score)
  {
    FieldsOfConcat(CLAIM_MESSAGE_PREFIX_BYTES, dropId, claimer, I64Bytes(timestamp), U16Bytes(score));
  }

  lemma NumberFieldValues(m: seq<Byte>, timestamp: int, score: int)
    requires |m| == CLAIM_MESSAGE_LEN
    requires m[79..87] == I64Bytes(timestamp) && m[87..89] == U16Bytes(score)
    ensures I64Value(m[79..87]) == WrapI64(timestamp)
    ensures LeValue(m[87..89]) == score % TWO16
  {
    I64RoundTrip(timestamp);
    U16RoundTrip(score);
  }

  /** Where each field of the claim message sits and what it decodes to:
      the timestamp reads back as its i64 wrap, the score as its u16 wrap. */
  lemma ClaimMessageLayout(dropId: seq<Byte>, claimer: Key, timestamp: int, score: int)
    requires |dropId| == 32
    ensures var m := ClaimMessage(dropId, claimer, timestamp, score);
      && m[..15] == CLAIM_MESSAGE_PREFIX_BYTES
      && m[15..47] == dropId
      && m[47..79] == claimer
      && I64Value(m[79..87]) == WrapI64(timestamp)
      && LeValue(m[87..89]) == score % TWO16
  {
    ClaimMessageSlices(dropId, claimer, timestamp, score);
    NumberFieldValues(ClaimMessage(dropId, claimer, timestamp, score), timestamp, score);
  }

  /** The message determines every field it carries: two messages over values
      in the field ranges (i64 timestamp, u16 score) are equal only when all
      four fields are, so altering any one field alters the message. */
  lemma ClaimMessageInjective(d1: seq<Byte>, c1: Key, t1: int, s1: int,
                              d2: seq<Byte>, c2: Key, t2: int, s2: int)
    requires |d1| == 32 && |d2| == 32
    requires -(TWO63 as int) <= t1 < TWO63 && -(TWO63 as int) <= t2 < TWO63
    requires 0 <= s1 < TWO16 && 0 <= s2 < TWO16
    requires ClaimMessage(d1, c1, t1, s1) == ClaimMessage(d2, c2, t2, s2)
    ensures d1 == d2 && c1 == c2 && t1 == t2 && s1 == s2
  {
    ClaimMessageLayout(d1, c1, t1, s1);
    ClaimMessageLayout(d2, c2, t2, s2);
    I64RoundTrip(t1);
    I64RoundTrip(t2);
  }

  // ---------------------------------------------------------------------------
  // Claim instruction payload

  const CLAIM_IX_DATA_LEN: nat := 18

  /** The claim instruction data: discriminator, timestamp (i64 LE), score (u16 LE). */
  function ClaimIxData(timestamp: int, score: int): (r: seq<Byte>)
    ensures |r| == CLAIM_IX_DATA_LEN
  {
    DISC_CLAIM_DROP + I64Bytes(timestamp) + U16Bytes(score)
  }

  /** The packing in `buildClaimTransaction`: an 18-byte buffer written through a `DataView`. */
  method BuildClaimIxData(timestamp: int, fairscaleScore: int) returns (ixData: array<Byte>)
    ensures fresh(ixData)
    ensures ixData[..] == ClaimIxData(timestamp, fairscaleScore)
  {
    ixData := new Byte[8 + 8 + 2](_ => 0);
    ghost var zeros := ixData[..];
    SetAt(ixData, 0, DISC_CLAIM_DROP);
    assert ixData[..] == DISC_CLAIM_DROP + zeros[8..];
    SetAt(ixData, 8, I64Bytes(timestamp));
    SetAfterPrefix(DISC_CLAIM_DROP, I64Bytes(timestamp), zeros[8..]);
    assert ixData[..] == DISC_CLAIM_DROP + I64Bytes(timestamp) + zeros[16..];
    SetAt(ixData, 16, U16Bytes(fairscaleScore));
    SetAfterPrefix(DISC_CLAIM_DROP + I64Bytes(timestamp), U16Bytes(fairscaleScore), zeros[16..]);
  }

  lemma WrapI64SameBytes(t: int)
    ensures I64Bytes(WrapI64(t)) == I64Bytes(t)
  {
    var u := t % TWO64;
    DivModUnique(u, TWO64, 0, u);
    if u >= TWO63 {
      DivModUnique(u - TWO64, TWO64, -1, u);
    }
  }

  lemma U16SameBytes(s: int)
    ensures U16Bytes(s % TWO16) == U16Bytes(s)
  {
    var u := s % TWO16;
    DivModUnique(u, TWO16, 0, u);
  }

  /** The claim instruction carries exactly what the on-chain verifier needs:
      the program decodes discriminator, timestamp and score from the
      instruction data and, with the drop id and claimer it already knows,
      rebuilds byte for byte the message given to the Ed25519 instruction. */
  lemma ClaimIxRebuildsMessage(dropId: seq<Byte>, claimer: Key, timestamp: int, score: int)
    requires |dropId| == 32
    ensures var ix := ClaimIxData(timestamp, score);
      && ix[..8] == DISC_CLAIM_DROP
      && ClaimMessage(dropId, claimer, I64Value(ix[8..16]), LeValue(ix[16..18]))
         == ClaimMessage(dropId, claimer, timestamp, score)
  {
    var ix := ClaimIxData(timestamp, score);
    assert ix[8..16] == I64Bytes(timestamp);
    assert ix[16..18] == U16Bytes(score);
    I64RoundTrip(timestamp);
    U16RoundTrip(score);
    WrapI64SameBytes(timestamp);
    U16SameBytes(score);
  }

  // ---------------------------------------------------------------------------
  // Drop account

  /** The documented field widths of a `Drop` account: discriminator, creator,
      drop id, token mint, amount per claim, max claims, current claims,
      minimum score, native flag, canceled flag, bump. */
  const DROP_FIELD_WIDTHS: seq<nat> := [8, 32, 32, 32, 8, 4, 4, 2, 1, 1, 1]
  /** Where each of those fields starts, and the end of the record. */
  const DROP_FIELD_OFFSETS: seq<nat> := [0, 8, 40, 72, 104, 112, 116, 120, 122, 123, 124, 125]

  /** The offsets the decoder uses are the running sums of the widths, and
      the widths add up to the account size. */
  lemma DropLayout()
    ensures |DROP_FIELD_OFFSETS| == |DROP_FIELD_WIDTHS| + 1
    ensures forall k :: 0 <= k < |DROP_FIELD_WIDTHS| ==>
      DROP_FIELD_OFFSETS[k + 1] == DROP_FIELD_OFFSETS[k] + DROP_FIELD_WIDTHS[k]
    ensures Sum(DROP_FIELD_WIDTHS) == DROP_ACCOUNT_SIZE
  {
    RunningSums(DROP_FIELD_WIDTHS, DROP_FIELD_OFFSETS, 0);
  }

  /** The fields a `Drop` account stores. */
  datatype StoredDrop = StoredDrop(
    creator: Key, dropId: Key, tokenMint: Key,
    amountPerClaim: nat, maxClaims: nat, currentClaims: nat,
    minFairscaleScore: nat, isNativeSol: bool, isCanceled: bool)

  /** `DropInfo`: the stored fields plus the derived claim state. */
  datatype DropInfo = DropInfo(
    address: string, creator: Key, dropId: Key, tokenMint: Key,
    amountPerClaim: nat, maxClaims: nat, currentClaims: nat, remainingClaims: int,
    minFairscaleScore: nat, isNativeSol: bool, isCanceled: bool,
    isActive: bool, isEnded: bool)

  /** The record `parseDropAccount` returns for the stored fields. */
  function WithDerived(address: string, d: StoredDrop): (r: DropInfo)
    ensures && r.address == address && r.creator == d.creator && r.dropId == d.dropId
            && r.tokenMint == d.tokenMint && r.amountPerClaim == d.amountPerClaim
            && r.maxClaims == d.maxClaims && r.currentClaims == d.currentClaims
            && r.minFairscaleScore == d.minFairscaleScore && r.isNativeSol == d.isNativeSol
            && r.isCanceled == d.isCanceled
    ensures (r.isActive && !r.isEnded && !r.isCanceled)
         || (!r.isActive && r.isEnded && !r.isCanceled)
         || (!r.isActive && !r.isEnded && r.isCanceled)
    ensures r.isActive ==> r.remainingClaims > 0
    ensures r.isEnded ==> r.remainingClaims <= 0
    ensures r.isCanceled ==> r.remainingClaims == 0
  {
    DropInfo(address, d.creator, d.dropId, d.tokenMint,
      d.amountPerClaim, d.maxClaims, d.currentClaims,
      if d.isCanceled then 0 else d.maxClaims - d.currentClaims,
      d.minFairscaleScore, d.isNativeSol, d.isCanceled,
      !d.isCanceled && d.currentClaims < d.maxClaims,
      !d.isCanceled && d.currentClaims >= d.maxClaims)
  }

  /** The stored fields read at their offsets; a flag is set only by the byte 1. */
  function ReadDrop(raw: seq<Byte>): StoredDrop
    requires |raw| >= DROP_ACCOUNT_SIZE
  {
    StoredDrop(raw[8..40], raw[40..72], raw[72..104],
      LeValue(raw[104..112]), LeValue(raw[112..116]), LeValue(raw[116..120]),
      LeValue(raw[120..122]), raw[122] == 1, raw[123] == 1)
  }

  /** `parseDropAccount`: absent for a buffer shorter than the account size,
      longer buffers are accepted and their tail ignored. */
  function DecodeDrop(address: string, raw: seq<Byte>): (r: Option<DropInfo>)
    ensures r.None? <==> |raw| < DROP_ACCOUNT_SIZE
    ensures r.Some? ==> r.value.address == address && DecodedShape(r.value)
  {
    if |raw| < DROP_ACCOUNT_SIZE then None
    else
      var d := ReadDrop(raw);
      LeValueRanges(raw[104..112], raw[112..116], raw[116..120], raw[120..122]);
      Some(WithDerived(address, d))
  }

  /** Any account of at least the account size decodes, each field read at
      its offset (a flag set only by the byte 1), and bytes past the account
      size are ignored. */
  lemma DecodeDropFields(address: string, raw: seq<Byte>)
    requires |raw| >= DROP_ACCOUNT_SIZE
    ensures DecodeDrop(address, raw).Some?
    ensures var d := DecodeDrop(address, raw).value;
      && d.address == address
      && d.creator == raw[8..40] && d.dropId == raw[40..72] && d.tokenMint == raw[72..104]
      && d.amountPerClaim == LeValue(raw[104..112])
      && d.maxClaims == LeValue(raw[112..116]) && d.currentClaims == LeValue(raw[116..120])
      && d.minFairscaleScore == LeValue(raw[120..122])
      && d.isNativeSol == (raw[122] == 1) && d.isCanceled == (raw[123] == 1)
    ensures DecodeDrop(address, raw) == DecodeDrop(address, raw[..DROP_ACCOUNT_SIZE])
  {
    var head := raw[..DROP_ACCOUNT_SIZE];
    assert head[8..40] == raw[8..40] && head[40..72] == raw[40..72] && head[72..104] == raw[72..104];
    assert head[104..112] == raw[104..112] && head[112..116] == raw[112..116];
    assert head[116..120] == raw[116..120] && head[120..122] == raw[120..122];
    assert ReadDrop(head) == ReadDrop(raw);
  }

  lemma LeValueRanges(a: seq<Byte>, b: seq<Byte>, c: seq<Byte>, e: seq<Byte>)
    requires |a| == 8 && |b| == 4 && |c| == 4 && |e| == 2
    ensures LeValue(a) < TWO64 && LeValue(b) < TWO32 && LeValue(c) < TWO32 && LeValue(e) < TWO16
  {
    Pow256Values();
  }

  /** What holds of every decoded drop: the counters are in their u32/u16/u64
      ranges and the derived state is consistent (remaining claims forced to 0
      when canceled, otherwise max minus current; exactly one of active,
      ended and canceled). */
  ghost predicate DecodedShape(d: DropInfo) {
    && d.amountPerClaim < TWO64 && d.maxClaims < TWO32 && d.currentClaims < TWO32
    && d.minFairscaleScore < TWO16
    && d.remainingClaims == (if d.isCanceled then 0 else d.maxClaims - d.currentClaims)
    && d.isActive == (!d.isCanceled && d.currentClaims < d.maxClaims)
    && d.isEnded == (!d.isCanceled && d.currentClaims >= d.maxClaims)
  }

  /** Exactly one of active, ended and canceled holds of a decoded drop, and
      an active drop has claims left. */
  lemma ExactlyOneStatus(d: DropInfo)
    requires DecodedShape(d)
    ensures (d.isActive && !d.isEnded && !d.isCanceled)
         || (!d.isActive && d.isEnded && !d.isCanceled)
         || (!d.isActive && !d.isEnded && d.isCanceled)
    ensures d.isActive ==> d.remainingClaims > 0
    ensures d.isCanceled ==> d.remainingClaims == 0
  {
  }

  /** `parseDropAccount` itself: a cursor walks the buffer field by field. */
  method ParseDropAccount(address: string, raw: seq<Byte>) returns (r: Option<DropInfo>)
    ensures r == DecodeDrop(address, raw)
  {
    if |raw| < DROP_ACCOUNT_SIZE {
      return None;
    }
    var off := 8;
    var creator := raw[off..off + 32]; off := off + 32;
    var dropId := raw[off..off + 32]; off := off + 32;
    var tokenMint := raw[off..off + 32]; off := off + 32;
    var amountPerClaim := LeValue(raw[off..off + 8]); off := off + 8;
    var maxClaims := LeValue(raw[off..off + 4]); off := off + 4;
    var currentClaims := LeValue(raw[off..off + 4]); off := off + 4;
    var minFairscaleScore := LeValue(raw[off..off + 2]); off := off + 2;
    var isNativeSol := raw[off] == 1; off := off + 1;
    var isCanceled := raw[off] == 1;
    var remainingClaims: int := if isCanceled then 0 else maxClaims as int - currentClaims;
    r := Some(DropInfo(address, creator, dropId, tokenMint,
      amountPerClaim, maxClaims, currentClaims, remainingClaims,
      minFairscaleScore, isNativeSol, isCanceled,
      !isCanceled && currentClaims < maxClaims,
      !isCanceled && currentClaims >= maxClaims));
  }

  /** The on-chain encoding of a `Drop` account (discriminator, fields, bump). */
  function EncodeDrop(d: StoredDrop, disc: seq<Byte>, bump: Byte): (raw: seq<Byte>)
    requires |disc| == 8
    ensures |raw| == DROP_ACCOUNT_SIZE
  {
    disc + d.creator + d.dropId + d.tokenMint
      + U64Bytes(d.amountPerClaim) + U32Bytes(d.maxClaims) + U32Bytes(d.currentClaims)
      + U16Bytes(d.minFairscaleScore)
      + [if d.isNativeSol then 1 else 0, if d.isCanceled then 1 else 0, bump]
  }

  ghost predicate StoredInRange(d: StoredDrop) {
    d.amountPerClaim < TWO64 && d.maxClaims < TWO32 && d.currentClaims < TWO32
    && d.minFairscaleScore < TWO16
  }

  /** Decoding an encoded account gives back every stored field, whatever the
      discriminator and bump, and the derived state follows from them. */
  lemma DropRoundTrip(address: string, d: StoredDrop, disc: seq<Byte>, bump: Byte)
    requires |disc| == 8 && StoredInRange(d)
    ensures DecodeDrop(address, EncodeDrop(d, disc, bump)) == Some(WithDerived(address, d))
  {
    var raw := EncodeDrop(d, disc, bump);
    assert raw[8..40] == d.creator;
    assert raw[40..72] == d.dropId;
    assert raw[72..104] == d.tokenMint;
    assert raw[104..112] == U64Bytes(d.amountPerClaim);
    assert raw[112..116] == U32Bytes(d.maxClaims);
    assert raw[116..120] == U32Bytes(d.currentClaims);
    assert raw[120..122] == U16Bytes(d.minFairscaleScore);
    U64RoundTrip(d.amountPerClaim);
    U32RoundTrip(d.maxClaims);
    U32RoundTrip(d.currentClaims);
    U16RoundTrip(d.minFairscaleScore);
    DivModUnique(d.amountPerClaim, TWO64, 0, d.amountPerClaim);
    DivModUnique(d.maxClaims, TWO32, 0, d.maxClaims);
    DivModUnique(d.currentClaims, TWO32, 0, d.currentClaims);
    DivModUnique(d.minFairscaleScore, TWO16, 0, d.minFairscaleScore);
    assert ReadDrop(raw) == d;
  }

  /** The answer of a remote call: a value, or a failure (a thrown error). */
  datatype Rpc<T> = RpcOk(value: T) | RpcError

  /** `fetchDrop` with the key parser and `getAccountInfo` passed in: nothing
      for an address that is not a key, for a missing account and for one too
      short to be a drop; a failing account fetch fails the call. */
  function FetchDrop(dropAddress: string, parseKey: string -> Option<Key>,
                     getAccount: Key -> Rpc<Option<seq<Byte>>>): (r: Rpc<Option<DropInfo>>)
    ensures r.RpcError? <==> parseKey(dropAddress).Some? && getAccount(parseKey(dropAddress).value).RpcError?
    ensures r.RpcOk? && r.value.Some? ==>
      && parseKey(dropAddress).Some?
      && var data := getAccount(parseKey(dropAddress).value);
      && data.RpcOk? && data.value.Some?
      && r.value == DecodeDrop(dropAddress, data.value.value)
    ensures parseKey(dropAddress).None? ==> r == RpcOk(None)
    ensures parseKey(dropAddress).Some? && getAccount(parseKey(dropAddress).value) == RpcOk(None) ==> r == RpcOk(None)
    ensures parseKey(dropAddress).Some? ==>
      var account := getAccount(parseKey(dropAddress).value);
      account.RpcOk? && account.value.Some? ==> r == RpcOk(DecodeDrop(dropAddress, account.value.value))
  {
    match parseKey(dropAddress)
    case None => RpcOk(None)
    case Some(key) =>
      match getAccount(key)
      case RpcError => RpcError
      case RpcOk(None) => RpcOk(None)
      case RpcOk(Some(data)) => RpcOk(DecodeDrop(dropAddress, data))
  }

  // ---------------------------------------------------------------------------
  // Claim records and claim history

  /** The fields a `ClaimRecord` account stores. */
  datatype StoredClaimRecord = StoredClaimRecord(drop: Key, claimer: Key, claimedAt: int, amount: nat)

  /** `ClaimHistoryItem`; `txSig` is the newest signature for the record's
      address, or empty when there is none or the lookup failed. */
  datatype ClaimHistoryItem = ClaimHistoryItem(claimer: Key, claimedAt: int, amount: nat, txSig: string)

  /** The documented widths of a `ClaimRecord` account: discriminator, drop,
      claimer, claimed-at, amount, bump. */
  const CLAIM_RECORD_FIELD_WIDTHS: seq<nat> := [8, 32, 32, 8, 8, 1]
  const CLAIM_RECORD_FIELD_OFFSETS: seq<nat> := [0, 8, 40, 72, 80, 88, 89]

  lemma ClaimRecordLayout()
    ensures |CLAIM_RECORD_FIELD_OFFSETS| == |CLAIM_RECORD_FIELD_WIDTHS| + 1
    ensures forall k :: 0 <= k < |CLAIM_RECORD_FIELD_WIDTHS| ==>
      CLAIM_RECORD_FIELD_OFFSETS[k + 1] == CLAIM_RECORD_FIELD_OFFSETS[k] + CLAIM_RECORD_FIELD_WIDTHS[k]
    ensures Sum(CLAIM_RECORD_FIELD_WIDTHS) == CLAIM_RECORD_ACCOUNT_SIZE
  {
    RunningSums(CLAIM_RECORD_FIELD_WIDTHS, CLAIM_RECORD_FIELD_OFFSETS, 0);
  }

  /** One record's history item: claimer at 40..72, claimed-at i64 at 72..80,
      amount u64 at 80..88. */
  function DecodeClaimRecord(data: seq<Byte>, txSig: string): (item: ClaimHistoryItem)
    requires |data| == CLAIM_RECORD_ACCOUNT_SIZE
    ensures item.claimer == data[40..72] && item.txSig == txSig
    ensures -(TWO63 as int) <= item.claimedAt < TWO63 && item.amount < TWO64
  {
    Pow256Values();
    ClaimHistoryItem(data[40..72], I64Value(data[72..80]), LeValue(data[80..88]), txSig)
  }

  function EncodeClaimRecord(rec: StoredClaimRecord, disc: seq<Byte>, bump: Byte): (data: seq<Byte>)
    requires |disc| == 8
    ensures |data| == CLAIM_RECORD_ACCOUNT_SIZE
  {
    disc + rec.drop + rec.claimer + I64Bytes(rec.claimedAt) + U64Bytes(rec.amount) + [bump]
  }

  /** Decoding an encoded record gives back claimer, claim time and amount. */
  lemma ClaimRecordRoundTrip(rec: StoredClaimRecord, disc: seq<Byte>, bump: Byte, txSig: string)
    requires |disc| == 8
    requires -(TWO63 as int) <= rec.claimedAt < TWO63 && rec.amount < TWO64
    ensures DecodeClaimRecord(EncodeClaimRecord(rec, disc, bump), txSig)
            == ClaimHistoryItem(rec.claimer, rec.claimedAt, rec.amount, txSig)
  {
    var data := EncodeClaimRecord(rec, disc, bump);
    assert data[40..72] == rec.claimer;
    assert data[72..80] == I64Bytes(rec.claimedAt);
    assert data[80..88] == U64Bytes(rec.amount);
    I64RoundTrip(rec.claimedAt);
    U64RoundTrip(rec.amount);
    DivModUnique(rec.amount, TWO64, 0, rec.amount);
  }

  /** A claim record account as the ledger returns it (already filtered to the
      record size and the drop), with the newest signature for its address. */
  datatype RecordAccount = RecordAccount(data: seq<Byte>, latestSignature: Option<string>)

  function TxSig(a: RecordAccount): string {
    match a.latestSignature
    case Some(s) => s
    case None => ""
  }

  /** Item i is account i's record: its claimer, claim time and amount read
      from the account data, and the account's newest signature. */
  function DecodeRecords(accounts: seq<RecordAccount>): (items: seq<ClaimHistoryItem>)
    requires forall i :: 0 <= i < |accounts| ==> |accounts[i].data| == CLAIM_RECORD_ACCOUNT_SIZE
    ensures |items| == |accounts|
    ensures forall i :: 0 <= i < |items| ==>
      && items[i].claimer == accounts[i].data[40..72]
      && items[i].claimedAt == I64Value(accounts[i].data[72..80])
      && items[i].amount == LeValue(accounts[i].data[80..88])
      && items[i].txSig == TxSig(accounts[i])
  {
    seq(|accounts|, i requires 0 <= i < |accounts| => DecodeClaimRecord(accounts[i].data, TxSig(accounts[i])))
  }

  /** Accounts holding encoded records decode to those records' claimer,
      claim time and amount, each with its account's signature. */
  lemma DecodeRecordsOfEncoded(accounts: seq<RecordAccount>, recs: seq<StoredClaimRecord>, disc: seq<Byte>, bump: Byte)
    requires |disc| == 8 && |recs| == |accounts|
    requires forall i :: 0 <= i < |accounts| ==> |accounts[i].data| == CLAIM_RECORD_ACCOUNT_SIZE
    requires forall i :: 0 <= i < |recs| ==>
      -(TWO63 as int) <= recs[i].claimedAt < TWO63 && recs[i].amount < TWO64
      && accounts[i].data == EncodeClaimRecord(recs[i], disc, bump)
    ensures var items := DecodeRecords(accounts);
      forall i :: 0 <= i < |items| ==>
        items[i] == ClaimHistoryItem(recs[i].claimer, recs[i].claimedAt, recs[i].amount, TxSig(accounts[i]))
  {
    var items := DecodeRecords(accounts);
    forall i | 0 <= i < |items|
      ensures items[i] == ClaimHistoryItem(recs[i].claimer, recs[i].claimedAt, recs[i].amount, TxSig(accounts[i]))
    {
      ClaimRecordRoundTrip(recs[i], disc, bump, TxSig(accounts[i]));
    }
  }

  function ClaimedAt(c: ClaimHistoryItem): int { c.claimedAt }

  /** `fetchClaimHistory`: nothing for an address that is not a key, otherwise
      every record decoded and ordered by claim time, earliest first. */
  function ClaimHistory(dropKey: Option<Key>, accounts: seq<RecordAccount>): (r: seq<ClaimHistoryItem>)
    requires forall i :: 0 <= i < |accounts| ==> |accounts[i].data| == CLAIM_RECORD_ACCOUNT_SIZE
    ensures dropKey.None? ==> r == []
    ensures dropKey.Some? ==> multiset(r) == multiset(DecodeRecords(accounts))
    ensures forall i, j :: 0 <= i < j < |r| ==> r[i].claimedAt <= r[j].claimedAt
  {
    if dropKey.None? then []
    else
      var r := Sorting.SortByKey(DecodeRecords(accounts), ClaimedAt);
      assert forall i, j :: 0 <= i < j < |r| ==> ClaimedAt(r[i]) <= ClaimedAt(r[j]);
      r
  }

  // ---------------------------------------------------------------------------
  // Drops of a creator

  /** A program account as the ledger returns it: its address and data. */
  datatype ProgramAccount = ProgramAccount(address: string, data: seq<Byte>)

  /** The accounts that decode, in order; the others are dropped. A single
      account gives its drop or nothing, and with `DecodeDropsAppend` that
      fixes the order of the whole list. */
  function DecodeDrops(accounts: seq<ProgramAccount>): (r: seq<DropInfo>)
    ensures |r| <= |accounts|
    ensures forall d :: d in r ==> DecodedShape(d)
    ensures |accounts| == 1 ==>
      r == (match DecodeDrop(accounts[0].address, accounts[0].data) case None => [] case Some(d) => [d])
    ensures forall d :: d in r <==>
      exists i :: 0 <= i < |accounts| && DecodeDrop(accounts[i].address, accounts[i].data) == Some(d)
  {
    if accounts == [] then []
    else
      var rest := DecodeDrops(accounts[1..]);
      match DecodeDrop(accounts[0].address, accounts[0].data)
      case None => rest
      case Some(d) => [d] + rest
  }

  /** Decoding distributes over concatenation of account lists. */
  lemma {:induction false} DecodeDropsAppend(a: seq<ProgramAccount>, b: seq<ProgramAccount>)
    ensures DecodeDrops(a + b) == DecodeDrops(a) + DecodeDrops(b)
  {
    if a == [] {
      assert a + b == b;
    } else {
      assert (a + b)[0] == a[0] && (a + b)[1..] == a[1..] + b;
      DecodeDropsAppend(a[1..], b);
    }
  }

  /** Active drops first, then ended ones, then the rest (canceled ones,
      for a decoded drop). */
  function Rank(d: DropInfo): (r: nat)
    ensures r <= 2
    ensures r == 0 <==> d.isActive
    ensures r == 1 <==> !d.isActive && d.isEnded
    ensures DecodedShape(d) ==> (r == 2 <==> d.isCanceled)
  {
    if d.isActive then 0 else if d.isEnded then 1 else 2
  }

  /** The comparator of `fetchDropsByCreator` says a may stay before b. */
  predicate ListedBefore(a: DropInfo, b: DropInfo) {
    Rank(a) < Rank(b) || (Rank(a) == Rank(b) && a.remainingClaims >= b.remainingClaims)
  }

  /** The comparator is a total preorder, so sorting by it is well defined. */
  lemma ListedBeforePreorder(a: DropInfo, b: DropInfo, c: DropInfo)
    ensures ListedBefore(a, a)
    ensures ListedBefore(a, b) || ListedBefore(b, a)
    ensures ListedBefore(a, b) && ListedBefore(b, c) ==> ListedBefore(a, c)
  {
  }

  const RANK_WEIGHT: nat := 0x2_0000_0000

  /** One integer that orders like the comparator on decoded drops, whose
      remaining claims lie strictly between -2^32 and 2^32. */
  function DropSortKey(d: DropInfo): int {
    Rank(d) * RANK_WEIGHT - d.remainingClaims
  }

  lemma SortKeyOrdersLikeComparator(a: DropInfo, b: DropInfo)
    requires DecodedShape(a) && DecodedShape(b)
    requires DropSortKey(a) <= DropSortKey(b)
    ensures ListedBefore(a, b)
  {
  }

  /** `fetchDropsByCreator` after the fetch: decodable accounts only, ordered
      active, ended, canceled and, within a status, by remaining claims
      descending. */
  function DropsByCreator(accounts: seq<ProgramAccount>): (r: seq<DropInfo>)
    ensures multiset(r) == multiset(DecodeDrops(accounts))
    ensures forall i, j :: 0 <= i < j < |r| ==> ListedBefore(r[i], r[j])
  {
    var decoded := DecodeDrops(accounts);
    var r := Sorting.SortByKey(decoded, DropSortKey);
    forall i, j | 0 <= i < j < |r| ensures ListedBefore(r[i], r[j]) {
      assert r[i] in multiset(decoded) && r[j] in multiset(decoded);
      SortKeyOrdersLikeComparator(r[i], r[j]);
    }
    r
  }

  // ---------------------------------------------------------------------------
  // Time ago

  /** The buckets of `timeAgo`; the counted ones carry their count. */
  datatype Age =
    | JustNow | Seconds(n: nat) | AMinute | Minutes(n: nat) | AnHour | Hours(n: nat)
    | ADay | Days(n: nat) | AWeek | Weeks(n: nat) | AMonth | Months(n: nat)

  function AgeRank(a: Age): nat {
    match a
    case JustNow => 0 case Seconds(_) => 1 case AMinute => 2 case Minutes(_) => 3
    case AnHour => 4 case Hours(_) => 5 case ADay => 6 case Days(_) => 7
    case AWeek => 8 case Weeks(_) => 9 case AMonth => 10 case Months(_) => 11
  }

  /** The bucket for an age of diff seconds; each count is the whole number
      of units elapsed and stays inside its bucket's range. */
  function AgeOf(diff: int): (a: Age)
    ensures a == JustNow <==> diff < 5
    ensures a.Seconds? <==> 5 <= diff < 60
    ensures a == AMinute <==> 60 <= diff < 120
    ensures a.Minutes? <==> 120 <= diff < 3600
    ensures a == AnHour <==> 3600 <= diff < 7200
    ensures a.Hours? <==> 7200 <= diff < 86400
    ensures a == ADay <==> 86400 <= diff < 172800
    ensures a.Days? <==> 172800 <= diff < 604800
    ensures a == AWeek <==> 604800 <= diff < 1209600
    ensures a.Weeks? <==> 1209600 <= diff < 2592000
    ensures a == AMonth <==> 2592000 <= diff < 5184000
    ensures a.Months? <==> 5184000 <= diff
    ensures a.Seconds? ==> a.n == diff
    ensures a.Minutes? ==> 2 <= a.n < 60 && a.n * 60 <= diff < (a.n + 1) * 60
    ensures a.Hours? ==> 2 <= a.n < 24 && a.n * 3600 <= diff < (a.n + 1) * 3600
    ensures a.Days? ==> 2 <= a.n < 7 && a.n * 86400 <= diff < (a.n + 1) * 86400
    ensures a.Weeks? ==> 2 <= a.n <= 4 && a.n * 604800 <= diff < (a.n + 1) * 604800
    ensures a.Months? ==> a.n >= 2 && a.n * 2592000 <= diff < (a.n + 1) * 2592000
  {
    if diff < 5 then JustNow
    else if diff < 60 then Seconds(diff)
    else if diff < 120 then AMinute
    else if diff < 3600 then Minutes(diff / 60)
    else if diff < 7200 then AnHour
    else if diff < 86400 then Hours(diff / 3600)
    else if diff < 172800 then ADay
    else if diff < 604800 then Days(diff / 86400)
    else if diff < 1209600 then AWeek
    else if diff < 2592000 then Weeks(diff / 604800)
    else if diff < 5184000 then AMonth
    else Months(diff / 2592000)
  }

  /** As time passes the label never moves to an earlier bucket, and within a
      bucket the count never decreases. */
  lemma AgeMonotone(d1: int, d2: int)
    requires d1 <= d2
    ensures AgeRank(AgeOf(d1)) <= AgeRank(AgeOf(d2))
    ensures AgeRank(AgeOf(d1)) == AgeRank(AgeOf(d2)) && AgeOf(d1).Minutes? ==> AgeOf(d1).n <= AgeOf(d2).n
    ensures AgeRank(AgeOf(d1)) == AgeRank(AgeOf(d2)) && AgeOf(d1).Hours? ==> AgeOf(d1).n <= AgeOf(d2).n
    ensures AgeRank(AgeOf(d1)) == AgeRank(AgeOf(d2)) && AgeOf(d1).Days? ==> AgeOf(d1).n <= AgeOf(d2).n
    ensures AgeRank(AgeOf(d1)) == AgeRank(AgeOf(d2)) && AgeOf(d1).Weeks? ==> AgeOf(d1).n <= AgeOf(d2).n
    ensures AgeRank(AgeOf(d1)) == AgeRank(AgeOf(d2)) && AgeOf(d1).Months? ==> AgeOf(d1).n <= AgeOf(d2).n
  {
  }

  /** A label that says how long ago: the phrase followed by " ago". */
  function Ago(phrase: string): (r: string)
    ensures |r| == |phrase| + 4 && r[..|phrase|] == phrase && r[|phrase|..] == " ago"
  {
    phrase + " ago"
  }

  /** The label of a bucket; only `JustNow` reads "just now", every other
      label ends in " ago". */
  function AgeText(a: Age): (r: string)
    ensures r == "just now" <==> a == JustNow
    ensures a != JustNow ==> |r| > 4 && r[|r| - 4..] == " ago"
  {
    match a
    case JustNow => "just now"
    case Seconds(n) => Ago(Strings.DecimalString(n) + " seconds")
    case AMinute => Ago("a minute")
    case Minutes(n) => Ago(Strings.DecimalString(n) + " minutes")
    case AnHour => Ago("an hour")
    case Hours(n) => Ago(Strings.DecimalString(n) + " hours")
    case ADay => Ago("a day")
    case Days(n) => Ago(Strings.DecimalString(n) + " days")
    case AWeek => Ago("a week")
    case Weeks(n) => Ago(Strings.DecimalString(n) + " weeks")
    case AMonth => Ago("a month")
    case Months(n) => Ago(Strings.DecimalString(n) + " months")
  }

  /** `timeAgo(unixSeconds)` with the clock reading `nowMs` passed in. */
  function TimeAgo(unixSeconds: int, nowMs: nat): (r: string)
    ensures nowMs / 1000 - unixSeconds < 5 <==> r == "just now"
  {
    AgeText(AgeOf(nowMs / 1000 - unixSeconds))
  }

  /** Each range of elapsed whole seconds gets the label `timeAgo` writes for
      it; a counted label shows the whole number of units elapsed. */
  lemma TimeAgoRanges(unixSeconds: int, nowMs: nat)
    ensures var diff := nowMs / 1000 - unixSeconds; var r := TimeAgo(unixSeconds, nowMs);
      && (diff < 5 ==> r == "just now")
      && (5 <= diff < 60 ==> r == Ago(Strings.DecimalString(diff) + " seconds"))
      && (60 <= diff < 120 ==> r == Ago("a minute"))
      && (120 <= diff < 3600 ==> r == Ago(Strings.DecimalString(diff / 60) + " minutes"))
      && (3600 <= diff < 7200 ==> r == Ago("an hour"))
      && (7200 <= diff < 86400 ==> r == Ago(Strings.DecimalString(diff / 3600) + " hours"))
      && (86400 <= diff < 172800 ==> r == Ago("a day"))
      && (172800 <= diff < 604800 ==> r == Ago(Strings.DecimalString(diff / 86400) + " days"))
      && (604800 <= diff < 1209600 ==> r == Ago("a week"))
      && (1209600 <= diff < 2592000 ==> r == Ago(Strings.DecimalString(diff / 604800) + " weeks"))
      && (2592000 <= diff < 5184000 ==> r == Ago("a month"))
      && (5184000 <= diff ==> r == Ago(Strings.DecimalString(diff / 2592000) + " months"))
  {
    var diff := nowMs / 1000 - unixSeconds;
    assert TimeAgo(unixSeconds, nowMs) == AgeText(AgeOf(diff));
  }
}
