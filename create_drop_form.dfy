/** The create-drop form: the 55-byte instruction payload the form packs
    before it sends a create-drop transaction, and the tier shown next to
    the minimum-score field. */
module CreateDropForm {
  import opened Wrappers
  import opened Bytes
  import opened Constants
  import Program

  // ---------------------------------------------------------------------------
  // Create-drop payload

  const CREATE_DROP_DATA_LEN: nat := 55

  /** `DataView.setUint32` converts its argument with ToUint32, which maps a
      NaN (a max-claims field `parseInt` cannot read) to 0. */
  function NumberOrZero(n: Option<int>): int {
    if n.Some? then n.value else 0
  }

  /** The payload: discriminator at 0..8, drop id at 8..40, total amount in
      base units as a little-endian u64 at 40..48, max claims as a u32 at
      48..52, minimum score as a u16 at 52..54, and at 54 a 1 for native SOL,
      else 0. */
  function CreateDropData(dropId: seq<Byte>, totalUnits: int, maxClaims: Option<int>, minScore: int,
                          isNativeSol: bool): (r: seq<Byte>)
    requires |dropId| == 32
    ensures |r| == CREATE_DROP_DATA_LEN
  {
    DISC_CREATE_DROP + dropId + U64Bytes(totalUnits) + U32Bytes(NumberOrZero(maxClaims)) + U16Bytes(minScore)
    + [if isNativeSol then 1 else 0]
  }

  /** The arguments as the program reads them back out of the payload. */
  datatype CreateDropArgs = CreateDropArgs(dropId: seq<Byte>, totalAmount: nat, maxClaims: nat,
                                           minScore: nat, isNativeSol: bool)

  /** Reads a payload with the little-endian getters; None unless it is 55
      bytes long, starts with the create-drop discriminator and ends in a
      0 or 1 flag. */
  function DecodeCreateDrop(data: seq<Byte>): (r: Option<CreateDropArgs>)
    ensures r.Some? ==> |data| == CREATE_DROP_DATA_LEN && data[..8] == DISC_CREATE_DROP
    ensures r.Some? ==>
      |r.value.dropId| == 32 && r.value.totalAmount < TWO64 && r.value.maxClaims < TWO32 && r.value.minScore < TWO16
  {
    if |data| != CREATE_DROP_DATA_LEN || data[..8] != DISC_CREATE_DROP || data[54] > 1 then None
    else
      Pow256Values();
      Some(CreateDropArgs(data[8..40], LeValue(data[40..48]), LeValue(data[48..52]), LeValue(data[52..54]),
                          data[54] == 1))
  }

  /** The six fields sit at their offsets. */
  lemma CreateDropSlices(dropId: seq<Byte>, totalUnits: int, maxClaims: Option<int>, minScore: int, isNativeSol: bool)
    requires |dropId| == 32
    ensures var r := CreateDropData(dropId, totalUnits, maxClaims, minScore, isNativeSol);
      && r[..8] == DISC_CREATE_DROP && r[8..40] == dropId
      && r[40..48] == U64Bytes(totalUnits) && r[48..52] == U32Bytes(NumberOrZero(maxClaims))
      && r[52..54] == U16Bytes(minScore) && r[54] == (if isNativeSol then 1 else 0)
  {
    var head := DISC_CREATE_DROP + dropId;
    Program.FieldsOfConcat(head, U64Bytes(totalUnits), U32Bytes(NumberOrZero(maxClaims)), U16Bytes(minScore),
                           [if isNativeSol then 1 else 0]);
    assert head[..8] == DISC_CREATE_DROP && head[8..40] == dropId;
  }

  /** Reading the payload back gives every argument, each number reduced to
      its field width the way the DataView setters reduce it. */
  lemma CreateDropRoundTrip(dropId: seq<Byte>, totalUnits: int, maxClaims: Option<int>, minScore: int,
                            isNativeSol: bool)
    requires |dropId| == 32
    ensures DecodeCreateDrop(CreateDropData(dropId, totalUnits, maxClaims, minScore, isNativeSol))
      == Some(CreateDropArgs(dropId, totalUnits % TWO64, NumberOrZero(maxClaims) % TWO32, minScore % TWO16,
                             isNativeSol))
  {
    CreateDropSlices(dropId, totalUnits, maxClaims, minScore, isNativeSol);
    U64RoundTrip(totalUnits);
    U32RoundTrip(NumberOrZero(maxClaims));
    U16RoundTrip(minScore);
  }

  /** Payloads of arguments within their field widths are equal only for
      equal arguments; a max-claims field that does not parse packs like 0. */
  lemma CreateDropInjective(d1: seq<Byte>, t1: nat, m1: nat, s1: nat, n1: bool,
                            d2: seq<Byte>, t2: nat, m2: nat, s2: nat, n2: bool)
    requires |d1| == 32 && |d2| == 32
    requires t1 < TWO64 && t2 < TWO64 && m1 < TWO32 && m2 < TWO32 && s1 < TWO16 && s2 < TWO16
    requires CreateDropData(d1, t1, Some(m1), s1, n1) == CreateDropData(d2, t2, Some(m2), s2, n2)
    ensures d1 == d2 && t1 == t2 && m1 == m2 && s1 == s2 && n1 == n2
  {
    CreateDropRoundTrip(d1, t1, Some(m1), s1, n1);
    CreateDropRoundTrip(d2, t2, Some(m2), s2, n2);
  }

  /** One step of the packing: with the bytes before the cursor already
      written over a zeroed buffer, `set(src, off)` appends src to them. */
  method WriteField(a: array<Byte>, ghost written: seq<Byte>, ghost zeros: seq<Byte>, off: nat, src: seq<Byte>)
    requires |written| == off && off + |src| <= |zeros| == a.Length
    requires a[..] == written + zeros[off..]
    modifies a
    ensures a[..] == (written + src) + zeros[off + |src|..]
  {
    SetAt(a, off, src);
    assert old(a[..])[..off] == written;
    assert old(a[..])[off + |src|..] == zeros[off + |src|..];
  }

  /** The form's packing: fields written one after another into a fresh
      zeroed buffer while a cursor advances by each field's width. */
  method BuildCreateDropData(dropId: seq<Byte>, totalUnits: int, maxClaims: Option<int>, minScore: int,
                             isNativeSol: bool) returns (ixData: array<Byte>)
    requires |dropId| == 32
    ensures fresh(ixData)
    ensures ixData[..] == CreateDropData(dropId, totalUnits, maxClaims, minScore, isNativeSol)
  {
    ixData := new Byte[CREATE_DROP_DATA_LEN](_ => 0);
    ghost var zeros := ixData[..];
    var off := 0;
    WriteField(ixData, [], zeros, off, DISC_CREATE_DROP); off := off + 8;
    ghost var written := DISC_CREATE_DROP;
    WriteField(ixData, written, zeros, off, dropId); off := off + 32;
    written := written + dropId;
    WriteField(ixData, written, zeros, off, U64Bytes(totalUnits)); off := off + 8;
    written := written + U64Bytes(totalUnits);
    WriteField(ixData, written, zeros, off, U32Bytes(NumberOrZero(maxClaims))); off := off + 4;
    written := written + U32Bytes(NumberOrZero(maxClaims));
    WriteField(ixData, written, zeros, off, U16Bytes(minScore)); off := off + 2;
    written := written + U16Bytes(minScore);
    ixData[off] := if isNativeSol then 1 else 0;
    assert ixData[..] == written + [if isNativeSol then 1 else 0];
  }

  // ---------------------------------------------------------------------------
  // Score tier indicator

  /** The tier `FairscaleIndicator` shows for a minimum score. */
  datatype ScoreTier = OpenToAll | VeryLow | Low | Medium | Good | Excellent

  /** Filled bars of the five: none when the drop is open to all. */
  function Bars(t: ScoreTier): (n: nat)
    ensures n <= 5
    ensures n == 0 <==> t == OpenToAll
  {
    match t
    case OpenToAll => 0
    case VeryLow => 1
    case Low => 2
    case Medium => 3
    case Good => 4
    case Excellent => 5
  }

  function Tier(score: int): (t: ScoreTier)
    ensures t == OpenToAll <==> score == 0
  {
    if score == 0 then OpenToAll
    else if score < 100 then VeryLow
    else if score < 300 then Low
    else if score < 600 then Medium
    else if score < 850 then Good
    else Excellent
  }

  /** The bar count for each score range: 0 for exactly 0, then one bar
      below 100, two below 300, three below 600, four below 850, five from
      850 up. */
  lemma TierRanges(score: int)
    ensures score == 0 ==> Bars(Tier(score)) == 0
    ensures score != 0 && score < 100 ==> Bars(Tier(score)) == 1
    ensures 100 <= score < 300 ==> Bars(Tier(score)) == 2
    ensures 300 <= score < 600 ==> Bars(Tier(score)) == 3
    ensures 600 <= score < 850 ==> Bars(Tier(score)) == 4
    ensures 850 <= score ==> Bars(Tier(score)) == 5
  {
  }

  /** A stricter non-zero minimum never shows fewer bars. */
  lemma TierMonotone(s1: int, s2: int)
    requires s1 != 0 && s2 != 0 && s1 <= s2
    ensures 1 <= Bars(Tier(s1)) <= Bars(Tier(s2))
  {
  }
}
