/** The layout constants shared with the deployed on-chain program: the claim
    message prefix, the account sizes, the four instruction discriminators
    (the first eight bytes of sha256("global:<name>"), fixed for a deployed
    program), the fee-wallet offset inside the platform configuration account
    and the platform fee in basis points. */
module Constants {
  import opened Bytes

  const CLAIM_MESSAGE_PREFIX: string := "FairDrop-claim:"

  const DROP_ACCOUNT_SIZE: nat := 125
  const CLAIM_RECORD_ACCOUNT_SIZE: nat := 89

  const DISC_CREATE_DROP: seq<Byte> := [157, 142, 145, 247, 92, 73, 59, 48]
  const DISC_CLAIM_DROP: seq<Byte> := [157, 29, 89, 14, 81, 203, 107, 58]
  const DISC_CANCEL_DROP: seq<Byte> := [78, 206, 101, 116, 70, 101, 44, 238]
  const DISC_CLOSE_DROP: seq<Byte> := [179, 36, 175, 45, 105, 230, 234, 147]

  /** PlatformConfig starts with an 8-byte discriminator and the 32-byte authority. */
  const PLATFORM_CONFIG_FEE_WALLET_OFFSET: nat := 40
  const ACCOUNT_DISCRIMINATOR_LEN: nat := 8
  const PUBKEY_LEN: nat := 32

  const PLATFORM_FEE_BPS: nat := 100
  const BPS_DENOMINATOR: nat := 10000

  predicate IsAscii(s: string) {
    forall i :: 0 <= i < |s| ==> s[i] as int < 128
  }

  /** `new TextEncoder().encode(s)` for an ASCII string: one byte per character. */
  function AsciiBytes(s: string): (r: seq<Byte>)
    requires IsAscii(s)
    ensures |r| == |s|
    ensures forall i :: 0 <= i < |s| ==> r[i] == s[i] as int
  {
    seq(|s|, i requires 0 <= i < |s| => s[i] as int)
  }

  /** The claim message prefix as the bytes `TextEncoder` produces for it. */
  const CLAIM_MESSAGE_PREFIX_BYTES: seq<Byte> :=
    [70, 97, 105, 114, 68, 114, 111, 112, 45, 99, 108, 97, 105, 109, 58]

  /** The prefix is 15 ASCII characters and the byte constant is exactly
      their encoding, so the builder's fixed offset of 15 is right. */
  lemma PrefixEncoding()
    ensures IsAscii(CLAIM_MESSAGE_PREFIX) && |CLAIM_MESSAGE_PREFIX| == 15
    ensures AsciiBytes(CLAIM_MESSAGE_PREFIX) == CLAIM_MESSAGE_PREFIX_BYTES
  {
    var r := AsciiBytes(CLAIM_MESSAGE_PREFIX);
    forall i | 0 <= i < 15 ensures r[i] == CLAIM_MESSAGE_PREFIX_BYTES[i] {
    }
  }

  function Sum(widths: seq<nat>): nat {
    if widths == [] then 0 else widths[0] + Sum(widths[1..])
  }

  /** Field offsets listed as running sums of the field widths (offs[k] is
      where field k starts) end at base plus the total width. */
  lemma {:induction false} RunningSums(w: seq<nat>, offs: seq<nat>, base: nat)
    requires |offs| == |w| + 1 && offs[0] == base
    requires forall k :: 0 <= k < |w| ==> offs[k + 1] == offs[k] + w[k]
    ensures offs[|w|] == base + Sum(w)
  {
    if w != [] {
      RunningSums(w[1..], offs[1..], base + w[0]);
    }
  }

  /** The four discriminators are eight bytes each and pairwise distinct, so
      no instruction can be mistaken for another. */
  lemma DiscriminatorsDistinct()
    ensures |DISC_CREATE_DROP| == |DISC_CLAIM_DROP| == |DISC_CANCEL_DROP| == |DISC_CLOSE_DROP| == 8
    ensures DISC_CREATE_DROP != DISC_CLAIM_DROP && DISC_CREATE_DROP != DISC_CANCEL_DROP
    ensures DISC_CREATE_DROP != DISC_CLOSE_DROP && DISC_CLAIM_DROP != DISC_CANCEL_DROP
    ensures DISC_CLAIM_DROP != DISC_CLOSE_DROP && DISC_CANCEL_DROP != DISC_CLOSE_DROP
  {
    assert DISC_CREATE_DROP[1] != DISC_CLAIM_DROP[1];
    assert DISC_CREATE_DROP[0] != DISC_CANCEL_DROP[0];
    assert DISC_CREATE_DROP[0] != DISC_CLOSE_DROP[0];
    assert DISC_CLAIM_DROP[0] != DISC_CANCEL_DROP[0];
    assert DISC_CLAIM_DROP[0] != DISC_CLOSE_DROP[0];
    assert DISC_CANCEL_DROP[0] != DISC_CLOSE_DROP[0];
  }

  /** The fee wallet follows the discriminator and the authority key. */
  lemma FeeWalletOffset()
    ensures PLATFORM_CONFIG_FEE_WALLET_OFFSET == Sum([ACCOUNT_DISCRIMINATOR_LEN, PUBKEY_LEN])
  {
    var w := [ACCOUNT_DISCRIMINATOR_LEN, PUBKEY_LEN];
    assert w[1..] == [PUBKEY_LEN] && w[1..][1..] == [];
    assert Sum(w[1..]) == PUBKEY_LEN + Sum([]);
  }

  /** 100 basis points of 10000 is one percent: the fee on any whole amount a
      is a / 100 exactly. */
  lemma FeeIsOnePercent(a: nat)
    ensures a * PLATFORM_FEE_BPS / BPS_DENOMINATOR == a / 100
  {
    DivModUnique(a * 100, 10000, a / 100, (a % 100) * 100);
  }
}
