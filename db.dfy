/** The slug store: a key-value store (Redis) mapping a claim-link slug to its
    drop address, and a drop address to the slug and creator recorded for it.
    The store is a map held by a `SlugStore` object; network failures of the
    store are not modelled. */
module Db {
  import opened Wrappers
  import opened Bytes
  import Base64

  const SLUG_KEY_PREFIX: string := "drop:slug:"
  const META_KEY_PREFIX: string := "drop:meta:"

  function SlugKey(slug: string): (k: string)
    ensures |k| == |SLUG_KEY_PREFIX| + |slug|
    ensures k[..|SLUG_KEY_PREFIX|] == SLUG_KEY_PREFIX && k[|SLUG_KEY_PREFIX|..] == slug
  {
    SLUG_KEY_PREFIX + slug
  }

  function MetaKey(dropAddress: string): (k: string)
    ensures |k| == |META_KEY_PREFIX| + |dropAddress|
    ensures k[..|META_KEY_PREFIX|] == META_KEY_PREFIX && k[|META_KEY_PREFIX|..] == dropAddress
  {
    META_KEY_PREFIX + dropAddress
  }

  /** Slug keys and meta keys never collide (they differ in their sixth
      character), and each family is injective, so saving one slug touches
      exactly two entries of its own. */
  lemma KeysSeparate(s1: string, s2: string, a1: string, a2: string)
    ensures SlugKey(s1) != MetaKey(a1)
    ensures SlugKey(s1) == SlugKey(s2) ==> s1 == s2
    ensures MetaKey(a1) == MetaKey(a2) ==> a1 == a2
  {
    assert SlugKey(s1)[5] == 's' && MetaKey(a1)[5] == 'm';
  }

  /** `DropMeta`. */
  datatype DropMeta = DropMeta(slug: string, creator: string)

  /** A stored value: a plain string, or the JSON text of a `DropMeta` (which
      the store's reads give back as the record). Any other JSON is
      `Text`, and a `Text` under a meta key counts as malformed. */
  datatype StoredValue = Text(s: string) | MetaRecord(meta: DropMeta)

  /** `generateSlug` with its nine random bytes passed in: the base64url text
      of the bytes, cut to 12 characters. */
  function GenerateSlug(random: seq<Byte>): (slug: string)
    requires |random| == 9
    ensures |slug| == 12
    ensures forall i :: 0 <= i < |slug| ==> Base64.IsUrlChar(slug[i])
  {
    var text := Base64.EncodeUrl(random);
    text[..12]
  }

  /** Nine bytes encode to exactly 12 base64url characters, so the cut loses
      nothing: the slug is the whole encoding and distinct draws give
      distinct slugs whenever their encodings differ. */
  lemma SlugIsWholeEncoding(random: seq<Byte>)
    requires |random| == 9
    ensures GenerateSlug(random) == Base64.EncodeUrl(random)
  {
    assert |Base64.EncodeUrl(random)| == 12;
  }

  /** The part of a `SlugStore` that a reader sees. */
  function Resolve(kv: map<string, StoredValue>, slug: string): (r: Option<StoredValue>)
    ensures r.Some? <==> SlugKey(slug) in kv
    ensures r.Some? ==> r.value == kv[SlugKey(slug)]
  {
    if SlugKey(slug) in kv then Some(kv[SlugKey(slug)]) else None
  }

  /** The creator-owned drops among `addresses`, as `getSlugsByCreator`
      reports them: an address is present exactly when its meta is a record
      whose creator is `creator`, and maps to that record's slug. */
  ghost predicate IsSlugsOfCreator(kv: map<string, StoredValue>, addresses: seq<string>, creator: string,
                                   result: map<string, string>)
  {
    && (forall a :: a in result <==>
          a in addresses && MetaKey(a) in kv && kv[MetaKey(a)].MetaRecord?
          && kv[MetaKey(a)].meta.creator == creator)
    && (forall a :: a in result ==> result[a] == kv[MetaKey(a)].meta.slug)
  }

  class SlugStore {
    var kv: map<string, StoredValue>

    constructor(initial: map<string, StoredValue>)
      ensures kv == initial
    {
      kv := initial;
    }

    /** `saveSlug`: the slug points at the drop, and the drop's meta records
        the slug and its creator; nothing else changes. */
    method SaveSlug(slug: string, dropAddress: string, creator: string)
      modifies this
      ensures kv == old(kv)[SlugKey(slug) := Text(dropAddress)][MetaKey(dropAddress) := MetaRecord(DropMeta(slug, creator))]
      ensures Resolve(kv, slug) == Some(Text(dropAddress))
      ensures kv[MetaKey(dropAddress)] == MetaRecord(DropMeta(slug, creator))
    {
      KeysSeparate(slug, slug, dropAddress, dropAddress);
      kv := kv[SlugKey(slug) := Text(dropAddress)];
      kv := kv[MetaKey(dropAddress) := MetaRecord(DropMeta(slug, creator))];
    }

    /** `resolveSlug`. */
    function ResolveSlug(slug: string): (r: Option<StoredValue>)
      reads this
      ensures r == Resolve(kv, slug)
    {
      Resolve(kv, slug)
    }

    /** `verifySlug`: the slug resolves to exactly this drop address. */
    function VerifySlug(slug: string, dropAddress: string): (ok: bool)
      reads this
      ensures ok <==> SlugKey(slug) in kv && kv[SlugKey(slug)] == Text(dropAddress)
    {
      ResolveSlug(slug) == Some(Text(dropAddress))
    }

    /** `getSlugsByCreator`: one multi-get of the metas, then a loop that keeps
        the addresses whose meta names `creator`. Missing and malformed metas,
        and metas of other creators, are skipped. */
    method GetSlugsByCreator(dropAddresses: seq<string>, creator: string) returns (result: map<string, string>)
      ensures IsSlugsOfCreator(kv, dropAddresses, creator, result)
      ensures dropAddresses == [] ==> result == map[]
    {
      if |dropAddresses| == 0 {
        return map[];
      }
      var store := kv;
      var values := seq(|dropAddresses|, i requires 0 <= i < |dropAddresses| =>
        if MetaKey(dropAddresses[i]) in store then Some(store[MetaKey(dropAddresses[i])]) else None);
      result := map[];
      var i := 0;
      while i < |dropAddresses|
        invariant 0 <= i <= |dropAddresses|
        invariant IsSlugsOfCreator(kv, dropAddresses[..i], creator, result)
      {
        var raw := values[i];
        if raw.Some? && raw.value.MetaRecord? && raw.value.meta.creator == creator {
          result := result[dropAddresses[i] := raw.value.meta.slug];
        }
        assert dropAddresses[..i + 1] == dropAddresses[..i] + [dropAddresses[i]];
        assert forall a :: a in dropAddresses[..i + 1] <==> a in dropAddresses[..i] || a == dropAddresses[i];
        i := i + 1;
      }
      assert dropAddresses[..i] == dropAddresses;
    }
  }

  /** Saving a slug and reading back: the slug verifies for its drop and for
      no other address, and a creator lookup that includes the drop reports
      this slug exactly when the creator is the one saved. */
  lemma SaveThenRead(kv: map<string, StoredValue>, slug: string, dropAddress: string, creator: string,
                     other: string, asker: string, addresses: seq<string>, result: map<string, string>)
    requires dropAddress in addresses
    requires IsSlugsOfCreator(kv[SlugKey(slug) := Text(dropAddress)][MetaKey(dropAddress) := MetaRecord(DropMeta(slug, creator))],
                              addresses, asker, result)
    ensures var kv' := kv[SlugKey(slug) := Text(dropAddress)][MetaKey(dropAddress) := MetaRecord(DropMeta(slug, creator))];
      && (kv'[SlugKey(slug)] == Text(other) <==> other == dropAddress)
      && (dropAddress in result <==> asker == creator)
      && (dropAddress in result ==> result[dropAddress] == slug)
  {
    KeysSeparate(slug, slug, dropAddress, dropAddress);
  }
}
