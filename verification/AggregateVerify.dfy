/** Verifying the bytes of a release (artifact/aggregate_verify.go), in 64-bit arithmetic. */
module AggregateVerify {
  import opened Wrappers
  import opened SemVer
  import opened Aggregate

  /** Go's int64: the verifier checks that no operation leaves its range. */
  newtype int64 = x: int | -0x8000_0000_0000_0000 <= x < 0x8000_0000_0000_0000

  const MAX_INT64: int64 := 0x7fff_ffff_ffff_ffff
  const DEFAULT_ASSET_LIMIT: int64 := 0x400_0000
  const DEFAULT_TOTAL_LIMIT: int64 := 0x1000_0000
  const MANIFEST_LIMIT: int64 := 0x40_0000
  const CHECKSUM_LIMIT: int64 := 4096
  const MANIFEST_ASSET := "pasture-aggregate-manifest.json"
  const CHECKSUM_ASSET := "pasture-aggregate-manifest.json.sha256"

  /** What opening, reading and closing an asset delivers: a stream of any length, or nothing. */
  type AssetSource = string -> Option<string>

  type Digester = string -> string

  datatype Requirements = Requirements(
    version: Version, installer: Option<Version>, pasture: string, aura: string,
    maxAsset: int64, maxTotal: int64, expectedDigest: Option<string>)

  /** Hashing, the checksum line and JSON decoding are left abstract. */
  datatype Tools = Tools(digest: Digester, checksum: string -> string, decode: string -> Option<Wire>, production: Contracts)

  datatype Verified = Verified(release: Release, assets: map<ComponentId, string>)

  /** What a bounded read lets through. */
  predicate Readable(source: AssetSource, name: string, limit: int) {
    source(name).Some? && |source(name).value| <= limit
  }

  /** readBounded: reads at most one byte past the limit to tell that the limit is exceeded. */
  method ReadBounded(source: AssetSource, name: string, limit: int64) returns (content: Option<string>)
    requires 0 <= limit < MAX_INT64
    ensures content.Some? <==> Readable(source, name, limit as int)
    ensures content.Some? ==> content == source(name)
  {
    var stream := source(name);
    if stream.None? {
      return None;
    }
    var window := limit + 1;
    var read := if |stream.value| <= window as int then stream.value else stream.value[..window as int];
    if |read| as int64 > limit {
      return None;
    }
    return Some(read);
  }

  function Total(contents: seq<string>): nat {
    if contents == [] then 0 else Total(contents[..|contents| - 1]) + |contents[|contents| - 1]|
  }

  lemma NothingYet()
    ensures Total([]) == 0
  {
  }

  lemma TotalAppend(contents: seq<string>, content: string)
    ensures Total(contents + [content]) == Total(contents) + |content|
  {
    assert (contents + [content])[..|contents|] == contents;
  }

  function Contents(cs: seq<Component>, source: AssetSource): (contents: seq<string>)
    requires forall c | c in cs :: source(c.asset).Some?
    ensures |contents| == |cs| && forall i | 0 <= i < |cs| :: contents[i] == source(cs[i].asset).value
  {
    seq(|cs|, i requires 0 <= i < |cs| => assert cs[i] in cs; source(cs[i].asset).value)
  }

  ghost predicate ComponentVerifies(c: Component, source: AssetSource, digest: Digester, limit: int) {
    Readable(source, c.asset, limit) && digest(source(c.asset).value) == c.digest
  }

  /** Every component's bytes verify and together they stay within the total. */
  ghost predicate AllVerify(cs: seq<Component>, source: AssetSource, digest: Digester, limit: int, total: int) {
    && (forall c | c in cs :: ComponentVerifies(c, source, digest, limit))
    && Total(Contents(cs, source)) <= total
  }

  lemma {:induction false} TotalPrefix(contents: seq<string>, n: nat)
    requires n <= |contents|
    ensures Total(contents[..n]) <= Total(contents)
    decreases |contents|
  {
    if n < |contents| {
      TotalPrefix(contents[..|contents| - 1], n);
      assert contents[..|contents| - 1][..n] == contents[..n];
    } else {
      assert contents[..n] == contents;
    }
  }

  /** content is what the source delivers for the component id, with the declared digest. */
  ghost predicate Holds(cs: seq<Component>, source: AssetSource, digest: Digester, id: ComponentId, content: string) {
    exists c :: c in cs && c.id == id && digest(content) == c.digest && source(c.asset) == Some(content)
  }

  /** The component loop.  The running total is compared by subtraction, so it never leaves
      the 64-bit range and never exceeds the limit. */
  method VerifyComponents(cs: seq<Component>, source: AssetSource, digest: Digester, limit: int64, totalLimit: int64)
    returns (assets: Option<map<ComponentId, string>>, total: int64)
    requires 0 <= limit < MAX_INT64 && 0 <= totalLimit
    ensures 0 <= total <= totalLimit
    ensures assets.Some? <==> AllVerify(cs, source, digest, limit as int, totalLimit as int)
    ensures assets.Some? ==>
              && total as int == Total(Contents(cs, source))
              && (forall id :: id in assets.value <==> exists c :: c in cs && c.id == id)
              && (forall id | id in assets.value :: Holds(cs, source, digest, id, assets.value[id]))
  {
    hide Total;
    var m: map<ComponentId, string> := map[];
    var contents: seq<string> := [];
    NothingYet();
    total := 0;
    for i := 0 to |cs|
      invariant 0 <= total <= totalLimit && total as int == Total(contents)
      invariant |contents| == i
      invariant forall k | 0 <= k < i :: ComponentVerifies(cs[k], source, digest, limit as int) && contents[k] == source(cs[k].asset).value
      invariant forall id :: id in m <==> exists k :: 0 <= k < i && cs[k].id == id
      invariant forall id | id in m :: Holds(cs, source, digest, id, m[id])
    {
      assert cs[i] in cs;
      var content := ReadBounded(source, cs[i].asset, limit);
      if content.None? {
        return None, total;
      }
      if digest(content.value) != cs[i].digest {
        return None, total;
      }
      if |content.value| as int64 > totalLimit - total {
        TooMuch(cs, source, digest, limit as int, totalLimit as int, i, contents);
        return None, total;
      }
      total := total + |content.value| as int64;
      TotalAppend(contents, content.value);
      contents := contents + [content.value];
      m := m[cs[i].id := content.value];
    }
    assert contents == Contents(cs, source);
    return Some(m), total;
  }

  lemma TooMuch(cs: seq<Component>, source: AssetSource, digest: Digester, limit: int, total: int, i: nat, contents: seq<string>)
    requires i < |cs| && |contents| == i && source(cs[i].asset).Some?
    requires forall k | 0 <= k < i :: source(cs[k].asset).Some? && contents[k] == source(cs[k].asset).value
    requires Total(contents) + |source(cs[i].asset).value| > total
    ensures !AllVerify(cs, source, digest, limit, total)
  {
    if forall c | c in cs :: ComponentVerifies(c, source, digest, limit) {
      var all := Contents(cs, source);
      assert all[..i + 1][..i] == contents;
      TotalPrefix(all, i + 1);
    }
  }

  /** The limits in force: zero means the default. */
  function LimitOr(limit: int64, default_: int64): int64 {
    if limit == 0 then default_ else limit
  }

  predicate LimitsOk(q: Requirements) {
    0 <= q.maxAsset < MAX_INT64 && 0 <= q.maxTotal
  }

  ghost predicate InRange(installer: Version, r: Release) {
    && ComparePrecedence(PrecedenceOf(r.min), PrecedenceOf(installer)) <= 0
    && ComparePrecedence(PrecedenceOf(installer), PrecedenceOf(r.max)) <= 0
  }

  /** AggregateManifest.Compatible. */
  method Compatible(r: Release, installer: Version) returns (ok: bool)
    requires Valid(r.min) && Valid(r.max) && Valid(installer)
    ensures ok <==> InRange(installer, r)
  {
    PrecedenceIsComparator();
    var low := Compare(installer, r.min);
    var high := Compare(installer, r.max);
    assert ComparePrecedence(PrecedenceOf(installer), PrecedenceOf(r.min))
        == -ComparePrecedence(PrecedenceOf(r.min), PrecedenceOf(installer));
    return low >= 0 && high <= 0;
  }

  /** The release is the requested one. */
  ghost predicate Wanted(q: Requirements, r: Release) {
    && r.version == q.version && r.pasture == q.pasture && r.aura == q.aura
    && q.installer.Some? && InRange(q.installer.value, r)
  }

  /** The manifest bytes and their checksum are readable and say what was asked for. */
  ghost predicate ManifestReads(source: AssetSource, q: Requirements, tools: Tools) {
    && Readable(source, MANIFEST_ASSET, MANIFEST_LIMIT as int) && Readable(source, CHECKSUM_ASSET, CHECKSUM_LIMIT as int)
    && (q.expectedDigest.Some? ==> tools.digest(source(MANIFEST_ASSET).value) == q.expectedDigest.value)
    && source(CHECKSUM_ASSET).value == tools.checksum(source(MANIFEST_ASSET).value)
    && tools.decode(source(MANIFEST_ASSET).value).Some?
  }

  method ReadManifest(source: AssetSource, q: Requirements, tools: Tools) returns (wire: Option<Wire>)
    ensures wire.Some? <==> ManifestReads(source, q, tools)
    ensures wire.Some? ==> wire == tools.decode(source(MANIFEST_ASSET).value)
  {
    var manifest := ReadBounded(source, MANIFEST_ASSET, MANIFEST_LIMIT);
    if manifest.None? || (q.expectedDigest.Some? && tools.digest(manifest.value) != q.expectedDigest.value) {
      return None;
    }
    var checksum := ReadBounded(source, CHECKSUM_ASSET, CHECKSUM_LIMIT);
    if checksum.None? || checksum.value != tools.checksum(manifest.value) {
      return None;
    }
    return tools.decode(manifest.value);
  }

  /** What VerifyAggregate returns a value for: r, with these bytes. */
  ghost predicate Vouches(source: AssetSource, q: Requirements, tools: Tools, r: Release) {
    && ManifestReads(source, q, tools)
    && ReleaseOk(r, tools.production) && Spells(tools.decode(source(MANIFEST_ASSET).value).value, r)
    && Wanted(q, r) && LimitsOk(q)
    && AllVerify(r.components, source, tools.digest, LimitOr(q.maxAsset, DEFAULT_ASSET_LIMIT) as int,
                 LimitOr(q.maxTotal, DEFAULT_TOTAL_LIMIT) as int)
  }

  /** VerifyAggregate returns a value exactly when the source publishes the wanted release
      with bytes that verify, and the value then holds the digest-checked bytes of all nine
      components, within the total limit. */
  method VerifyAggregate(source: AssetSource, q: Requirements, tools: Tools) returns (verified: Option<Verified>)
    requires q.installer.Some? ==> Valid(q.installer.value)
    ensures verified.Some? ==>
              var r, assets := verified.value.release, verified.value.assets;
              && Vouches(source, q, tools, r)
              && (forall id: ComponentId :: id in assets && Holds(r.components, source, tools.digest, id, assets[id]))
    ensures verified.None? ==> forall r :: !Vouches(source, q, tools, r)
  {
    if q.installer.None? {
      return None;
    }
    var wire := ReadManifest(source, q, tools);
    if wire.None? {
      return None;
    }
    var parsed := ParseAggregate(wire.value, tools.production);
    if parsed.None? {
      return None;
    }
    var r := parsed.value;
    forall other | Vouches(source, q, tools, other) ensures other == r {
      SpellsOne(wire.value, other, r, tools.production);
    }
    var compatible := Compatible(r, q.installer.value);
    if r.version != q.version || !compatible || r.pasture != q.pasture || r.aura != q.aura {
      return None;
    }
    if q.maxAsset < 0 || q.maxAsset == MAX_INT64 || q.maxTotal < 0 {
      return None;
    }
    var assets, total := VerifyComponents(r.components, source, tools.digest, LimitOr(q.maxAsset, DEFAULT_ASSET_LIMIT),
                                          LimitOr(q.maxTotal, DEFAULT_TOTAL_LIMIT));
    if assets.None? {
      return None;
    }
    forall id: ComponentId ensures id in assets.value {
      CoversAllCells(r, tools.production, id);
    }
    return Some(Verified(r, assets.value));
  }
}
