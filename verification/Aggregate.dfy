/** The closed three-by-three aggregate (artifact/aggregate_manifest.go and the component
    identities of artifact/aggregate_types.go). */
module Aggregate {
  import opened Wrappers
  import opened Orders
  import opened Sequences
  import opened Numerals
  import opened SemVer
  import opened Text
  import Manifest

  datatype Harness = ClaudeCode | OpenCode | Codex

  datatype Extension = Skills | Agents | Hooks

  datatype ComponentId = ComponentId(harness: Harness, extension: Extension)

  datatype Component = Component(
    id: ComponentId, asset: string, digest: string, bundle: string, contract: string, pasture: string, aura: string)

  datatype Channel = Final | Prerelease

  datatype Release = Release(
    version: Version, min: Version, max: Version, channel: Channel, pasture: string, aura: string, components: seq<Component>)

  datatype ComponentWire = ComponentWire(
    id: string, harness: string, extension: string, asset: string, digest: string, bundle: string,
    contract: string, pasture: string, aura: string)

  datatype Wire = Wire(
    schema: string, version: string, channel: string, min: string, max: string,
    pasture: string, aura: string, components: seq<ComponentWire>)

  const SCHEMA := "pasture.aggregate-release/v1"
  const BUNDLE_PREFIX := "artifact.bundle.v1:sha256:"
  const MOVING := "pasture-stable"

  /** ProductionRuntimeContract: one registered contract per harness. */
  type Contracts = Harness -> string

  // ----- identities -----

  function HarnessText(h: Harness): string {
    match h
    case ClaudeCode => "claude-code"
    case OpenCode => "opencode"
    case Codex => "codex"
  }

  function ParseHarness(text: string): Option<Harness> {
    if text == HarnessText(ClaudeCode) then Some(ClaudeCode)
    else if text == HarnessText(OpenCode) then Some(OpenCode)
    else if text == HarnessText(Codex) then Some(Codex)
    else None
  }

  function ExtensionText(x: Extension): string {
    match x
    case Skills => "skills"
    case Agents => "agents"
    case Hooks => "hooks"
  }

  function ParseExtension(text: string): Option<Extension> {
    if text == ExtensionText(Skills) then Some(Skills)
    else if text == ExtensionText(Agents) then Some(Agents)
    else if text == ExtensionText(Hooks) then Some(Hooks)
    else None
  }

  function IdText(id: ComponentId): string {
    HarnessText(id.harness) + "/" + ExtensionText(id.extension)
  }

  /** Every coordinate, harness by harness. */
  function ComponentIds(): (ids: seq<ComponentId>)
    ensures |ids| == 9
  {
    [ComponentId(ClaudeCode, Skills), ComponentId(ClaudeCode, Agents), ComponentId(ClaudeCode, Hooks),
     ComponentId(OpenCode, Skills), ComponentId(OpenCode, Agents), ComponentId(OpenCode, Hooks),
     ComponentId(Codex, Skills), ComponentId(Codex, Agents), ComponentId(Codex, Hooks)]
  }

  lemma HarnessRoundTrip(h: Harness, text: string)
    ensures ParseHarness(HarnessText(h)) == Some(h)
    ensures ParseHarness(text).Some? ==> HarnessText(ParseHarness(text).value) == text
  {
    assert HarnessText(ClaudeCode)[1] == 'l' && HarnessText(OpenCode)[1] == 'p' && HarnessText(Codex)[1] == 'o';
  }

  lemma ExtensionRoundTrip(x: Extension, text: string)
    ensures ParseExtension(ExtensionText(x)) == Some(x)
    ensures ParseExtension(text).Some? ==> ExtensionText(ParseExtension(text).value) == text
  {
    assert ExtensionText(Skills)[0] == 's' && ExtensionText(Agents)[0] == 'a' && ExtensionText(Hooks)[0] == 'h';
  }

  /** Different coordinates are spelled differently. */
  lemma IdTextInjective(a: ComponentId, b: ComponentId)
    ensures IdText(a) == IdText(b) <==> a == b
  {
    if IdText(a) == IdText(b) {
      var s, t := IdText(a), IdText(b);
      assert HarnessText(ClaudeCode)[1] == 'l' && HarnessText(OpenCode)[1] == 'p' && HarnessText(Codex)[1] == 'o';
      assert s[1] == HarnessText(a.harness)[1] && t[1] == HarnessText(b.harness)[1];
      var n := |HarnessText(a.harness)| + 1;
      assert s[n..] == ExtensionText(a.extension) && t[n..] == ExtensionText(b.extension);
      ExtensionRoundTrip(a.extension, "");
      ExtensionRoundTrip(b.extension, "");
    }
  }

  lemma SubsetOfEqualSize<T>(a: set<T>, b: set<T>)
    requires a <= b && |a| == |b|
    ensures a == b
  {
    assert |b - a| == |b| - |a|;
  }

  lemma EveryIdIsListed(id: ComponentId)
    ensures id in ComponentIds()
  {
    var row := match id.harness case ClaudeCode => 0 case OpenCode => 3 case Codex => 6;
    var column := match id.extension case Skills => 0 case Agents => 1 case Hooks => 2;
    assert ComponentIds()[row + column] == id;
  }

  /** Nine distinct members of a nine-element set are all of it. */
  lemma NineAreAll(ids: seq<ComponentId>)
    requires |ids| == 9 && NoRepeats(ids)
    ensures forall id: ComponentId :: id in ids
  {
    var mine, all := set id | id in ids, set id | id in ComponentIds();
    forall id: ComponentId ensures id in all {
      EveryIdIsListed(id);
    }
    NoRepeatsSize(ids, mine);
    NoRepeatsSize(ComponentIds(), all);
    SubsetOfEqualSize(mine, all);
  }

  // ----- assets -----

  function Stem(h: Harness): string {
    if h.ClaudeCode? then "claude" else HarnessText(h)
  }

  function AssetName(version: Version, id: ComponentId): string {
    "pasture-" + version.value + "-" + Stem(id.harness) + "-" + ExtensionText(id.extension) + ".tgz"
  }

  predicate Contains(s: string, part: string) {
    exists i :: 0 <= i <= |s| && part <= s[i..]
  }

  /** Within one version, an asset name names its component. */
  lemma AssetNameInjective(version: Version, a: ComponentId, b: ComponentId)
    ensures AssetName(version, a) == AssetName(version, b) <==> a == b
  {
    var s, t := AssetName(version, a), AssetName(version, b);
    if s == t {
      var n := |"pasture-" + version.value + "-"|;
      assert Stem(ClaudeCode) == "claude" && Stem(OpenCode) == "opencode" && Stem(Codex) == "codex";
      assert s[n + 1] == Stem(a.harness)[1] && t[n + 1] == Stem(b.harness)[1];
      var k := n + |Stem(a.harness)| + 1;
      assert s[k] == ExtensionText(a.extension)[0] && t[k] == ExtensionText(b.extension)[0];
    }
  }

  // ----- components -----

  /** ^[0-9a-f]{40}$ */
  predicate IsRevision(text: string) {
    |text| == 40 && AllDigits(text, 16)
  }

  predicate IsBundleId(text: string) {
    Manifest.LowerHexValue(text, BUNDLE_PREFIX)
  }

  predicate ComponentOk(c: Component, version: Version, pasture: string, aura: string, production: Contracts) {
    && c.asset == AssetName(version, c.id) && !Contains(c.asset, MOVING)
    && Manifest.IsDigest(c.digest) && IsBundleId(c.bundle)
    && c.pasture == pasture && c.aura == aura
    && c.contract == production(c.id.harness)
  }

  function ToWire(c: Component): ComponentWire {
    ComponentWire(IdText(c.id), HarnessText(c.id.harness), ExtensionText(c.id.extension),
                  c.asset, c.digest, c.bundle, c.contract, c.pasture, c.aura)
  }

  /** One component, without looking at the others. */
  function FromWire(w: ComponentWire, version: Version, pasture: string, aura: string, production: Contracts): Option<Component> {
    var h, x := ParseHarness(w.harness), ParseExtension(w.extension);
    if h.None? || x.None? then None
    else
      var c := Component(ComponentId(h.value, x.value), w.asset, w.digest, w.bundle, w.contract, w.pasture, w.aura);
      if w.id == IdText(c.id) && ComponentOk(c, version, pasture, aura, production) then Some(c) else None
  }

  lemma ComponentRoundTrip(c: Component, w: ComponentWire, version: Version, pasture: string, aura: string, production: Contracts)
    ensures ComponentOk(c, version, pasture, aura, production) ==> FromWire(ToWire(c), version, pasture, aura, production) == Some(c)
    ensures FromWire(w, version, pasture, aura, production).Some? ==>
              var d := FromWire(w, version, pasture, aura, production).value;
              ComponentOk(d, version, pasture, aura, production) && ToWire(d) == w
  {
    HarnessRoundTrip(c.id.harness, w.harness);
    ExtensionRoundTrip(c.id.extension, w.extension);
  }

  function IdOf(c: Component): ComponentId { c.id }

  function IdTextOf(c: Component): string { IdText(c.id) }

  function SortComponents(cs: seq<Component>): (sorted: seq<Component>)
    ensures multiset(sorted) == multiset(cs) && SortedBy(ByText(IdTextOf), sorted)
  {
    StringOrder();
    OnIsComparator(IdTextOf, CompareString);
    Sort(ByText(IdTextOf), cs)
  }

  ghost predicate ComponentsOk(cs: seq<Component>, version: Version, pasture: string, aura: string, production: Contracts) {
    |cs| == 9 && DistinctOn(IdOf, cs) && forall c | c in cs :: ComponentOk(c, version, pasture, aura, production)
  }

  /** A list that spells these wires holds, at each place, what that wire decodes to. */
  lemma SpelledAt(ds: seq<Component>, wires: seq<ComponentWire>, k: nat, version: Version, pasture: string, aura: string, production: Contracts)
    requires Mapped(ToWire, ds) == wires && k < |wires|
    requires forall d | d in ds :: ComponentOk(d, version, pasture, aura, production)
    ensures |ds| == |wires| && FromWire(wires[k], version, pasture, aura, production) == Some(ds[k])
  {
    MappedAt(ToWire, ds);
    assert ds[k] in ds;
    ComponentRoundTrip(ds[k], wires[k], version, pasture, aura, production);
  }

  lemma BadComponent(wires: seq<ComponentWire>, i: nat, version: Version, pasture: string, aura: string, production: Contracts)
    requires i < |wires| && FromWire(wires[i], version, pasture, aura, production).None?
    ensures forall ds | ComponentsOk(ds, version, pasture, aura, production) :: Mapped(ToWire, ds) != wires
  {
    forall ds | ComponentsOk(ds, version, pasture, aura, production) ensures Mapped(ToWire, ds) != wires {
      if Mapped(ToWire, ds) == wires {
        SpelledAt(ds, wires, i, version, pasture, aura, production);
      }
    }
  }

  lemma SpelledTwice(ds: seq<Component>, wires: seq<ComponentWire>, i: nat, k: nat, version: Version, pasture: string, aura: string, production: Contracts)
    requires Mapped(ToWire, ds) == wires && k < i < |wires|
    requires forall d | d in ds :: ComponentOk(d, version, pasture, aura, production)
    requires SameId(wires, i, k, version, pasture, aura, production)
    ensures !DistinctOn(IdOf, ds)
  {
    SpelledAt(ds, wires, i, version, pasture, aura, production);
    SpelledAt(ds, wires, k, version, pasture, aura, production);
    assert IdOf(ds[k]) == IdOf(ds[i]);
  }

  ghost predicate SameId(wires: seq<ComponentWire>, i: nat, k: nat, version: Version, pasture: string, aura: string, production: Contracts)
    requires k < i < |wires|
  {
    var c, d := FromWire(wires[i], version, pasture, aura, production), FromWire(wires[k], version, pasture, aura, production);
    c.Some? && d.Some? && c.value.id == d.value.id
  }

  lemma SeenTwice(wires: seq<ComponentWire>, i: nat, k: nat, version: Version, pasture: string, aura: string, production: Contracts)
    requires k < i < |wires| && SameId(wires, i, k, version, pasture, aura, production)
    ensures forall ds | ComponentsOk(ds, version, pasture, aura, production) :: Mapped(ToWire, ds) != wires
  {
    forall ds | ComponentsOk(ds, version, pasture, aura, production) ensures Mapped(ToWire, ds) != wires {
      if Mapped(ToWire, ds) == wires {
        SpelledTwice(ds, wires, i, k, version, pasture, aura, production);
      }
    }
  }

  lemma {:induction false} DecodedAll(cs: seq<Component>, wires: seq<ComponentWire>, version: Version, pasture: string, aura: string, production: Contracts)
    requires |cs| == |wires| && forall k | 0 <= k < |cs| :: FromWire(wires[k], version, pasture, aura, production) == Some(cs[k])
    ensures Mapped(ToWire, cs) == wires && forall c | c in cs :: ComponentOk(c, version, pasture, aura, production)
  {
    MappedAt(ToWire, cs);
    forall k | 0 <= k < |cs| ensures ToWire(cs[k]) == wires[k] && ComponentOk(cs[k], version, pasture, aura, production) {
      ComponentRoundTrip(cs[k], wires[k], version, pasture, aura, production);
    }
  }

  /** The component loop with its `seen` map.  Its `assets` map cannot add a refusal: by
      AssetNameInjective two components with one asset name are one component. */
  method ReadComponents(wires: seq<ComponentWire>, version: Version, pasture: string, aura: string, production: Contracts)
    returns (cs: Option<seq<Component>>)
    ensures cs.Some? ==> ComponentsOk(cs.value, version, pasture, aura, production) && Mapped(ToWire, cs.value) == wires
    ensures cs.None? ==> forall ds | ComponentsOk(ds, version, pasture, aura, production) :: Mapped(ToWire, ds) != wires
  {
    if |wires| != 9 {
      return None;
    }
    var components: seq<Component> := [];
    var seen: set<ComponentId> := {};
    for i := 0 to 9
      invariant |components| == i
      invariant forall k | 0 <= k < i :: FromWire(wires[k], version, pasture, aura, production) == Some(components[k])
      invariant DistinctOn(IdOf, components)
      invariant forall id :: id in seen <==> exists k :: 0 <= k < i && components[k].id == id
    {
      var c := FromWire(wires[i], version, pasture, aura, production);
      if c.None? {
        BadComponent(wires, i, version, pasture, aura, production);
        return None;
      }
      if c.value.id in seen {
        ghost var k :| 0 <= k < i && components[k].id == c.value.id;
        SeenTwice(wires, i, k, version, pasture, aura, production);
        return None;
      }
      seen := seen + {c.value.id};
      components := components + [c.value];
    }
    DecodedAll(components, wires, version, pasture, aura, production);
    return Some(components);
  }

  // ----- ParseAggregateManifest and MarshalJSON -----

  function ChannelText(c: Channel): string {
    if c.Final? then "final" else "prerelease"
  }

  function ParseChannel(text: string): Option<Channel> {
    if text == "final" then Some(Final) else if text == "prerelease" then Some(Prerelease) else None
  }

  /** A release whose parts agree with one another. */
  ghost predicate HeaderOk(r: Release) {
    && Valid(r.version) && Valid(r.min) && Valid(r.max)
    && (r.channel.Final? <==> r.version.pre == "")
    && ComparePrecedence(PrecedenceOf(r.min), PrecedenceOf(r.max)) <= 0
    && IsRevision(r.pasture) && IsRevision(r.aura)
  }

  /** The releases there are. */
  ghost predicate ReleaseOk(r: Release, production: Contracts) {
    && HeaderOk(r)
    && ComponentsOk(r.components, r.version, r.pasture, r.aura, production)
    && SortedBy(ByText(IdTextOf), r.components)
  }

  function Header(r: Release): Wire {
    Wire(SCHEMA, r.version.value, ChannelText(r.channel), r.min.value, r.max.value, r.pasture, r.aura, [])
  }

  /** wire spells r: the same header, and r's components in any order. */
  ghost predicate Spells(wire: Wire, r: Release) {
    && wire.(components := []) == Header(r)
    && multiset(wire.components) == multiset(Mapped(ToWire, r.components))
  }

  method Marshal(r: Release) returns (wire: Wire)
    ensures wire == Header(r).(components := Mapped(ToWire, r.components))
  {
    var components: seq<ComponentWire> := [];
    for i := 0 to |r.components|
      invariant components == Mapped(ToWire, r.components[..i])
    {
      assert r.components[..i + 1][..i] == r.components[..i];
      components := components + [ToWire(r.components[i])];
    }
    assert r.components[..|r.components|] == r.components;
    return Header(r).(components := components);
  }

  /** Everything before the component list. */
  method ParseHeader(wire: Wire) returns (r: Option<Release>)
    ensures r.Some? ==> HeaderOk(r.value) && Header(r.value) == wire.(components := []) && r.value.components == []
    ensures r.None? ==> forall q | HeaderOk(q) :: Header(q) != wire.(components := [])
  {
    if wire.schema != SCHEMA {
      return None;
    }
    var version := ParseVersion(wire.version);
    var channel := ParseChannel(wire.channel);
    if version.None? || channel.None? || channel.value.Final? != (version.value.pre == "") {
      return None;
    }
    var min := ParseVersion(wire.min);
    var max := ParseVersion(wire.max);
    if min.None? || max.None? {
      return None;
    }
    ParsedIsValid(wire.version);
    ParsedIsValid(wire.min);
    ParsedIsValid(wire.max);
    var order := Compare(min.value, max.value);
    if order > 0 || !IsRevision(wire.pasture) || !IsRevision(wire.aura) {
      return None;
    }
    return Some(Release(version.value, min.value, max.value, channel.value, wire.pasture, wire.aura, []));
  }

  lemma ParsedIsValid(value: string)
    ensures Parsed(value).Some? ==> Parsed(value).value.value == value && Valid(Parsed(value).value)
  {
  }

  /** What a spelled release's component list looks like in the wire's order. */
  lemma WireOrder(wires: seq<ComponentWire>, q: Release, production: Contracts) returns (ds: seq<Component>)
    requires ComponentsOk(q.components, q.version, q.pasture, q.aura, production)
    requires multiset(wires) == multiset(Mapped(ToWire, q.components))
    ensures ComponentsOk(ds, q.version, q.pasture, q.aura, production) && Mapped(ToWire, ds) == wires
    ensures multiset(ds) == multiset(q.components)
  {
    var nothing := Component(ComponentId(ClaudeCode, Skills), "", "", "", "", "", "");
    var f := (w: ComponentWire) =>
      var c := FromWire(w, q.version, q.pasture, q.aura, production);
      if c.Some? then c.value else nothing;
    ds := Mapped(f, wires);
    MappedPermuted(f, wires, Mapped(ToWire, q.components));
    forall c | c in q.components ensures f(ToWire(c)) == c {
      ComponentRoundTrip(c, ToWire(c), q.version, q.pasture, q.aura, production);
    }
    BackAgain(f, q.components);
    ToWireAgain(f, wires, q.components);
    DistinctOnPermuted(IdOf, ds, q.components);
    NoRepeatsPermuted(ds, q.components);
    assert |multiset(ds)| == |multiset(q.components)|;
  }

  lemma {:induction false} BackAgain(f: ComponentWire -> Component, cs: seq<Component>)
    requires forall c | c in cs :: f(ToWire(c)) == c
    ensures Mapped(f, Mapped(ToWire, cs)) == cs
    decreases |cs|
  {
    if cs != [] {
      var n := |cs| - 1;
      assert cs[n] in cs;
      BackAgain(f, cs[..n]);
      assert Mapped(ToWire, cs)[..n] == Mapped(ToWire, cs[..n]);
    }
  }

  lemma ToWireAgain(f: ComponentWire -> Component, wires: seq<ComponentWire>, cs: seq<Component>)
    requires forall c | c in cs :: f(ToWire(c)) == c
    requires multiset(wires) == multiset(Mapped(ToWire, cs))
    ensures Mapped(ToWire, Mapped(f, wires)) == wires
  {
    NoRepeatsPermuted(wires, Mapped(ToWire, cs));
    MappedAt(ToWire, cs);
    MappedAt(f, wires);
    MappedAt(ToWire, Mapped(f, wires));
    forall i | 0 <= i < |wires| ensures ToWire(f(wires[i])) == wires[i] {
      assert wires[i] in wires;
      var k :| 0 <= k < |cs| && Mapped(ToWire, cs)[k] == wires[i];
      assert cs[k] in cs;
    }
  }

  lemma SortedRelease(r: Release, cs: seq<Component>, production: Contracts)
    requires HeaderOk(r) && ComponentsOk(cs, r.version, r.pasture, r.aura, production)
    ensures ReleaseOk(r.(components := SortComponents(cs)), production)
  {
    var sorted := SortComponents(cs);
    DistinctOnPermuted(IdOf, sorted, cs);
    NoRepeatsPermuted(sorted, cs);
    assert |multiset(sorted)| == |multiset(cs)|;
  }

  lemma SameHeader(a: Release, b: Release)
    requires HeaderOk(a) && HeaderOk(b) && Header(a) == Header(b)
    ensures a.(components := []) == b.(components := [])
  {
    assert ChannelText(Final)[0] == 'f' && ChannelText(Prerelease)[0] == 'p';
    assert ChannelText(a.channel)[0] == ChannelText(b.channel)[0];
  }

  /** ParseAggregateManifest accepts exactly the spellings of releases, and returns what
      they spell. */
  method ParseAggregate(wire: Wire, production: Contracts) returns (r: Option<Release>)
    ensures r.Some? ==> ReleaseOk(r.value, production) && Spells(wire, r.value)
    ensures r.None? ==> forall q | ReleaseOk(q, production) :: !Spells(wire, q)
  {
    var header := ParseHeader(wire);
    if header.None? {
      return None;
    }
    var h := header.value;
    var components := ReadComponents(wire.components, h.version, h.pasture, h.aura, production);
    if components.None? {
      forall q | ReleaseOk(q, production) ensures !Spells(wire, q) {
        if Spells(wire, q) {
          SameHeader(q, h);
          var ds := WireOrder(wire.components, q, production);
        }
      }
      return None;
    }
    SortedRelease(h, components.value, production);
    MappedPermuted(ToWire, components.value, SortComponents(components.value));
    return Some(h.(components := SortComponents(components.value)));
  }

  lemma SortedComponentsUnique(a: seq<Component>, b: seq<Component>)
    requires multiset(a) == multiset(b) && DistinctOn(IdOf, a)
    requires SortedBy(ByText(IdTextOf), a) && SortedBy(ByText(IdTextOf), b)
    ensures a == b
  {
    StringOrder();
    OnIsComparator(IdTextOf, CompareString);
    ByTextThen(IdTextOf, ByText(IdTextOf));
    DistinctOnMembers(IdOf, a);
    forall x, y | x in a && y in a && ByText(IdTextOf)(x, y) == 0 ensures x == y {
      IdTextInjective(x.id, y.id);
      assert IdOf(x) == IdOf(y);
    }
    SortedUnique(ByText(IdTextOf), a, b);
  }

  /** A wire value spells at most one release: the order of its components does not matter. */
  lemma SpellsOne(wire: Wire, a: Release, b: Release, production: Contracts)
    requires ReleaseOk(a, production) && ReleaseOk(b, production) && Spells(wire, a) && Spells(wire, b)
    ensures a == b
  {
    SameHeader(a, b);
    var ds := WireOrder(wire.components, a, production);
    var es := WireOrder(wire.components, b, production);
    MappedAt(ToWire, ds);
    MappedAt(ToWire, es);
    forall i | 0 <= i < |ds| ensures ds[i] == es[i] {
      assert ds[i] in ds && es[i] in es;
      ComponentRoundTrip(ds[i], wire.components[i], a.version, a.pasture, a.aura, production);
      ComponentRoundTrip(es[i], wire.components[i], a.version, a.pasture, a.aura, production);
    }
    assert ds == es;
    SortedComponentsUnique(a.components, b.components);
  }

  /** Parsing a marshalled release returns it. */
  method RoundTrip(r: Release, production: Contracts) returns (parsed: Option<Release>)
    requires ReleaseOk(r, production)
    ensures parsed == Some(r)
  {
    var wire := Marshal(r);
    assert Spells(wire, r);
    parsed := ParseAggregate(wire, production);
    SpellsOne(wire, r, parsed.value, production);
  }

  /** A release covers the whole matrix. */
  lemma CoversAllCells(r: Release, production: Contracts, id: ComponentId)
    requires ReleaseOk(r, production)
    ensures exists c :: c in r.components && c.id == id
  {
    var ids := Mapped(IdOf, r.components);
    MappedAt(IdOf, r.components);
    assert NoRepeats(ids);
    NineAreAll(ids);
    assert id in ids;
    var i :| 0 <= i < |ids| && ids[i] == id;
    assert r.components[i] in r.components;
  }

  lemma ContainsInside(before: string, s: string, after: string, part: string)
    requires Contains(s, part)
    ensures Contains(before + s + after, part)
  {
    var i :| 0 <= i <= |s| && part <= s[i..];
    var all := before + s + after;
    assert all[|before| + i..] == s[i..] + after;
    assert part <= all[|before| + i..];
  }

  // ----- which versions can be released -----

  /** What follows the version in an asset name. */
  function AssetTail(id: ComponentId): string {
    "-" + Stem(id.harness) + "-" + ExtensionText(id.extension) + ".tgz"
  }

  /** No stem, extension or suffix has a 'b', so nothing behind the version completes the word. */
  lemma TailHasNoB(id: ComponentId)
    ensures 'b' !in AssetTail(id) && AssetTail(id)[0] == '-'
  {
    assert 'b' !in Stem(id.harness);
    assert 'b' !in ExtensionText(id.extension);
  }

  lemma VersionStartsWithDigit(version: Version)
    requires Valid(version)
    ensures version.value != "" && '0' <= version.value[0] <= '9'
  {
    ParsedIsCanonical(version.value);
    CoreShape(version.major, version.minor, version.patch);
  }

  /** The check meant for moving asset names looks at nothing but the version: an asset name
      contains the word exactly when the version does. */
  lemma AssetIsMovingIff(version: Version, id: ComponentId)
    requires Valid(version)
    ensures Contains(AssetName(version, id), MOVING) <==> Contains(version.value, MOVING)
  {
    VersionStartsWithDigit(version);
    TailHasNoB(id);
    assert AssetName(version, id) == "pasture-" + version.value + AssetTail(id);
    WordIsInVersion(version.value, AssetTail(id));
  }

  lemma WordIsInVersion(v: string, tail: string)
    requires v != "" && '0' <= v[0] <= '9' && 'b' !in tail && tail != "" && tail[0] == '-'
    ensures Contains("pasture-" + v + tail, MOVING) <==> Contains(v, MOVING)
  {
    var name, n := "pasture-" + v + tail, |MOVING|;
    if Contains(v, MOVING) {
      ContainsInside("pasture-", v, tail, MOVING);
    }
    if Contains(name, MOVING) {
      var i :| 0 <= i <= |name| && MOVING <= name[i..];
      WordIsInside(v, tail, i);
      assert v[i - 8..][..n] == name[i..][..n];
      assert MOVING <= v[i - 8..];
    }
  }

  /** An occurrence starts behind the prefix and ends before the tail: the version's first
      character is no 's', and a 'b' and no hyphen follow the word's only hyphen. */
  lemma WordIsInside(v: string, tail: string, i: nat)
    requires v != "" && '0' <= v[0] <= '9' && 'b' !in tail && tail != "" && tail[0] == '-'
    requires i <= |"pasture-" + v + tail| && MOVING <= ("pasture-" + v + tail)[i..]
    ensures 8 <= i && i - 8 + |MOVING| <= |v|
  {
    var name := "pasture-" + v + tail;
    assert forall j | 0 <= j < 8 :: name[j] == "pasture-"[j];
    assert forall j | 8 + |v| <= j < |name| :: name[j] == tail[j - 8 - |v|];
    var word := name[i..];
    assert word[0] == 'p' && word[8] == 's' && word[11] == 'b' && word[12] == 'l' && word[13] == 'e';
    assert name[i] == 'p' && name[i + 8] == 's' && name[i + 11] == 'b' && name[i + 12] == 'l' && name[i + 13] == 'e';
    assert name[8] == v[0] && name[8 + |v|] == tail[0];
  }

  function Zeros(n: nat): (zeros: string)
    ensures |zeros| == n && AllDigits(zeros, 16)
  {
    seq(n, i => '0')
  }

  /** The least one can publish for a coordinate. */
  function BlankComponent(version: Version, id: ComponentId, production: Contracts): Component {
    Component(id, AssetName(version, id), Manifest.DIGEST_PREFIX + Zeros(64), BUNDLE_PREFIX + Zeros(64),
              production(id.harness), Zeros(40), Zeros(40))
  }

  function BlankRelease(version: Version, production: Contracts): Release {
    Release(version, version, version, if version.pre == "" then Final else Prerelease, Zeros(40), Zeros(40),
            Mapped(id => BlankComponent(version, id, production), ComponentIds()))
  }

  lemma BlankComponentOk(version: Version, id: ComponentId, production: Contracts)
    requires Valid(version) && !Contains(version.value, MOVING)
    ensures ComponentOk(BlankComponent(version, id, production), version, Zeros(40), Zeros(40), production)
  {
    hide Valid, Contains, AssetName;
    AssetIsMovingIff(version, id);
    assert (Manifest.DIGEST_PREFIX + Zeros(64))[|Manifest.DIGEST_PREFIX|..] == Zeros(64);
    assert (BUNDLE_PREFIX + Zeros(64))[|BUNDLE_PREFIX|..] == Zeros(64);
  }

  lemma BlankHeaderOk(version: Version, production: Contracts)
    requires Valid(version)
    ensures HeaderOk(BlankRelease(version, production))
  {
    hide Valid, PrecedenceOf, ComparePrecedence;
    PrecedenceIsComparator();
    var p := PrecedenceOf(version);
    assert ComparePrecedence(p, p) == -ComparePrecedence(p, p);
  }

  lemma BlankReleaseOk(version: Version, production: Contracts)
    requires Valid(version) && !Contains(version.value, MOVING)
    ensures ComponentsOk(BlankRelease(version, production).components, version, Zeros(40), Zeros(40), production)
  {
    hide Valid, Contains, ComponentOk, AssetName;
    var f := id => BlankComponent(version, id, production);
    MappedAt(f, ComponentIds());
    forall id: ComponentId ensures ComponentOk(f(id), version, Zeros(40), Zeros(40), production) {
      BlankComponentOk(version, id, production);
    }
  }

  /** A version can be released exactly when it does not itself contain "pasture-stable". */
  lemma ReleasableIff(version: Version, production: Contracts)
    requires Valid(version)
    ensures (exists r :: ReleaseOk(r, production) && r.version == version) <==> !Contains(version.value, MOVING)
  {
    forall r | ReleaseOk(r, production) && r.version == version ensures !Contains(version.value, MOVING) {
      assert r.components[0] in r.components;
      AssetIsMovingIff(version, r.components[0].id);
    }
    if !Contains(version.value, MOVING) {
      BlankHeaderOk(version, production);
      BlankReleaseOk(version, production);
      var r := BlankRelease(version, production);
      SortedRelease(r, r.components, production);
    }
  }

  /** Such versions exist: ParseVersion accepts this one. */
  lemma MovingVersionIsValid()
    ensures Parsed("1.0.0-pasture-stable").Some? && Contains("1.0.0-pasture-stable", MOVING)
  {
    WordIsValidPre();
    OneRenders();
    CanonicalIsParsed(1, 0, 0, MOVING);
    hide Parsed;
    assert MOVING <= "1.0.0-pasture-stable"[6..];
  }

  lemma WordIsValidPre()
    ensures ValidPre(MOVING)
  {
    hide Split;
    SplitWithout(MOVING, '.');
    assert MOVING[0] == 'p' && DigitValue('p') == 16;
    assert ValidField(MOVING);
  }

  lemma OneRenders()
    ensures Render(1, 0, 0, MOVING) == "1.0.0-pasture-stable"
  {
    CoreSpelling("1", "0", "0");
    hide Join;
    assert Digits(1, 10) == "1" && Digits(0, 10) == "0";
  }
}
