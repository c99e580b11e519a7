/** The upgrade and repair flow of `pasture upgrade` as a recovery protocol over the files on
    disk (cmd/pasture/cmd_upgrade.go).  Downloads, reads, prompts and the single atomic rename
    may each fail; what they do is a parameter of the run. */
module UpgradeRecovery {
  import opened Wrappers
  import opened Text
  import opened UpgradeVersion

  datatype Destination = Destination(name: string, path: string)

  datatype Item = Item(name: string, path: string, asset: string)

  datatype Verified = Verified(name: string, path: string, bytes: string)

  datatype Release = Release(tag: string, assets: seq<string>)

  datatype Channel = Raw | Managed(manager: string)

  datatype Options = Options(version: string, versionSet: bool, dryRun: bool, allowDowngrade: bool)

  datatype Outcome =
    | Advised
    | AlreadyThere
    | DryRun
    | Declined
    | Completed
    | Refused(reason: Reason)
    | ReplaceFailed(name: string, replaced: seq<string>)

  datatype Reason =
    | BadOptions | NoExecutable | MixedChannels | Devel | NoRelease | Unordered | Downgrade
    | Unplannable | NoConfirmation | NoChecksums | NoChecksum | BadDownload | Mismatch | UnreadableLocal

  /** What the world does during one run. */
  datatype World = World(
    executable: bool,
    release: Option<Release>,
    checksums: Option<Checksums>,
    fetch: string -> Option<string>,
    readable: string -> bool,
    confirm: Option<bool>,
    installs: nat -> bool)

  /** checksums.txt: the published hash of each asset it lists. */
  type Checksums = map<string, string>

  type Files = map<string, string>

  type Digester = string -> string

  const MAIN := "pasture"
  const DAEMON := "pastured"
  const CHECKSUMS := "checksums.txt"

  // ----- destinations and plan -----

  /** planUpgradeDestinations: `sibling` is pastured's resolved path, if it is there and its
      symlink resolves. */
  function PlanDestinations(resolved: string, sibling: Option<string>): seq<Destination> {
    [Destination(MAIN, resolved)] +
    if sibling.Some? && sibling.value != "" then [Destination(DAEMON, sibling.value)] else []
  }

  predicate Supported(os: string, arch: string) {
    (os == "linux" || os == "darwin") && (arch == "amd64" || arch == "arm64")
  }

  function ItemFor(d: Destination, os: string, arch: string): Item {
    Item(d.name, d.path, AssetName(d.name, os, arch))
  }

  function AssetName(binary: string, os: string, arch: string): string {
    binary + "-" + os + "-" + arch
  }

  function ItemsFor(destinations: seq<Destination>, os: string, arch: string): (items: seq<Item>)
    ensures |items| == |destinations| && forall i | 0 <= i < |items| :: items[i] == ItemFor(destinations[i], os, arch)
  {
    seq(|destinations|, i requires 0 <= i < |destinations| => ItemFor(destinations[i], os, arch))
  }

  ghost predicate Plannable(release: Release, items: seq<Item>, os: string, arch: string) {
    Supported(os, arch) && CHECKSUMS in release.assets && forall item | item in items :: item.asset in release.assets
  }

  method AssemblePlan(release: Release, destinations: seq<Destination>, os: string, arch: string) returns (plan: Option<seq<Item>>)
    ensures plan.Some? <==> Plannable(release, ItemsFor(destinations, os, arch), os, arch)
    ensures plan.Some? ==> plan.value == ItemsFor(destinations, os, arch)
  {
    if !Supported(os, arch) || CHECKSUMS !in release.assets {
      return None;
    }
    ghost var all := ItemsFor(destinations, os, arch);
    var items: seq<Item> := [];
    for i := 0 to |destinations|
      invariant items == all[..i] && forall k | 0 <= k < i :: all[k].asset in release.assets
    {
      var item := ItemFor(destinations[i], os, arch);
      if item.asset !in release.assets {
        assert all[i] in all;
        return None;
      }
      items := items + [item];
    }
    return Some(items);
  }

  // ----- replacing files -----

  class Disk {
    var files: Files

    /** installPastureBinary: a staged file renamed over the target, or nothing. */
    method Install(path: string, bytes: string, works: bool) returns (ok: bool)
      modifies this
      ensures ok == works
      ensures files == if works then old(files)[path := bytes] else old(files)
    {
      if works {
        files := files[path := bytes];
      }
      return works;
    }
  }

  /** The files after these replacements, in order. */
  function Installed(files: Files, verified: seq<Verified>): Files {
    if verified == [] then files
    else
      var last := verified[|verified| - 1];
      Installed(files, verified[..|verified| - 1])[last.path := last.bytes]
  }

  function Names(verified: seq<Verified>): (names: seq<string>)
    ensures |names| == |verified| && forall i | 0 <= i < |names| :: names[i] == verified[i].name
  {
    seq(|verified|, i requires 0 <= i < |verified| => verified[i].name)
  }

  /** How many of the first n installations succeed before one fails. */
  function Progress(installs: nat -> bool, n: nat): (k: nat)
    ensures k <= n && (forall i: nat | i < k :: installs(i)) && (k < n ==> !installs(k))
  {
    if n == 0 then 0
    else
      var k := Progress(installs, n - 1);
      if k < n - 1 then k else if installs(n - 1) then n else n - 1
  }

  /** replaceUpgradeBinaries: an exact prefix is replaced, and a failure names that prefix. */
  method Replace(disk: Disk, verified: seq<Verified>, installs: nat -> bool) returns (outcome: Outcome)
    modifies disk
    ensures var k := Progress(installs, |verified|);
            && disk.files == Installed(old(disk.files), verified[..k])
            && outcome == if k == |verified| then Completed
                          else ReplaceFailed(verified[k].name, Names(verified[..k]))
  {
    var replaced: seq<string> := [];
    for i := 0 to |verified|
      invariant forall j: nat | j < i :: installs(j)
      invariant disk.files == Installed(old(disk.files), verified[..i]) && replaced == Names(verified[..i])
    {
      var ok := disk.Install(verified[i].path, verified[i].bytes, installs(i));
      if !ok {
        assert Progress(installs, |verified|) == i;
        return ReplaceFailed(verified[i].name, replaced);
      }
      assert verified[..i + 1][..i] == verified[..i];
      replaced := replaced + [verified[i].name];
    }
    return Completed;
  }

  // ----- downloads -----

  predicate Fetchable(item: Item, published: Checksums, fetch: string -> Option<string>, digest: Digester) {
    && item.asset in published && fetch(item.asset).Some?
    && digest(fetch(item.asset).value) == published[item.asset]
  }

  function VerifiedOf(items: seq<Item>, fetch: string -> Option<string>): (verified: seq<Verified>)
    requires forall item | item in items :: fetch(item.asset).Some?
    ensures |verified| == |items|
    ensures forall i | 0 <= i < |items| :: verified[i] == Verified(items[i].name, items[i].path, fetch(items[i].asset).value)
  {
    seq(|items|, i requires 0 <= i < |items| =>
          assert items[i] in items; Verified(items[i].name, items[i].path, fetch(items[i].asset).value))
  }

  /** Every asset is downloaded and checked before anything is replaced. */
  method DownloadAndVerify(published: Checksums, items: seq<Item>, fetch: string -> Option<string>, digest: Digester)
    returns (r: Result<seq<Verified>, Reason>)
    ensures r.Ok? <==> forall item | item in items :: Fetchable(item, published, fetch, digest)
    ensures r.Ok? ==> r.value == VerifiedOf(items, fetch)
  {
    var verified: seq<Verified> := [];
    for i := 0 to |items|
      invariant forall k | 0 <= k < i :: Fetchable(items[k], published, fetch, digest)
      invariant |verified| == i
      invariant forall k | 0 <= k < i :: verified[k] == Verified(items[k].name, items[k].path, fetch(items[k].asset).value)
    {
      assert items[i] in items;
      if items[i].asset !in published {
        return Err(NoChecksum);
      }
      var bytes := fetch(items[i].asset);
      if bytes.None? {
        return Err(BadDownload);
      }
      if digest(bytes.value) != published[items[i].asset] {
        return Err(Mismatch);
      }
      verified := verified + [Verified(items[i].name, items[i].path, bytes.value)];
    }
    return Ok(verified);
  }

  // ----- what a run may do to the disk -----

  /** x is a planned asset with its published checksum. */
  ghost predicate Vouched(x: Verified, items: seq<Item>, published: Checksums, digest: Digester) {
    exists item :: item in items && item.path == x.path && item.name == x.name
                   && item.asset in published && digest(x.bytes) == published[item.asset]
  }

  /** From files to files': some vouched replacements, possibly cut short, in order. */
  ghost predicate Stepped(files: Files, files': Files, items: seq<Item>, published: Checksums, digest: Digester) {
    exists done: seq<Verified> :: files' == Installed(files, done) && forall x | x in done :: Vouched(x, items, published, digest)
  }

  lemma PrefixSteps(files: Files, some: seq<Item>, items: seq<Item>, published: Checksums, fetch: string -> Option<string>, digest: Digester, k: nat)
    requires forall item | item in some :: fetch(item.asset).Some?
    requires forall item | item in some :: item in items && Fetchable(item, published, fetch, digest)
    requires k <= |some|
    ensures Stepped(files, Installed(files, VerifiedOf(some, fetch)[..k]), items, published, digest)
  {
    var done := VerifiedOf(some, fetch)[..k];
    forall x | x in done ensures Vouched(x, items, published, digest) {
      var i :| 0 <= i < k && done[i] == x;
      assert some[i] in some;
    }
  }

  lemma StillStep(files: Files, items: seq<Item>, published: Checksums, digest: Digester)
    ensures Stepped(files, files, items, published, digest)
  {
    var none: seq<Verified> := [];
    assert Installed(files, none) == files;
  }

  // ----- the repair path -----

  ghost predicate Matches(files: Files, item: Item, published: Checksums, digest: Digester) {
    item.path in files && item.asset in published && digest(files[item.path]) == published[item.asset]
  }

  ghost predicate AllMatch(files: Files, items: seq<Item>, published: Checksums, digest: Digester) {
    forall item | item in items :: Matches(files, item, published, digest)
  }

  /** Nothing asked of one path contradicts anything else asked of it. */
  ghost predicate OneHashPerPath(items: seq<Item>, published: Checksums) {
    forall a, b | a in items && b in items && a.path == b.path && a.asset in published && b.asset in published ::
      published[a.asset] == published[b.asset]
  }

  /** The items whose local bytes differ from the published ones. */
  ghost function Differing(files: Files, items: seq<Item>, published: Checksums, digest: Digester): seq<Item> {
    if items == [] then []
    else
      var last := items[|items| - 1];
      Differing(files, items[..|items| - 1], published, digest) + if Matches(files, last, published, digest) then [] else [last]
  }

  lemma {:induction false} DifferingMembers(files: Files, items: seq<Item>, published: Checksums, digest: Digester)
    ensures forall item :: item in Differing(files, items, published, digest)
                      <==> item in items && !Matches(files, item, published, digest)
    decreases |items|
  {
    if items != [] {
      DifferingMembers(files, items[..|items| - 1], published, digest);
      assert items == items[..|items| - 1] + [items[|items| - 1]];
    }
  }

  lemma NothingDiffers(files: Files, items: seq<Item>, published: Checksums, digest: Digester)
    ensures Differing(files, items, published, digest) == [] <==> AllMatch(files, items, published, digest)
  {
    DifferingMembers(files, items, published, digest);
    var some := Differing(files, items, published, digest);
    assert some != [] ==> some[0] in some;
  }

  ghost predicate Comparable(files: Files, item: Item, published: Checksums, readable: string -> bool) {
    item.asset in published && item.path in files && readable(item.path)
  }

  method FindDiffering(disk: Disk, items: seq<Item>, published: Checksums, readable: string -> bool, digest: Digester)
    returns (some: Result<seq<Item>, Reason>)
    ensures some.Ok? <==> forall item | item in items :: Comparable(disk.files, item, published, readable)
    ensures some.Ok? ==> some.value == Differing(disk.files, items, published, digest)
  {
    var differing: seq<Item> := [];
    for i := 0 to |items|
      invariant forall k | 0 <= k < i :: Comparable(disk.files, items[k], published, readable)
      invariant differing == Differing(disk.files, items[..i], published, digest)
    {
      assert items[i] in items && items[..i + 1][..i] == items[..i];
      if items[i].asset !in published {
        return Err(NoChecksum);
      }
      if items[i].path !in disk.files || !readable(items[i].path) {
        return Err(UnreadableLocal);
      }
      if digest(disk.files[items[i].path]) != published[items[i].asset] {
        differing := differing + [items[i]];
      }
    }
    assert items[..|items|] == items;
    return Ok(differing);
  }

  predicate Wrote(outcome: Outcome) {
    outcome.Completed? || outcome.ReplaceFailed?
  }

  /** No read, download, prompt or installation gets in the way. */
  ghost predicate Undisturbed(files: Files, items: seq<Item>, world: World, digest: Digester) {
    && world.checksums.Some? && world.confirm == Some(true)
    && (forall item | item in items :: Comparable(files, item, world.checksums.value, world.readable))
    && (forall item | item in items :: Fetchable(item, world.checksums.value, world.fetch, digest))
    && (forall i :: world.installs(i))
  }

  /** What an undisturbed repair leaves. */
  ghost function Repaired(files: Files, items: seq<Item>, published: Checksums, fetch: string -> Option<string>, digest: Digester): Files
    requires forall item | item in items :: fetch(item.asset).Some?
  {
    DifferingMembers(files, items, published, digest);
    Installed(files, VerifiedOf(Differing(files, items, published, digest), fetch))
  }

  method Confirm(world: World) returns (r: Result<bool, Reason>)
    ensures r == if world.confirm.None? then Err(NoConfirmation) else Ok(world.confirm.value)
  {
    return if world.confirm.None? then Err(NoConfirmation) else Ok(world.confirm.value);
  }

  /** The end of both paths: verify everything, then replace in order. */
  method Carry(disk: Disk, some: seq<Item>, ghost items: seq<Item>, published: Checksums, world: World, digest: Digester) returns (outcome: Outcome)
    requires forall item | item in some :: item in items
    modifies disk
    ensures Stepped(old(disk.files), disk.files, items, published, digest)
    ensures !Wrote(outcome) ==> disk.files == old(disk.files)
    ensures (forall i :: world.installs(i)) && (forall item | item in some :: Fetchable(item, published, world.fetch, digest)) ==>
              outcome == Completed && disk.files == Installed(old(disk.files), VerifiedOf(some, world.fetch))
  {
    StillStep(disk.files, items, published, digest);
    var verified := DownloadAndVerify(published, some, world.fetch, digest);
    if verified.Err? {
      return Refused(verified.error);
    }
    PrefixSteps(disk.files, some, items, published, world.fetch, digest, Progress(world.installs, |some|));
    outcome := Replace(disk, verified.value, world.installs);
    assert verified.value[..|some|] == verified.value;
  }

  /** runUpgradeRepairPath, after planning. */
  method Repair(disk: Disk, items: seq<Item>, world: World, digest: Digester) returns (outcome: Outcome)
    modifies disk
    ensures Stepped(old(disk.files), disk.files, items, if world.checksums.Some? then world.checksums.value else map[], digest)
    ensures !Wrote(outcome) ==> disk.files == old(disk.files)
    ensures Wrote(outcome) ==> world.confirm == Some(true) && world.checksums.Some?
    ensures world.checksums.Some? && AllMatch(old(disk.files), items, world.checksums.value, digest) ==> !Wrote(outcome)
    ensures Undisturbed(old(disk.files), items, world, digest) ==>
              && outcome == (if AllMatch(old(disk.files), items, world.checksums.value, digest) then AlreadyThere else Completed)
              && disk.files == Repaired(old(disk.files), items, world.checksums.value, world.fetch, digest)
  {
    StillStep(disk.files, items, if world.checksums.Some? then world.checksums.value else map[], digest);
    if world.checksums.None? {
      return Refused(NoChecksums);
    }
    var differing := FindDiffering(disk, items, world.checksums.value, world.readable, digest);
    if differing.Err? {
      return Refused(differing.error);
    }
    NothingDiffers(disk.files, items, world.checksums.value, digest);
    if |differing.value| == 0 {
      return AlreadyThere;
    }
    DifferingMembers(disk.files, items, world.checksums.value, digest);
    var confirmed := Confirm(world);
    if confirmed.Err? {
      return Refused(confirmed.error);
    }
    if !confirmed.value {
      return Declined;
    }
    outcome := Carry(disk, differing.value, items, world.checksums.value, world, digest);
  }

  // ----- the whole command -----

  /** cleanUpgradeRequestedVersion. */
  function CleanRequested(version: string): Option<string> {
    var v := TrimSpace(version);
    if v == "" || v == "v" || exists i :: 0 <= i < |v| && !SafeChar(v[i]) then None else Some(v)
  }

  predicate SafeChar(c: char) {
    'a' <= c <= 'z' || 'A' <= c <= 'Z' || '0' <= c <= '9' || c == '.' || c == '-' || c == '_'
  }

  datatype Verdict = Proceed | Advise | Mixed

  /** preflightUpgradeDestinations: only an all-raw layout may be replaced. */
  method Preflight(channels: seq<Channel>) returns (verdict: Verdict)
    ensures verdict.Proceed? <==> forall c | c in channels :: c.Raw?
    ensures verdict.Advise? <==> channels != [] && forall k | 0 <= k < |channels| :: channels[k].Managed? && channels[k] == channels[0]
  {
    var managed: seq<Channel> := [];
    for i := 0 to |channels|
      invariant |managed| <= i
      invariant |managed| == 0 <==> forall k | 0 <= k < i :: channels[k].Raw?
      invariant |managed| == i <==> forall k | 0 <= k < i :: channels[k].Managed?
      invariant |managed| == i ==> managed == channels[..i]
    {
      if !channels[i].Raw? {
        managed := managed + [channels[i]];
      }
    }
    if |managed| == 0 {
      return Proceed;
    }
    if |managed| == |channels| {
      var same := SameKind(managed);
      return if same then Advise else Mixed;
    }
    return Mixed;
  }

  method SameKind(managed: seq<Channel>) returns (same: bool)
    requires |managed| > 0
    ensures same <==> forall k | 0 <= k < |managed| :: managed[k] == managed[0]
  {
    for i := 1 to |managed|
      invariant forall k | 0 <= k < i :: managed[k] == managed[0]
    {
      if managed[i] != managed[0] {
        return false;
      }
    }
    return true;
  }

  /** compareUpgradeVersions. */
  function OrderOf(current: string, tag: string): Option<int> {
    var c, t := ParsedUpgrade(current), ParsedUpgrade(tag);
    if c.None? || t.None? then None else Some(CompareUpgrade(c.value, t.value))
  }

  /** The conditions under which a run may write at all. */
  ghost predicate Permitted(opts: Options, channels: seq<Channel>, current: string, world: World) {
    && world.executable
    && (forall c | c in channels :: c.Raw?)
    && TrimSpace(current) != "devel"
    && !opts.dryRun
    && world.confirm == Some(true)
    && world.release.Some? && OrderOf(current, world.release.value.tag).Some?
    && (OrderOf(current, world.release.value.tag).value > 0 ==> opts.allowDowngrade && TrimSpace(opts.version) != "")
  }

  /** The options and layout pass every check before the release is looked at. */
  ghost predicate Passes(opts: Options, channels: seq<Channel>, current: string) {
    && (TrimSpace(opts.version) == "" ==> !opts.allowDowngrade && !opts.versionSet)
    && (TrimSpace(opts.version) != "" ==> CleanRequested(opts.version).Some?)
    && (forall c | c in channels :: c.Raw?)
    && TrimSpace(current) != "devel"
  }

  /** runUpgradeCommand. */
  method RunUpgrade(disk: Disk, opts: Options, channels: seq<Channel>, current: string, destinations: seq<Destination>,
                    os: string, arch: string, world: World, digest: Digester)
    returns (outcome: Outcome)
    modifies disk
    ensures !Wrote(outcome) ==> disk.files == old(disk.files)
    ensures Wrote(outcome) ==> Permitted(opts, channels, current, world) && world.checksums.Some?
    ensures var items := ItemsFor(destinations, os, arch);
            Stepped(old(disk.files), disk.files, items, if world.checksums.Some? then world.checksums.value else map[], digest)
    ensures var items := ItemsFor(destinations, os, arch);
            (&& Passes(opts, channels, current) && Permitted(opts, channels, current, world)
             && Plannable(world.release.value, items, os, arch) && Undisturbed(old(disk.files), items, world, digest)) ==>
              if OrderOf(current, world.release.value.tag).value == 0
              then && outcome == (if AllMatch(old(disk.files), items, world.checksums.value, digest)
                                  then AlreadyThere else Completed)
                   && disk.files == Repaired(old(disk.files), items, world.checksums.value, world.fetch, digest)
              else && outcome == Completed
                   && disk.files == Installed(old(disk.files), VerifiedOf(items, world.fetch))
    ensures var items := ItemsFor(destinations, os, arch);
            (&& world.release.Some? && OrderOf(current, world.release.value.tag) == Some(0)
             && world.checksums.Some? && AllMatch(old(disk.files), items, world.checksums.value, digest)) ==> !Wrote(outcome)
  {
    hide Stepped, OrderOf, AllMatch, Repaired, Installed, Comparable;
    ghost var items := ItemsFor(destinations, os, arch);
    ghost var published := if world.checksums.Some? then world.checksums.value else map[];
    StillStep(disk.files, items, published, digest);
    if opts.allowDowngrade && TrimSpace(opts.version) == "" {
      return Refused(BadOptions);
    }
    var version := opts.version;
    if opts.versionSet || TrimSpace(opts.version) != "" {
      var cleaned := CleanRequested(opts.version);
      if cleaned.None? {
        return Refused(BadOptions);
      }
      version := cleaned.value;
    }
    if !world.executable {
      return Refused(NoExecutable);
    }
    var verdict := Preflight(channels);
    if verdict.Mixed? {
      return Refused(MixedChannels);
    }
    if verdict.Advise? {
      return Advised;
    }
    if TrimSpace(current) == "devel" {
      return Refused(Devel);
    }
    if world.release.None? {
      return Refused(NoRelease);
    }
    var order := OrderOf(current, world.release.value.tag);
    if order.None? {
      return Refused(Unordered);
    }
    if order.value == 0 {
      var plan := AssemblePlan(world.release.value, destinations, os, arch);
      if plan.None? {
        return Refused(Unplannable);
      }
      if opts.dryRun {
        return DryRun;
      }
      outcome := Repair(disk, plan.value, world, digest);
      return;
    }
    if order.value > 0 && (version == "" || !opts.allowDowngrade) {
      return Refused(Downgrade);
    }
    var plan := AssemblePlan(world.release.value, destinations, os, arch);
    if plan.None? {
      return Refused(Unplannable);
    }
    if opts.dryRun {
      return DryRun;
    }
    var confirmed := Confirm(world);
    if confirmed.Err? {
      return Refused(confirmed.error);
    }
    if !confirmed.value {
      return Declined;
    }
    if world.checksums.None? {
      return Refused(NoChecksums);
    }
    outcome := Carry(disk, plan.value, plan.value, world.checksums.value, world, digest);
  }

  // ----- recovery -----

  /** A path holds its last replacement, or what it held before. */
  lemma {:induction false} InstalledAt(files: Files, done: seq<Verified>, path: string)
    ensures var files' := Installed(files, done);
            || (exists x :: x in done && x.path == path && path in files' && files'[path] == x.bytes)
            || ((forall x | x in done :: x.path != path) && (path in files' <==> path in files)
                && (path in files ==> files'[path] == files[path]))
    decreases |done|
  {
    if done != [] {
      var last := done[|done| - 1];
      InstalledAt(files, done[..|done| - 1], path);
      assert done == done[..|done| - 1] + [last];
    }
  }

  /** An undisturbed repair makes every destination match exactly when no path is asked to
      hold two different assets. */
  lemma RepairConverges(files: Files, items: seq<Item>, world: World, digest: Digester)
    requires Undisturbed(files, items, world, digest)
    ensures AllMatch(Repaired(files, items, world.checksums.value, world.fetch, digest), items, world.checksums.value, digest)
       <==> OneHashPerPath(items, world.checksums.value)
  {
    var published := world.checksums.value;
    var some := Differing(files, items, published, digest);
    DifferingMembers(files, items, published, digest);
    var done := VerifiedOf(some, world.fetch);
    var files' := Installed(files, done);
    if OneHashPerPath(items, published) {
      forall item | item in items ensures Matches(files', item, published, digest) {
        InstalledAt(files, done, item.path);
        if x: Verified :| x in done && x.path == item.path && item.path in files' && files'[item.path] == x.bytes {
          var i :| 0 <= i < |done| && done[i] == x;
          assert some[i] in some;
        } else {
          NotReplaced(some, world.fetch, item);
        }
      }
    }
    if AllMatch(files', items, published, digest) {
      forall a, b | a in items && b in items && a.path == b.path ensures published[a.asset] == published[b.asset] {
        assert Matches(files', a, published, digest) && Matches(files', b, published, digest);
      }
    }
  }

  lemma NotReplaced(some: seq<Item>, fetch: string -> Option<string>, item: Item)
    requires forall x | x in some :: fetch(x.asset).Some?
    ensures item in some ==> exists x :: x in VerifiedOf(some, fetch) && x.path == item.path
  {
    if item in some {
      var i :| 0 <= i < |some| && some[i] == item;
      assert VerifiedOf(some, fetch)[i] in VerifiedOf(some, fetch);
    }
  }

  /** Once everything matches, another repair would replace nothing. */
  lemma RepairIsIdempotent(files: Files, items: seq<Item>, published: Checksums, fetch: string -> Option<string>, digest: Digester)
    requires forall item | item in items :: fetch(item.asset).Some?
    requires AllMatch(files, items, published, digest)
    ensures Repaired(files, items, published, fetch, digest) == files
  {
    NothingDiffers(files, items, published, digest);
  }

  /** The planned pair can be brought to rest exactly when pastured is not a link to pasture
      itself, unless the release publishes the same bytes for both. */
  lemma PairConverges(resolved: string, sibling: Option<string>, os: string, arch: string, published: Checksums)
    requires AssetName(MAIN, os, arch) in published && AssetName(DAEMON, os, arch) in published
    ensures OneHashPerPath(ItemsFor(PlanDestinations(resolved, sibling), os, arch), published)
       <==> || sibling != Some(resolved) || resolved == ""
            || published[AssetName(MAIN, os, arch)] == published[AssetName(DAEMON, os, arch)]
  {
    var destinations := PlanDestinations(resolved, sibling);
    var items := ItemsFor(destinations, os, arch);
    var main := ItemFor(Destination(MAIN, resolved), os, arch);
    assert items[0] == main;
    if sibling.Some? && sibling.value != "" {
      var daemon := ItemFor(Destination(DAEMON, sibling.value), os, arch);
      assert items == [main, daemon];
      assert main in items && daemon in items;
    } else {
      assert items == [main];
    }
  }

  /** A plan that asks one path for two assets is never at rest, whatever the files are, so by
      RunUpgrade every undisturbed same-tag run of it replaces something again. */
  lemma NeverAtRest(files: Files, items: seq<Item>, published: Checksums, digest: Digester)
    requires !OneHashPerPath(items, published)
    ensures !AllMatch(files, items, published, digest)
  {
    var a, b :| a in items && b in items && a.path == b.path && a.asset in published && b.asset in published
                && published[a.asset] != published[b.asset];
    assert Matches(files, a, published, digest) ==> !Matches(files, b, published, digest);
  }

  /** What happens to a pastured that is a link to pasture: each run puts the other one of the
      two binaries there, starting with pastured. */
  lemma LinkedPairAlternates(path: string, os: string, arch: string, files: Files, world: World, digest: Digester)
    requires path != ""
    requires Undisturbed(files, ItemsFor(PlanDestinations(path, Some(path)), os, arch), world, digest)
    requires AssetName(MAIN, os, arch) in world.checksums.value && AssetName(DAEMON, os, arch) in world.checksums.value
    requires world.checksums.value[AssetName(MAIN, os, arch)] != world.checksums.value[AssetName(DAEMON, os, arch)]
    ensures var items, published := ItemsFor(PlanDestinations(path, Some(path)), os, arch), world.checksums.value;
            var after := Repaired(files, items, published, world.fetch, digest);
            var daemon := published[AssetName(DAEMON, os, arch)];
            && path in files && path in after && after[path] != files[path]
            && digest(after[path]) == if digest(files[path]) == daemon then published[AssetName(MAIN, os, arch)] else daemon
  {
    var items, published := ItemsFor(PlanDestinations(path, Some(path)), os, arch), world.checksums.value;
    var main, daemon := ItemFor(Destination(MAIN, path), os, arch), ItemFor(Destination(DAEMON, path), os, arch);
    assert items == [main, daemon] && main in items && daemon in items;
    assert Comparable(files, main, published, world.readable) && Comparable(files, daemon, published, world.readable);
    assert Fetchable(main, published, world.fetch, digest) && Fetchable(daemon, published, world.fetch, digest);
    DifferingPair(files, main, daemon, published, digest);
    var some := Differing(files, items, published, digest);
    var last := some[|some| - 1];
    assert last == if Matches(files, daemon, published, digest) then main else daemon;
    var done := VerifiedOf(some, world.fetch);
    assert Installed(files, done)[path] == done[|done| - 1].bytes;
  }

  lemma DifferingPair(files: Files, a: Item, b: Item, published: Checksums, digest: Digester)
    ensures Differing(files, [a, b], published, digest)
         == (if Matches(files, a, published, digest) then [] else [a]) + (if Matches(files, b, published, digest) then [] else [b])
  {
    assert [a, b][..1] == [a] && [a][..0] == [];
    assert Differing(files, [a], published, digest) == if Matches(files, a, published, digest) then [] else [a];
  }

  /** Any history of runs against one release: each completes, fails or is cut short. */
  ghost predicate History(states: seq<Files>, items: seq<Item>, published: Checksums, digest: Digester) {
    |states| > 0 && forall i | 0 < i < |states| :: Stepped(states[i - 1], states[i], items, published, digest)
  }

  lemma StepKeeps(files: Files, files': Files, items: seq<Item>, published: Checksums, digest: Digester, path: string)
    requires Stepped(files, files', items, published, digest)
    ensures path in files ==> path in files'
    ensures path in files' ==>
              || (path in files && files'[path] == files[path])
              || exists item :: item in items && item.path == path && Matches(files', item, published, digest)
  {
    var done :| files' == Installed(files, done) && forall x | x in done :: Vouched(x, items, published, digest);
    InstalledAt(files, done, path);
    if x: Verified :| x in done && x.path == path && path in files' && files'[path] == x.bytes {
      assert Vouched(x, items, published, digest);
      var item :| item in items && item.path == x.path && item.name == x.name
                  && item.asset in published && digest(x.bytes) == published[item.asset];
      assert Matches(files', item, published, digest);
    }
  }

  /** Whatever a history of partial failures does, no file disappears, and every byte string
      it ever put in place has the published checksum of an asset planned for that path. */
  lemma {:induction false} HistoryKeeps(states: seq<Files>, items: seq<Item>, published: Checksums, digest: Digester, path: string)
    requires History(states, items, published, digest)
    ensures var first, last := states[0], states[|states| - 1];
            && (path in first ==> path in last)
            && (path in last ==>
                  || (path in first && last[path] == first[path])
                  || exists item :: item in items && item.path == path && Matches(last, item, published, digest))
    decreases |states|
  {
    if |states| > 1 {
      var n := |states| - 1;
      HistoryKeeps(states[..n], items, published, digest, path);
      StepKeeps(states[n - 1], states[n], items, published, digest, path);
      if path in states[n] && path in states[n - 1] && states[n][path] == states[n - 1][path]
        && (exists item :: item in items && item.path == path && Matches(states[n - 1], item, published, digest)) {
        var item :| item in items && item.path == path && Matches(states[n - 1], item, published, digest);
        assert Matches(states[n], item, published, digest);
      }
    }
  }

  /** Recovery: after any history, one undisturbed same-tag run brings every destination to
      its published bytes, exactly when no path is asked for two, and then it is at rest. */
  lemma Recovers(states: seq<Files>, items: seq<Item>, world: World, digest: Digester)
    requires world.checksums.Some? && History(states, items, world.checksums.value, digest)
    requires forall item | item in items :: item.path in states[0] && world.readable(item.path)
    requires forall item | item in items :: Fetchable(item, world.checksums.value, world.fetch, digest)
    requires forall item | item in items :: world.fetch(item.asset).Some?
    requires world.confirm == Some(true) && forall i :: world.installs(i)
    ensures var last := states[|states| - 1];
            var repaired := Repaired(last, items, world.checksums.value, world.fetch, digest);
            && Undisturbed(last, items, world, digest)
            && (AllMatch(repaired, items, world.checksums.value, digest) <==> OneHashPerPath(items, world.checksums.value))
            && (OneHashPerPath(items, world.checksums.value) ==>
                  Repaired(repaired, items, world.checksums.value, world.fetch, digest) == repaired)
  {
    var last := states[|states| - 1];
    forall item | item in items ensures Comparable(last, item, world.checksums.value, world.readable) {
      HistoryKeeps(states, items, world.checksums.value, digest, item.path);
      assert Fetchable(item, world.checksums.value, world.fetch, digest);
    }
    RepairConverges(last, items, world, digest);
    if OneHashPerPath(items, world.checksums.value) {
      var repaired := Repaired(last, items, world.checksums.value, world.fetch, digest);
      RepairIsIdempotent(repaired, items, world.checksums.value, world.fetch, digest);
    }
  }
}
