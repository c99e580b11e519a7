/** Content-addressed bundles (artifact/bundle.go): what NewBundle accepts from a walked
    source tree, which failure it reports, and what Open then serves. */
module Bundle {
  import opened Wrappers
  import opened Orders
  import opened Sequences
  import opened Paths
  import opened Manifest

  datatype FileType = Dir | Regular | Special(mode: string)

  /** One call of the walk's callback: with an error, without an entry, or with an entry
      whose metadata could or could not be read.  Any sequence of calls is a walk. */
  datatype Event =
    | Broken(name: string, cause: string)
    | NoEntry(name: string)
    | Visit(name: string, isDir: bool, info: Result<FileType, string>)

  datatype Detail =
    | WalkFailed(name: string, cause: string)
    | RootNotDirectory
    | BadPath(name: string)
    | Repeated(name: string, count: nat)
    | NoMetadata(name: string, reason: Option<string>)
    | Inconsistent(name: string, actual: FileType)
    | Extra(name: string, actual: FileType)
    | WrongType(name: string, declared: Kind)
    | Unsupported(name: string, actual: FileType)
    | Unreadable(name: string, cause: string)
    | WrongDigest(name: string, expected: string, found: string)
    | Missing(name: string)

  /** The source's files, as reading one to its end and closing it delivers them. */
  type Reader = string -> Result<string, string>

  /** DigestBytes. */
  type Digester = string -> string

  function EntryName(d: Detail): string {
    if d.RootNotDirectory? then "." else d.name
  }

  function Rank(d: Detail): int {
    match d
    case WalkFailed(_, _) => 0
    case RootNotDirectory => 1
    case BadPath(_) => 2
    case Repeated(_, _) => 3
    case NoMetadata(_, _) => 4
    case Inconsistent(_, _) => 5
    case Extra(_, _) => 6
    case WrongType(_, _) | Unsupported(_, _) => 7
    case Unreadable(_, _) => 8
    case WrongDigest(_, _, _) => 9
    case Missing(_) => 10
  }

  function RankOrder(): (Detail, Detail) -> int {
    On(Rank, CompareInt)
  }

  /** Failures in order of entry, rank and rendered text. */
  function FailureOrder(explain: Detail -> string): (Detail, Detail) -> int {
    Then(ByText(EntryName), Then(RankOrder(), ByText(explain)))
  }

  lemma FailureOrderOk(explain: Detail -> string)
    ensures Comparator(FailureOrder(explain))
    ensures forall x, y | FailureOrder(explain)(x, y) == 0 :: EntryName(x) == EntryName(y) && Rank(x) == Rank(y) && explain(x) == explain(y)
  {
    StringOrder();
    OnIsComparator(explain, CompareString);
    OnIsComparator(Rank, CompareInt);
    ByTextThen(explain, ByText(explain));
    ThenIsComparator(RankOrder(), ByText(explain));
    ByTextThen(EntryName, Then(RankOrder(), ByText(explain)));
  }

  // ----- the walk -----

  /** The path a callback counts as seen. */
  function SeenName(e: Event): Option<string> {
    if e.Visit? && CanonicalPath(e.name) then Some(e.name) else None
  }

  function Count(events: seq<Event>, name: string): nat {
    multiset(Mapped(SeenName, events))[Some(name)]
  }

  /** What the callback records against one event. */
  function EventFailure(e: Event): Option<Detail> {
    match e
    case Broken(name, cause) => Some(WalkFailed(name, cause))
    case NoEntry(name) => Some(NoMetadata(name, None))
    case Visit(name, isDir, info) =>
      if name == "." then (if isDir then None else Some(RootNotDirectory))
      else if !CanonicalPath(name) then Some(BadPath(name))
      else if info.Err? then Some(NoMetadata(name, Some(info.error)))
      else if isDir != info.value.Dir? then Some(Inconsistent(name, info.value))
      else None
  }

  /** The metadata the callback keeps of an event. */
  function Observed(e: Event): Option<FileType> {
    if SeenName(e).Some? && e.info.Ok? && e.isDir == e.info.value.Dir? then Some(e.info.value) else None
  }

  ghost predicate WalkFailure(events: seq<Event>, d: Detail) {
    exists e :: e in events && EventFailure(e) == Some(d)
  }

  /** A clean visit of name with this type. */
  ghost predicate SeenAs(events: seq<Event>, name: string, actual: FileType) {
    exists e :: e in events && SeenName(e) == Some(name) && Observed(e) == Some(actual)
  }

  lemma CountStep(events: seq<Event>, i: nat, name: string)
    requires i < |events|
    ensures Count(events[..i + 1], name) == Count(events[..i], name) + if SeenName(events[i]) == Some(name) then 1 else 0
  {
    assert events[..i + 1][..i] == events[..i];
    var seen := Mapped(SeenName, events[..i]);
    assert Mapped(SeenName, events[..i + 1]) == seen + [SeenName(events[i])];
  }

  lemma CountPositive(events: seq<Event>, name: string)
    ensures Count(events, name) > 0 <==> exists e :: e in events && SeenName(e) == Some(name)
  {
    var seen := Mapped(SeenName, events);
    MappedAt(SeenName, events);
    assert Some(name) in seen <==> Some(name) in multiset(seen);
    if Some(name) in seen {
      var i :| 0 <= i < |seen| && seen[i] == Some(name);
      assert events[i] in events;
    }
    if e :| e in events && SeenName(e) == Some(name) {
      var i :| 0 <= i < |events| && events[i] == e;
      assert seen[i] == Some(name);
    }
  }

  /** A path seen once was seen by one event. */
  lemma SeenOnce(events: seq<Event>, name: string, e: Event, f: Event)
    requires Count(events, name) == 1
    requires e in events && f in events && SeenName(e) == Some(name) == SeenName(f)
    ensures e == f
  {
    var i :| 0 <= i < |events| && events[i] == e;
    var j :| 0 <= j < |events| && events[j] == f;
    MappedAt(SeenName, events);
    if i < j {
      OccursTwice(Mapped(SeenName, events), i, j);
    } else if j < i {
      OccursTwice(Mapped(SeenName, events), j, i);
    }
  }

  ghost predicate Tallied(events: seq<Event>, occurrences: map<string, nat>) {
    forall name :: if name in occurrences then occurrences[name] == Count(events, name) > 0 else Count(events, name) == 0
  }

  ghost predicate Kept(events: seq<Event>, observations: map<string, FileType>) {
    && (forall name | name in observations :: SeenAs(events, name, observations[name]))
    && (forall name, actual | SeenAs(events, name, actual) :: name in observations)
  }

  function Tally(occurrences: map<string, nat>, e: Event): map<string, nat> {
    var name := SeenName(e);
    if name.None? then occurrences
    else occurrences[name.value := 1 + if name.value in occurrences then occurrences[name.value] else 0]
  }

  lemma TallyStep(events: seq<Event>, i: nat, occurrences: map<string, nat>)
    requires i < |events| && Tallied(events[..i], occurrences)
    ensures Tallied(events[..i + 1], Tally(occurrences, events[i]))
  {
    forall name ensures Count(events[..i + 1], name) == Count(events[..i], name) + if SeenName(events[i]) == Some(name) then 1 else 0 {
      CountStep(events, i, name);
    }
  }

  function Keep(observations: map<string, FileType>, e: Event): map<string, FileType> {
    if Observed(e).Some? && e.name !in observations then observations[e.name := e.info.value] else observations
  }

  lemma KeptStep(events: seq<Event>, i: nat, observations: map<string, FileType>)
    requires i < |events| && Kept(events[..i], observations)
    ensures Kept(events[..i + 1], Keep(observations, events[i]))
  {
    var e := events[i];
    assert events[..i + 1] == events[..i] + [e];
    forall name, actual
      ensures SeenAs(events[..i + 1], name, actual)
         <==> SeenAs(events[..i], name, actual) || (SeenName(e) == Some(name) && Observed(e) == Some(actual))
    {
      assert e in events[..i + 1];
    }
  }

  lemma FailureStep(events: seq<Event>, i: nat, d: Detail)
    requires i < |events|
    ensures WalkFailure(events[..i + 1], d) <==> WalkFailure(events[..i], d) || EventFailure(events[i]) == Some(d)
  {
    assert events[..i + 1] == events[..i] + [events[i]];
    assert events[i] in events[..i + 1];
  }

  /** The walk callback, which always lets the walk go on. */
  method Callback(e: Event, occurrences: map<string, nat>, observations: map<string, FileType>)
    returns (tally: map<string, nat>, kept: map<string, FileType>, failure: Option<Detail>)
    ensures tally == Tally(occurrences, e) && kept == Keep(observations, e) && failure == EventFailure(e)
  {
    tally, kept := occurrences, observations;
    if e.Broken? {
      return tally, kept, Some(WalkFailed(e.name, e.cause));
    }
    if e.NoEntry? {
      return tally, kept, Some(NoMetadata(e.name, None));
    }
    if e.name == "." {
      return tally, kept, if e.isDir then None else Some(RootNotDirectory);
    }
    if !CanonicalPath(e.name) {
      return tally, kept, Some(BadPath(e.name));
    }
    tally := tally[e.name := 1 + if e.name in tally then tally[e.name] else 0];
    if e.info.Err? {
      return tally, kept, Some(NoMetadata(e.name, Some(e.info.error)));
    }
    if e.isDir != e.info.value.Dir? {
      return tally, kept, Some(Inconsistent(e.name, e.info.value));
    }
    if e.name !in kept {
      kept := kept[e.name := e.info.value];
    }
    return tally, kept, None;
  }

  method Walk(events: seq<Event>)
    returns (occurrences: map<string, nat>, observations: map<string, FileType>, failures: seq<Detail>)
    ensures Tallied(events, occurrences) && Kept(events, observations)
    ensures forall d :: d in failures <==> WalkFailure(events, d)
  {
    occurrences, observations, failures := map[], map[], [];
    assert Tallied([], map[]) && Kept([], map[]) && forall d :: !WalkFailure([], d);
    hide Tallied, Kept, WalkFailure, Tally, Keep, EventFailure;
    for i := 0 to |events|
      invariant Tallied(events[..i], occurrences) && Kept(events[..i], observations)
      invariant forall d :: d in failures <==> WalkFailure(events[..i], d)
    {
      TallyStep(events, i, occurrences);
      KeptStep(events, i, observations);
      forall d ensures WalkFailure(events[..i + 1], d) <==> WalkFailure(events[..i], d) || EventFailure(events[i]) == Some(d) {
        FailureStep(events, i, d);
      }
      var failure;
      occurrences, observations, failure := Callback(events[i], occurrences, observations);
      if failure.Some? {
        failures := failures + [failure.value];
      }
    }
    assert events[..|events|] == events;
  }

  // ----- the checks after the walk -----

  function ByPath(m: seq<Entry>): map<string, Entry> {
    if m == [] then map[] else ByPath(m[..|m| - 1])[m[|m| - 1].path := m[|m| - 1]]
  }

  lemma {:induction false} ByPathIndexes(m: seq<Entry>)
    requires DistinctPaths(m)
    ensures Indexes(ByPath(m), m)
    decreases |m|
  {
    if m != [] {
      var last, rest := m[|m| - 1], m[..|m| - 1];
      ByPathIndexes(rest);
      assert m == rest + [last];
      forall e | e in rest ensures e.path != last.path {
        var i :| 0 <= i < |rest| && rest[i] == e;
        assert PathOf(m[i]) != PathOf(m[|m| - 1]);
      }
    }
  }

  /** entryMap. */
  method EntryMap(m: seq<Entry>) returns (entries: map<string, Entry>)
    ensures entries == ByPath(m)
  {
    entries := map[];
    for i := 0 to |m|
      invariant entries == ByPath(m[..i])
    {
      assert m[..i + 1][..i] == m[..i];
      entries := entries[m[i].path := m[i]];
    }
    assert m[..|m|] == m;
  }

  /** hasPathOrDescendant. */
  ghost predicate Leads(m: seq<Entry>, name: string) {
    exists e :: e in m && (e.path == name || Ancestor(name, e.path))
  }

  method HasPathOrDescendant(m: seq<Entry>, name: string) returns (found: bool)
    ensures found <==> Leads(m, name)
  {
    for i := 0 to |m|
      invariant forall k | 0 <= k < i :: m[k].path != name && !Ancestor(name, m[k].path)
    {
      if m[i].path == name || Ancestor(name, m[i].path) {
        return true;
      }
    }
    return false;
  }

  /** What is wrong with one path that was seen exactly once. */
  ghost function Verdict(m: seq<Entry>, declared: map<string, Entry>, name: string, actual: FileType, read: Reader, digest: Digester): Option<Detail> {
    match actual
    case Dir =>
      if !Leads(m, name) then Some(Extra(name, actual))
      else if name in declared && declared[name].kind.RegularFile? then Some(WrongType(name, declared[name].kind))
      else None
    case Regular =>
      if name !in declared then Some(Extra(name, actual))
      else if declared[name].kind.Directory? then Some(WrongType(name, declared[name].kind))
      else if read(name).Err? then Some(Unreadable(name, read(name).error))
      else if digest(read(name).value) != declared[name].digest
      then Some(WrongDigest(name, declared[name].digest, digest(read(name).value)))
      else None
    case Special(_) => Some(Unsupported(name, actual))
  }

  /** The switch on one path; a file that passes is captured. */
  method CheckPath(m: seq<Entry>, declared: map<string, Entry>, name: string, actual: FileType, read: Reader, digest: Digester)
    returns (failure: Option<Detail>, captured: Option<string>)
    requires ManifestOk(m) && Indexes(declared, m)
    ensures failure == Verdict(m, declared, name, actual, read, digest)
    ensures captured == if actual.Regular? && failure.None? then Some(read(name).value) else None
  {
    match actual
    case Dir =>
      var leads := HasPathOrDescendant(m, name);
      if !leads {
        return Some(Extra(name, actual)), None;
      }
      if name in declared && !declared[name].kind.Directory? {
        return Some(WrongType(name, declared[name].kind)), None;
      }
      return None, None;
    case Regular =>
      if name !in declared {
        return Some(Extra(name, actual)), None;
      }
      if !declared[name].kind.RegularFile? {
        return Some(WrongType(name, declared[name].kind)), None;
      }
      var content := read(name);
      if content.Err? {
        return Some(Unreadable(name, content.error)), None;
      }
      var actualDigest := digest(content.value);
      if actualDigest != declared[name].digest {
        return Some(WrongDigest(name, declared[name].digest, actualDigest)), None;
      }
      return None, Some(content.value);
    case Special(_) =>
      return Some(Unsupported(name, actual)), None;
  }

  ghost predicate PathFailure(events: seq<Event>, m: seq<Entry>, read: Reader, digest: Digester, d: Detail) {
    exists name, actual :: SeenAs(events, name, actual) && Count(events, name) == 1
                           && Verdict(m, ByPath(m), name, actual, read, digest) == Some(d)
  }

  ghost predicate RepeatFailure(events: seq<Event>, d: Detail) {
    d.Repeated? && d.count == Count(events, d.name) > 1
  }

  ghost predicate MissingFailure(events: seq<Event>, m: seq<Entry>, d: Detail) {
    exists e :: e in m && Count(events, e.path) == 0 && d == Missing(e.path)
  }

  /** Everything that is wrong with the source; the walk's order is not looked at. */
  ghost predicate IsFailure(events: seq<Event>, m: seq<Entry>, read: Reader, digest: Digester, d: Detail) {
    || WalkFailure(events, d)
    || RepeatFailure(events, d)
    || PathFailure(events, m, read, digest, d)
    || MissingFailure(events, m, d)
  }

  /** The loop over the occurrence counts. */
  method FindRepeats(ghost events: seq<Event>, occurrences: map<string, nat>) returns (failures: seq<Detail>)
    requires Tallied(events, occurrences)
    ensures forall d :: d in failures <==> RepeatFailure(events, d)
  {
    failures := [];
    var rest := occurrences.Keys;
    while rest != {}
      invariant rest <= occurrences.Keys
      invariant forall d :: d in failures <==> RepeatFailure(events, d) && d.name !in rest
      decreases |rest|
    {
      var name :| name in rest;
      if occurrences[name] > 1 {
        failures := failures + [Repeated(name, occurrences[name])];
      }
      rest := rest - {name};
    }
  }

  /** What the switch reports about an observed path. */
  ghost function Report(events: seq<Event>, m: seq<Entry>, declared: map<string, Entry>,
                        observations: map<string, FileType>, read: Reader, digest: Digester, name: string): Option<Detail>
  {
    if name in observations && Count(events, name) == 1
    then Verdict(m, declared, name, observations[name], read, digest) else None
  }

  ghost predicate Captured(events: seq<Event>, m: seq<Entry>, declared: map<string, Entry>,
                           observations: map<string, FileType>, read: Reader, digest: Digester, name: string)
  {
    && name in observations && Count(events, name) == 1 && observations[name].Regular?
    && Verdict(m, declared, name, Regular, read, digest).None?
  }

  ghost predicate ReportedIn(names: seq<string>, events: seq<Event>, m: seq<Entry>, declared: map<string, Entry>,
                             observations: map<string, FileType>, read: Reader, digest: Digester, d: Detail)
  {
    exists name :: name in names && Report(events, m, declared, observations, read, digest, name) == Some(d)
  }

  lemma ReportedStep(names: seq<string>, name: string, events: seq<Event>, m: seq<Entry>, declared: map<string, Entry>,
                     observations: map<string, FileType>, read: Reader, digest: Digester)
    ensures forall d :: ReportedIn(names + [name], events, m, declared, observations, read, digest, d)
                   <==> || ReportedIn(names, events, m, declared, observations, read, digest, d)
                        || Report(events, m, declared, observations, read, digest, name) == Some(d)
  {
    assert name in names + [name];
  }

  method SortedKeys(observations: map<string, FileType>) returns (names: seq<string>)
    ensures forall name :: name in names <==> name in observations
  {
    StringOrder();
    names := Drain(observations.Keys);
    names := Sort(CompareString, names);
    forall name ensures name in names <==> name in observations {
      assert name in names <==> name in multiset(names);
      assert name in observations.Keys <==> name in multiset(observations.Keys);
    }
  }

  /** The loop over the observed paths in byte order. */
  method CheckPaths(ghost events: seq<Event>, m: seq<Entry>, declared: map<string, Entry>,
                    occurrences: map<string, nat>, observations: map<string, FileType>, read: Reader, digest: Digester)
    returns (failures: seq<Detail>, snapshot: map<string, string>)
    requires ManifestOk(m) && Indexes(declared, m)
    requires Tallied(events, occurrences) && forall name | name in observations :: name in occurrences
    ensures forall d :: d in failures <==> exists name :: Report(events, m, declared, observations, read, digest, name) == Some(d)
    ensures forall name :: name in snapshot <==> Captured(events, m, declared, observations, read, digest, name)
    ensures forall name | name in snapshot :: read(name) == Ok(snapshot[name])
  {
    failures, snapshot := [], map[];
    var names := SortedKeys(observations);
    for i := 0 to |names|
      invariant forall d :: d in failures <==> ReportedIn(names[..i], events, m, declared, observations, read, digest, d)
      invariant forall name :: name in snapshot <==>
                  name in names[..i] && Captured(events, m, declared, observations, read, digest, name)
      invariant forall name | name in snapshot :: read(name) == Ok(snapshot[name])
    {
      var name := names[i];
      assert names[..i + 1] == names[..i] + [name];
      ReportedStep(names[..i], name, events, m, declared, observations, read, digest);
      if occurrences[name] == 1 {
        var failure, captured := CheckPath(m, declared, name, observations[name], read, digest);
        if failure.Some? {
          failures := failures + [failure.value];
        }
        if captured.Some? {
          snapshot := snapshot[name := captured.value];
        }
      }
    }
    assert names[..|names|] == names;
  }

  lemma KeptOnce(events: seq<Event>, observations: map<string, FileType>, name: string, actual: FileType)
    requires Kept(events, observations) && Count(events, name) == 1
    ensures SeenAs(events, name, actual) <==> name in observations && observations[name] == actual
  {
    if SeenAs(events, name, actual) {
      assert name in observations;
      var e :| e in events && SeenName(e) == Some(name) && Observed(e) == Some(actual);
      var f :| f in events && SeenName(f) == Some(name) && Observed(f) == Some(observations[name]);
      SeenOnce(events, name, e, f);
    }
  }

  /** The kept metadata of a path seen once is that of its only visit. */
  lemma ReportIsPathFailure(events: seq<Event>, m: seq<Entry>, observations: map<string, FileType>,
                            read: Reader, digest: Digester, d: Detail)
    requires Kept(events, observations)
    ensures PathFailure(events, m, read, digest, d)
       <==> exists name :: Report(events, m, ByPath(m), observations, read, digest, name) == Some(d)
  {
    if PathFailure(events, m, read, digest, d) {
      var name, actual :| SeenAs(events, name, actual) && Count(events, name) == 1
                          && Verdict(m, ByPath(m), name, actual, read, digest) == Some(d);
      KeptOnce(events, observations, name, actual);
      assert Report(events, m, ByPath(m), observations, read, digest, name) == Some(d);
    }
    if name :| Report(events, m, ByPath(m), observations, read, digest, name) == Some(d) {
      assert SeenAs(events, name, observations[name]);
    }
  }

  /** The loop over the manifest for entries the walk never met. */
  method FindMissing(ghost events: seq<Event>, m: seq<Entry>, occurrences: map<string, nat>) returns (failures: seq<Detail>)
    requires Tallied(events, occurrences)
    ensures forall d :: d in failures <==> MissingFailure(events, m, d)
  {
    failures := [];
    for i := 0 to |m|
      invariant forall d :: d in failures <==> MissingFailure(events, m[..i], d)
    {
      assert m[..i + 1] == m[..i] + [m[i]];
      assert m[i] in m[..i + 1];
      if m[i].path !in occurrences {
        failures := failures + [Missing(m[i].path)];
      }
    }
    assert m[..|m|] == m;
  }

  /** firstSourceFailure. */
  method FirstSourceFailure(failures: seq<Detail>, explain: Detail -> string) returns (first: Option<Detail>)
    ensures first.None? <==> failures == []
    ensures first.Some? ==> first.value in failures && forall d | d in failures :: FailureOrder(explain)(first.value, d) <= 0
  {
    if failures == [] {
      return None;
    }
    FailureOrderOk(explain);
    var sorted := Sort(FailureOrder(explain), failures);
    assert |sorted| == |multiset(sorted)| == |multiset(failures)| == |failures|;
    HeadIsLeast(FailureOrder(explain), sorted[0], sorted);
    assert sorted[0] in multiset(sorted);
    forall d | d in failures ensures d in sorted {
      assert d in multiset(failures);
    }
    return Some(sorted[0]);
  }

  datatype Bundle = Bundle(manifest: seq<Entry>, entries: map<string, Entry>, files: map<string, string>)

  datatype Refusal = NoManifest | NoSource | BadSource(detail: Detail)

  /** What Open relies on: exactly the declared files, with the declared digests. */
  ghost predicate BundleOk(b: Bundle, digest: Digester) {
    && ManifestOk(b.manifest) && Indexes(b.entries, b.manifest)
    && (forall name :: name in b.files <==> name in b.entries && b.entries[name].kind.RegularFile?)
    && (forall name | name in b.files :: digest(b.files[name]) == b.entries[name].digest)
  }

  ghost predicate NoFailures(events: seq<Event>, m: seq<Entry>, read: Reader, digest: Digester) {
    forall d :: !IsFailure(events, m, read, digest, d)
  }

  /** NewBundle.  The zero Manifest and a nil source are refused first; then it succeeds
      exactly when nothing is wrong with the source, and otherwise reports a failure that
      comes first in the failure order. */
  method NewBundle(source: Option<seq<Event>>, manifest: Option<seq<Entry>>, read: Reader, digest: Digester, explain: Detail -> string)
    returns (b: Result<Bundle, Refusal>)
    requires manifest.Some? ==> ManifestOk(manifest.value)
    ensures manifest.None? ==> b == Err(NoManifest)
    ensures manifest.Some? && source.None? ==> b == Err(NoSource)
    ensures manifest.Some? && source.Some? ==>
              && (b.Ok? <==> NoFailures(source.value, manifest.value, read, digest))
              && (b.Err? ==>
                    && b.error.BadSource?
                    && IsFailure(source.value, manifest.value, read, digest, b.error.detail)
                    && forall d | IsFailure(source.value, manifest.value, read, digest, d) ::
                         FailureOrder(explain)(b.error.detail, d) <= 0)
    ensures b.Ok? ==>
              && b.value.manifest == manifest.value && BundleOk(b.value, digest)
              && forall name | name in b.value.files :: read(name) == Ok(b.value.files[name])
  {
    if manifest.None? {
      return Err(NoManifest);
    }
    if source.None? {
      return Err(NoSource);
    }
    var m, events := manifest.value, source.value;
    var declared := EntryMap(m);
    ByPathIndexes(m);
    var occurrences, observations, failures := Walk(events);
    var repeats := FindRepeats(events, occurrences);
    KeptAreTallied(events, occurrences, observations);
    var wrong, snapshot := CheckPaths(events, m, declared, occurrences, observations, read, digest);
    var missing := FindMissing(events, m, occurrences);
    forall d ensures PathFailure(events, m, read, digest, d) <==> d in wrong {
      ReportIsPathFailure(events, m, observations, read, digest, d);
    }
    var all := failures + repeats + wrong + missing;
    assert forall d :: d in all <==> IsFailure(events, m, read, digest, d);
    var first := FirstSourceFailure(all, explain);
    if first.Some? {
      return Err(BadSource(first.value));
    }
    BundleIsOk(events, m, observations, snapshot, read, digest);
    return Ok(Bundle(m, declared, snapshot));
  }

  lemma BundleIsOk(events: seq<Event>, m: seq<Entry>, observations: map<string, FileType>, snapshot: map<string, string>, read: Reader, digest: Digester)
    requires ManifestOk(m) && Kept(events, observations) && NoFailures(events, m, read, digest)
    requires forall name :: name in snapshot <==> Captured(events, m, ByPath(m), observations, read, digest, name)
    requires forall name | name in snapshot :: read(name) == Ok(snapshot[name])
    ensures BundleOk(Bundle(m, ByPath(m), snapshot), digest)
  {
    hide NoFailures, Kept, ManifestOk;
    AllCaptured(events, m, observations, read, digest);
  }

  lemma KeptAreTallied(events: seq<Event>, occurrences: map<string, nat>, observations: map<string, FileType>)
    requires Tallied(events, occurrences) && Kept(events, observations)
    ensures forall name | name in observations :: name in occurrences
  {
    forall name | name in observations ensures name in occurrences {
      assert SeenAs(events, name, observations[name]);
      CountPositive(events, name);
    }
  }

  /** A path that is neither missing nor repeated nor badly visited was observed, once. */
  lemma SeenCleanly(events: seq<Event>, m: seq<Entry>, read: Reader, digest: Digester, x: Entry)
    requires NoFailures(events, m, read, digest) && x in m
    ensures Count(events, x.path) == 1
    ensures exists actual :: SeenAs(events, x.path, actual) && Verdict(m, ByPath(m), x.path, actual, read, digest).None?
  {
    assert !IsFailure(events, m, read, digest, Missing(x.path));
    assert !IsFailure(events, m, read, digest, Repeated(x.path, Count(events, x.path)));
    assert Count(events, x.path) == 1;
    CountPositive(events, x.path);
    var e :| e in events && SeenName(e) == Some(x.path);
    var failure := EventFailure(e);
    assert failure.Some? ==> IsFailure(events, m, read, digest, failure.value);
    var actual := e.info.value;
    assert SeenAs(events, x.path, actual);
    var verdict := Verdict(m, ByPath(m), x.path, actual, read, digest);
    assert verdict.Some? ==> PathFailure(events, m, read, digest, verdict.value);
    assert verdict.Some? ==> IsFailure(events, m, read, digest, verdict.value);
  }

  /** Without failures exactly the declared regular files are captured. */
  lemma AllCaptured(events: seq<Event>, m: seq<Entry>, observations: map<string, FileType>, read: Reader, digest: Digester)
    requires ManifestOk(m) && Kept(events, observations) && NoFailures(events, m, read, digest)
    ensures Indexes(ByPath(m), m)
    ensures forall name :: Captured(events, m, ByPath(m), observations, read, digest, name)
                      <==> name in ByPath(m) && ByPath(m)[name].kind.RegularFile?
  {
    ByPathIndexes(m);
    forall name | name in ByPath(m) && ByPath(m)[name].kind.RegularFile?
      ensures Captured(events, m, ByPath(m), observations, read, digest, name)
    {
      var x := ByPath(m)[name];
      SeenCleanly(events, m, read, digest, x);
      var actual :| SeenAs(events, name, actual) && Verdict(m, ByPath(m), name, actual, read, digest).None?;
      KeptOnce(events, observations, name, actual);
    }
  }

  // ----- what success means -----

  ghost predicate EventOk(e: Event) {
    && e.Visit?
    && (if e.name == "." then e.isDir
        else CanonicalPath(e.name) && e.info.Ok? && e.isDir == e.info.value.Dir? && !e.info.value.Special?)
  }

  /** The walk visits x's path and finds x there: its type and, for a file, its bytes. */
  ghost predicate Delivered(events: seq<Event>, x: Entry, read: Reader, digest: Digester) {
    exists e :: e in events && e.Visit? && e.name == x.path && e.info.Ok?
                && if x.kind.Directory? then e.info.value.Dir?
                   else e.info.value.Regular? && read(x.path).Ok? && digest(read(x.path).value) == x.digest
  }

  /** The tree a visit belongs to: a declared entry or a directory above one. */
  ghost predicate Owned(e: Event, m: seq<Entry>)
    requires e.Visit?
  {
    || e.name == "."
    || (exists x :: x in m && x.path == e.name && (x.kind.Directory? <==> e.isDir))
    || (e.isDir && exists x :: x in m && Ancestor(e.name, x.path))
  }

  /** The source is the manifest's tree: clean visits, no path twice, nothing beyond the
      declared entries and their parents, and every declared entry delivered. */
  ghost predicate Faithful(events: seq<Event>, m: seq<Entry>, read: Reader, digest: Digester) {
    && (forall e | e in events :: EventOk(e) && Owned(e, m))
    && (forall i, j | 0 <= i < j < |events| && events[i].name == events[j].name :: events[i].name == ".")
    && (forall x | x in m :: Delivered(events, x, read, digest))
  }

  lemma DotIsNotCanonical()
    ensures !CanonicalPath(".")
  {
  }

  lemma RepeatedVisit(events: seq<Event>, i: nat, j: nat)
    requires i < j < |events| && SeenName(events[i]).Some? && SeenName(events[i]) == SeenName(events[j])
    ensures Count(events, events[i].name) > 1
  {
    MappedAt(SeenName, events);
    OccursTwice(Mapped(SeenName, events), i, j);
  }

  lemma CountTwice(events: seq<Event>, name: string)
    requires Count(events, name) > 1
    ensures exists i, j :: 0 <= i < j < |events| && SeenName(events[i]) == Some(name) == SeenName(events[j])
  {
    var seen := Mapped(SeenName, events);
    MappedAt(SeenName, events);
    TwoOccurrences(seen, Some(name));
    var i, j :| 0 <= i < j < |seen| && seen[i] == Some(name) == seen[j];
    assert SeenName(events[i]) == Some(name) == SeenName(events[j]);
  }

  lemma {:induction false} TwoOccurrences<T>(s: seq<T>, x: T)
    requires multiset(s)[x] > 1
    ensures exists i, j :: 0 <= i < j < |s| && s[i] == x == s[j]
  {
    assert s == [s[0]] + s[1..];
    if s[0] == x {
      assert x in multiset(s[1..]);
      var j :| 0 <= j < |s[1..]| && s[1..][j] == x;
      assert s[0] == x == s[j + 1];
    } else {
      TwoOccurrences(s[1..], x);
      var i, j :| 0 <= i < j < |s[1..]| && s[1..][i] == x == s[1..][j];
      assert s[i + 1] == x == s[j + 1];
    }
  }

  lemma VerdictOf(events: seq<Event>, m: seq<Entry>, read: Reader, digest: Digester, e: Event)
    requires NoFailures(events, m, read, digest)
    requires e in events && e.name != "."
    ensures EventOk(e) || (e.Visit? && e.info.Ok? && e.info.value.Special?)
    ensures SeenName(e) == Some(e.name) && Count(events, e.name) == 1
    ensures Verdict(m, ByPath(m), e.name, e.info.value, read, digest).None?
  {
    var failure := EventFailure(e);
    assert failure.Some? ==> IsFailure(events, m, read, digest, failure.value);
    CountPositive(events, e.name);
    assert !IsFailure(events, m, read, digest, Repeated(e.name, Count(events, e.name)));
    var verdict := Verdict(m, ByPath(m), e.name, e.info.value, read, digest);
    assert SeenAs(events, e.name, e.info.value);
    assert verdict.Some? ==> PathFailure(events, m, read, digest, verdict.value);
    assert verdict.Some? ==> IsFailure(events, m, read, digest, verdict.value);
  }

  lemma FailureFreeVisit(events: seq<Event>, m: seq<Entry>, read: Reader, digest: Digester, e: Event)
    requires ManifestOk(m) && NoFailures(events, m, read, digest) && e in events
    ensures EventOk(e) && Owned(e, m)
  {
    if e.name == "." {
      var failure := EventFailure(e);
      assert failure.Some? ==> IsFailure(events, m, read, digest, failure.value);
    } else {
      VerdictOf(events, m, read, digest, e);
      ByPathIndexes(m);
      if e.isDir {
        var x :| x in m && (x.path == e.name || Ancestor(e.name, x.path));
        assert x.path == e.name ==> ByPath(m)[e.name] == x;
      } else {
        assert ByPath(m)[e.name] in m;
      }
    }
  }

  lemma FailureFreeEntry(events: seq<Event>, m: seq<Entry>, read: Reader, digest: Digester, x: Entry)
    requires ManifestOk(m) && NoFailures(events, m, read, digest) && x in m
    ensures Delivered(events, x, read, digest)
  {
    SeenCleanly(events, m, read, digest, x);
    var actual :| SeenAs(events, x.path, actual) && Verdict(m, ByPath(m), x.path, actual, read, digest).None?;
    ByPathIndexes(m);
    assert ByPath(m)[x.path] == x;
    var e :| e in events && SeenName(e) == Some(x.path) && Observed(e) == Some(actual);
  }

  lemma FaithfulVerdict(m: seq<Entry>, e: Event, read: Reader, digest: Digester)
    requires ManifestOk(m) && EventOk(e) && e.name != "." && Owned(e, m)
    requires forall x | x in m && x.path == e.name && x.kind.RegularFile? ::
               e.info.value.Regular? && read(x.path).Ok? && digest(read(x.path).value) == x.digest
    ensures Verdict(m, ByPath(m), e.name, e.info.value, read, digest).None?
  {
    ByPathIndexes(m);
    if e.name in ByPath(m) {
      assert ByPath(m)[e.name] in m && ByPath(m)[e.name].path == e.name;
    }
    if e.isDir {
      assert Leads(m, e.name);
    } else {
      var y :| y in m && y.path == e.name && (y.kind.Directory? <==> e.isDir);
      assert ByPath(m)[e.name] == y;
    }
  }

  lemma SameVisit(events: seq<Event>, e: Event, f: Event)
    requires e in events && f in events && e.name == f.name != "."
    requires forall i, j | 0 <= i < j < |events| && events[i].name == events[j].name :: events[i].name == "."
    ensures e == f
  {
    var i :| 0 <= i < |events| && events[i] == e;
    var j :| 0 <= j < |events| && events[j] == f;
    assert !(i < j) && !(j < i);
  }

  lemma FaithfulPath(events: seq<Event>, m: seq<Entry>, read: Reader, digest: Digester, e: Event)
    requires ManifestOk(m) && Faithful(events, m, read, digest) && e in events && e.name != "."
    ensures Verdict(m, ByPath(m), e.name, e.info.value, read, digest).None?
  {
    forall x | x in m && x.path == e.name && x.kind.RegularFile?
      ensures e.info.value.Regular? && read(x.path).Ok? && digest(read(x.path).value) == x.digest
    {
      assert Delivered(events, x, read, digest);
      var f :| f in events && f.Visit? && f.name == x.path && f.info.Ok? && f.info.value.Regular?
               && read(x.path).Ok? && digest(read(x.path).value) == x.digest;
      SameVisit(events, e, f);
    }
    FaithfulVerdict(m, e, read, digest);
  }

  /** NewBundle succeeds exactly on faithful sources. */
  lemma SuccessIsFaithful(events: seq<Event>, m: seq<Entry>, read: Reader, digest: Digester)
    requires ManifestOk(m)
    ensures NoFailures(events, m, read, digest) <==> Faithful(events, m, read, digest)
  {
    if NoFailures(events, m, read, digest) {
      forall e | e in events ensures EventOk(e) && Owned(e, m) {
        FailureFreeVisit(events, m, read, digest, e);
      }
      forall x | x in m ensures Delivered(events, x, read, digest) {
        FailureFreeEntry(events, m, read, digest, x);
      }
      forall i, j | 0 <= i < j < |events| && events[i].name == events[j].name ensures events[i].name == "." {
        if events[i].name != "." {
          VisitedOnce(events, m, read, digest, i, j);
        }
      }
    }
    if Faithful(events, m, read, digest) {
      forall d ensures !IsFailure(events, m, read, digest, d) {
        NothingWrong(events, m, read, digest, d);
      }
    }
  }

  lemma VisitedOnce(events: seq<Event>, m: seq<Entry>, read: Reader, digest: Digester, i: nat, j: nat)
    requires NoFailures(events, m, read, digest) && i < j < |events| && events[i].name == events[j].name
    ensures events[i].name == "."
  {
    if events[i].name != "." {
      VerdictOf(events, m, read, digest, events[i]);
      VerdictOf(events, m, read, digest, events[j]);
      RepeatedVisit(events, i, j);
    }
  }

  lemma PathsAreFine(events: seq<Event>, m: seq<Entry>, read: Reader, digest: Digester, d: Detail)
    requires ManifestOk(m) && Faithful(events, m, read, digest)
    ensures !PathFailure(events, m, read, digest, d)
  {
    hide Verdict, ManifestOk, Faithful;
    DotIsNotCanonical();
    if PathFailure(events, m, read, digest, d) {
      var name, actual :| SeenAs(events, name, actual) && Count(events, name) == 1
                          && Verdict(m, ByPath(m), name, actual, read, digest) == Some(d);
      var e :| e in events && SeenName(e) == Some(name) && Observed(e) == Some(actual);
      FaithfulPath(events, m, read, digest, e);
    }
  }

  lemma NothingWrong(events: seq<Event>, m: seq<Entry>, read: Reader, digest: Digester, d: Detail)
    requires ManifestOk(m) && Faithful(events, m, read, digest)
    ensures !IsFailure(events, m, read, digest, d)
  {
    hide PathFailure;
    DotIsNotCanonical();
    assert !WalkFailure(events, d);
    if RepeatFailure(events, d) {
      CountTwice(events, d.name);
    }
    PathsAreFine(events, m, read, digest, d);
    if MissingFailure(events, m, d) {
      var x :| x in m && Count(events, x.path) == 0 && d == Missing(x.path);
      assert Delivered(events, x, read, digest);
      CountPositive(events, x.path);
    }
  }

  // ----- independence of the walk's order -----

  /** The set of failures is that of the multiset of callbacks. */
  lemma FailuresPermuted(a: seq<Event>, b: seq<Event>, m: seq<Entry>, read: Reader, digest: Digester, d: Detail)
    requires multiset(a) == multiset(b)
    ensures IsFailure(a, m, read, digest, d) <==> IsFailure(b, m, read, digest, d)
  {
    hide Verdict, EventFailure, Count, SeenAs;
    SameView(a, b);
  }

  lemma SameView(a: seq<Event>, b: seq<Event>)
    requires multiset(a) == multiset(b)
    ensures forall e :: e in a <==> e in b
    ensures forall name :: Count(a, name) == Count(b, name)
    ensures forall name, actual :: SeenAs(a, name, actual) <==> SeenAs(b, name, actual)
  {
    hide CanonicalPath;
    MappedPermuted(SeenName, a, b);
    NoRepeatsPermuted(a, b);
  }

  /** The reported failure is fixed up to ties in entry, rank and text, so the error a
      caller reads does not depend on walk order, map order or the sort. */
  lemma SameError(a: seq<Event>, b: seq<Event>, m: seq<Entry>, read: Reader, digest: Digester, explain: Detail -> string, d: Detail, e: Detail)
    requires multiset(a) == multiset(b)
    requires IsFailure(a, m, read, digest, d)
    requires forall x | IsFailure(a, m, read, digest, x) :: FailureOrder(explain)(d, x) <= 0
    requires IsFailure(b, m, read, digest, e)
    requires forall x | IsFailure(b, m, read, digest, x) :: FailureOrder(explain)(e, x) <= 0
    ensures EntryName(d) == EntryName(e) && Rank(d) == Rank(e) && explain(d) == explain(e)
  {
    FailuresPermuted(a, b, m, read, digest, d);
    FailuresPermuted(a, b, m, read, digest, e);
    FailureOrderOk(explain);
    assert FailureOrder(explain)(d, e) == -FailureOrder(explain)(e, d);
  }

  // ----- reading a bundle -----

  datatype OpenFailure = NotCanonical | Undeclared | NotRegular | NotCaptured

  function Open(b: Bundle, name: string): Result<string, OpenFailure> {
    if !CanonicalPath(name) then Err(NotCanonical)
    else if name !in b.entries then Err(Undeclared)
    else if !b.entries[name].kind.RegularFile? then Err(NotRegular)
    else if name !in b.files then Err(NotCaptured)
    else Ok(b.files[name])
  }

  /** A bundle serves exactly its declared regular files, with bytes of the declared digest;
      a missing private snapshot cannot occur. */
  lemma OpenServes(b: Bundle, digest: Digester, name: string)
    requires BundleOk(b, digest)
    ensures Open(b, name).Ok? <==> exists x :: x in b.manifest && x.path == name && x.kind.RegularFile?
    ensures forall x | x in b.manifest && x.path == name && x.kind.RegularFile? :: digest(Open(b, name).value) == x.digest
    ensures Open(b, name) != Err(NotCaptured)
    ensures Open(b, name) == Err(NotRegular) <==> exists x :: x in b.manifest && x.path == name && x.kind.Directory?
  {
    if x :| x in b.manifest && x.path == name {
      assert b.entries[name] == x;
    }
  }
}
