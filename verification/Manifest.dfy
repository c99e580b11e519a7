/** Canonical manifests (artifact/manifest.go, with the value types of artifact/value.go). */
module Manifest {
  import opened Wrappers
  import opened Orders
  import opened Sequences
  import opened Numerals
  import opened Paths

  datatype Kind = RegularFile | Directory

  /** A zero Entry is not valid; every other one was made by a constructor. */
  datatype Entry = Entry(path: string, kind: Kind, mode: nat, digest: string, valid: bool)

  datatype Failure = Unconstructed | DuplicatePath | ParentFile

  const DIGEST_PREFIX := "sha256:"
  const MODE_LIMIT := 0x200

  /** The prefix and 64 lowercase hexadecimal digits. */
  predicate LowerHexValue(value: string, prefix: string) {
    prefix <= value && |value| == |prefix| + 64 && AllDigits(value[|prefix|..], 16)
  }

  /** ParseDigest. */
  predicate IsDigest(value: string) {
    LowerHexValue(value, DIGEST_PREFIX)
  }

  /** What NewFileEntry and NewDirectoryEntry let through. */
  predicate EntryOk(e: Entry) {
    && CanonicalPath(e.path) && e.mode < MODE_LIMIT
    && (if e.kind.RegularFile? then IsDigest(e.digest) else e.digest == "")
  }

  /** Entries are opaque outside the package: valid ones hold what a constructor checked. */
  predicate Constructed(entries: seq<Entry>) {
    forall e | e in entries :: e.valid ==> EntryOk(e)
  }

  function PathOf(e: Entry): string { e.path }

  ghost predicate DistinctPaths(entries: seq<Entry>) {
    DistinctOn(PathOf, entries)
  }

  /** No regular file is a proper ancestor of an entry. */
  ghost predicate NoFileParents(entries: seq<Entry>) {
    forall owner, e | owner in entries && e in entries && owner.kind.RegularFile? :: !Ancestor(owner.path, e.path)
  }

  ghost predicate AllValid(entries: seq<Entry>) {
    forall e | e in entries :: e.valid
  }

  /** The entry lists NewManifest accepts. */
  ghost predicate Acceptable(entries: seq<Entry>) {
    AllValid(entries) && DistinctPaths(entries) && NoFileParents(entries)
  }

  function SortEntries(entries: seq<Entry>): (sorted: seq<Entry>)
    ensures multiset(sorted) == multiset(entries) && SortedBy(ByText(PathOf), sorted)
  {
    StringOrder();
    OnIsComparator(PathOf, CompareString);
    Sort(ByText(PathOf), entries)
  }

  // ----- NewManifest -----

  ghost predicate Indexes(byPath: map<string, Entry>, entries: seq<Entry>) {
    && (forall e | e in entries :: e.path in byPath && byPath[e.path] == e)
    && (forall name | name in byPath :: byPath[name] in entries && byPath[name].path == name)
  }

  /** The ownership loop. */
  method IndexByPath(owned: seq<Entry>) returns (byPath: map<string, Entry>, ok: bool)
    ensures ok <==> DistinctPaths(owned)
    ensures ok ==> Indexes(byPath, owned)
  {
    byPath := map[];
    for i := 0 to |owned|
      invariant DistinctPaths(owned[..i]) && Indexes(byPath, owned[..i])
    {
      assert owned[..i + 1] == owned[..i] + [owned[i]];
      if owned[i].path in byPath {
        assert byPath[owned[i].path] in owned[..i];
        return byPath, false;
      }
      byPath := byPath[owned[i].path := owned[i]];
    }
    assert owned[..|owned|] == owned;
    return byPath, true;
  }

  ghost predicate FileAbove(byPath: map<string, Entry>, name: string) {
    exists owner :: owner in byPath && byPath[owner].kind.RegularFile? && Ancestor(owner, name)
  }

  /** The parent walk.  It ends because the path is clean, and it passes exactly the proper
      ancestors of the path. */
  method ParentIsFile(byPath: map<string, Entry>, name: string) returns (found: bool)
    requires CanonicalPath(name)
    ensures found <==> FileAbove(byPath, name)
  {
    var parent := Dir(name);
    DirStep(name, name);
    while parent != "."
      invariant parent == "." || (Clean(parent) && parent != "" && Ancestor(parent, name))
      invariant forall owner | owner in byPath && byPath[owner].kind.RegularFile? && Ancestor(owner, name) ::
                  parent != "." && |owner| <= |parent|
      decreases if parent == "." then 0 else |parent|
    {
      if parent in byPath && byPath[parent].kind.RegularFile? {
        return true;
      }
      DirStep(name, parent);
      ghost var before := parent;
      parent := Dir(parent);
      forall owner | owner in byPath && byPath[owner].kind.RegularFile? && Ancestor(owner, name)
        ensures parent != "." && |owner| <= |parent|
      {
        AncestorAt(owner, name);
        AncestorAt(before, name);
        assert owner != before;
      }
    }
    return false;
  }

  method AnyFileParent(byPath: map<string, Entry>, owned: seq<Entry>) returns (found: bool)
    requires Indexes(byPath, owned) && forall e | e in owned :: CanonicalPath(e.path)
    ensures found <==> !NoFileParents(owned)
  {
    for i := 0 to |owned|
      invariant forall k | 0 <= k < i :: !FileAbove(byPath, owned[k].path)
    {
      assert owned[i] in owned;
      found := ParentIsFile(byPath, owned[i].path);
      if found {
        var owner :| owner in byPath && byPath[owner].kind.RegularFile? && Ancestor(owner, owned[i].path);
        assert byPath[owner] in owned;
        return true;
      }
    }
    forall owner, e | owner in owned && e in owned && owner.kind.RegularFile? ensures !Ancestor(owner.path, e.path) {
      var k :| 0 <= k < |owned| && owned[k] == e;
      assert owner.path in byPath;
    }
    return false;
  }

  /** NewManifest: accepts exactly lists of constructed entries with distinct paths and no
      file above another entry, names the first rule that is broken, and returns the
      entries in path order. */
  method NewManifest(entries: seq<Entry>) returns (m: Result<seq<Entry>, Failure>)
    requires Constructed(entries)
    ensures m.Ok? <==> Acceptable(entries)
    ensures m.Ok? ==> m.value == SortEntries(entries)
    ensures m.Err? ==> m.error == if !AllValid(entries) then Unconstructed
                                  else if !DistinctPaths(entries) then DuplicatePath
                                  else ParentFile
  {
    for i := 0 to |entries|
      invariant forall k | 0 <= k < i :: entries[k].valid
    {
      if !entries[i].valid {
        return Err(Unconstructed);
      }
    }
    var owned := SortEntries(entries);
    SamePaths(entries, owned);
    var byPath, distinct := IndexByPath(owned);
    if !distinct {
      return Err(DuplicatePath);
    }
    var blocked := AnyFileParent(byPath, owned);
    if blocked {
      return Err(ParentFile);
    }
    return Ok(owned);
  }

  /** Acceptance does not look at the order of the entries. */
  lemma SamePaths(a: seq<Entry>, b: seq<Entry>)
    requires multiset(a) == multiset(b)
    ensures forall e :: e in a <==> e in b
    ensures DistinctPaths(a) <==> DistinctPaths(b)
    ensures Acceptable(a) <==> Acceptable(b)
  {
    NoRepeatsPermuted(a, b);
    DistinctOnPermuted(PathOf, a, b);
  }

  lemma TiesShareAPath(x: Entry, y: Entry)
    ensures ByText(PathOf)(x, y) == 0 ==> x.path == y.path
  {
    StringOrder();
    OnIsComparator(PathOf, CompareString);
    ByTextThen(PathOf, ByText(PathOf));
    assert PathOf(x) == x.path && PathOf(y) == y.path;
  }

  lemma PathOrderIsUnique(a: seq<Entry>, b: seq<Entry>)
    requires multiset(a) == multiset(b) && DistinctPaths(a)
    requires SortedBy(ByText(PathOf), a) && SortedBy(ByText(PathOf), b)
    ensures a == b
  {
    StringOrder();
    OnIsComparator(PathOf, CompareString);
    DistinctOnMembers(PathOf, a);
    forall x, y | x in a && y in a && ByText(PathOf)(x, y) == 0 ensures x == y {
      TiesShareAPath(x, y);
    }
    SortedUnique(ByText(PathOf), a, b);
  }

  /** Every permutation of an entry list gives the same manifest, or is refused alike. */
  lemma OrderIndependent(a: seq<Entry>, b: seq<Entry>)
    requires multiset(a) == multiset(b)
    ensures Acceptable(a) <==> Acceptable(b)
    ensures Acceptable(a) ==> SortEntries(a) == SortEntries(b)
  {
    SamePaths(a, b);
    if Acceptable(a) {
      SamePaths(a, SortEntries(a));
      PathOrderIsUnique(SortEntries(a), SortEntries(b));
    }
  }

  /** The manifests there are. */
  ghost predicate ManifestOk(m: seq<Entry>) {
    Constructed(m) && Acceptable(m) && SortedBy(ByText(PathOf), m)
  }

  /** A manifest's own entry list gives it back. */
  lemma Rebuilt(m: seq<Entry>)
    requires ManifestOk(m)
    ensures SortEntries(m) == m
  {
    PathOrderIsUnique(m, SortEntries(m));
  }

  lemma NewManifestOk(entries: seq<Entry>)
    requires Constructed(entries) && Acceptable(entries)
    ensures ManifestOk(SortEntries(entries))
  {
    SamePaths(entries, SortEntries(entries));
  }
}
