/** Exact row differences of two snapshots (CompareRowChanges, AssertExactRowChanges and
    Delta in internal/acceptance/snapshot.go). */
module RowChanges {
  import opened Wrappers
  import opened Orders
  import opened Sequences
  import opened Numerals
  import opened Encoding
  import opened Snapshot
  import opened TableReader

  /** A table as a caller hands it over: a list of columns that was never set is nil. */
  datatype TableSnapshot = TableSnapshot(name: string, columns: Option<seq<string>>, rows: seq<Row>)

  datatype Key = Key(table: string, identity: string)

  datatype RowChange = RowChange(table: string, identity: string, kind: string)

  const ADDED := "added"
  const CHANGED := "changed"
  const REMOVED := "removed"

  type Rows = map<Key, string>

  // ----- the rows of a snapshot -----

  function TableMap(name: string, rows: seq<Row>): Rows {
    if rows == [] then map[]
    else
      var last := rows[|rows| - 1];
      TableMap(name, rows[..|rows| - 1])[Key(name, last.identity) := last.value]
  }

  function RowMap(tables: seq<TableSnapshot>): Rows {
    if tables == [] then map[]
    else
      var last := tables[|tables| - 1];
      RowMap(tables[..|tables| - 1]) + TableMap(last.name, last.rows)
  }

  /** The two nested loops that fill a row map. */
  method CollectRows(tables: seq<TableSnapshot>) returns (rows: Rows)
    ensures rows == RowMap(tables)
  {
    rows := map[];
    for i := 0 to |tables|
      invariant rows == RowMap(tables[..i])
    {
      var table := tables[i];
      for j := 0 to |table.rows|
        invariant rows == RowMap(tables[..i]) + TableMap(table.name, table.rows[..j])
      {
        assert table.rows[..j + 1][..j] == table.rows[..j];
        rows := rows[Key(table.name, table.rows[j].identity) := table.rows[j].value];
      }
      assert table.rows[..|table.rows|] == table.rows && tables[..i + 1][..i] == tables[..i];
    }
    assert tables[..|tables|] == tables;
  }

  ghost predicate DistinctRows(rows: seq<Row>) {
    forall i, j | 0 <= i < j < |rows| :: rows[i].identity != rows[j].identity
  }

  ghost predicate WellNamed(tables: seq<TableSnapshot>) {
    && (forall t | t in tables :: t.name != "")
    && (forall i, j | 0 <= i < j < |tables| :: tables[i].name != tables[j].name)
  }

  function RowCount(tables: seq<TableSnapshot>): nat {
    if tables == [] then 0 else RowCount(tables[..|tables| - 1]) + |tables[|tables| - 1].rows|
  }

  lemma {:induction false} TableMapExact(name: string, rows: seq<Row>)
    ensures forall k :: k in TableMap(name, rows) <==> k.table == name && exists r :: r in rows && r.identity == k.identity
    ensures DistinctRows(rows) ==> |TableMap(name, rows)| == |rows|
    decreases |rows|
  {
    if rows != [] {
      var last, rest := rows[|rows| - 1], rows[..|rows| - 1];
      TableMapExact(name, rest);
      assert rows == rest + [last];
      var key := Key(name, last.identity);
      assert TableMap(name, rows).Keys == TableMap(name, rest).Keys + {key};
    }
  }

  /** Every key of a row map is the key of one of its tables. */
  lemma {:induction false} RowMapTables(tables: seq<TableSnapshot>)
    ensures forall k | k in RowMap(tables) :: exists t :: t in tables && t.name == k.table
    decreases |tables|
  {
    if tables != [] {
      var last, rest := tables[|tables| - 1], tables[..|tables| - 1];
      assert tables == rest + [last];
      RowMapTables(rest);
      TableMapExact(last.name, last.rows);
    }
  }

  lemma DisjointUnion(a: Rows, b: Rows)
    requires a.Keys !! b.Keys
    ensures |a + b| == |a| + |b|
  {
    assert (a + b).Keys == a.Keys + b.Keys;
  }

  /** No row of a well-formed snapshot is lost in its row map. */
  lemma {:induction false} RowMapCount(tables: seq<TableSnapshot>)
    requires WellNamed(tables) && forall t | t in tables :: DistinctRows(t.rows)
    ensures |RowMap(tables)| == RowCount(tables)
    decreases |tables|
  {
    if tables != [] {
      var last, rest := tables[|tables| - 1], tables[..|tables| - 1];
      assert tables == rest + [last];
      RowMapCount(rest);
      RowMapTables(rest);
      TableMapExact(last.name, last.rows);
      assert RowMap(tables) == RowMap(rest) + TableMap(last.name, last.rows);
      hide RowMap, TableMap;
      DisjointUnion(RowMap(rest), TableMap(last.name, last.rows));
    }
  }

  // ----- table structure -----

  ghost predicate HasTable(tables: seq<TableSnapshot>, name: string, columns: seq<string>) {
    exists t :: t in tables && t.name == name && t.columns == Some(columns)
  }

  ghost predicate Declared(tables: seq<TableSnapshot>) {
    forall t | t in tables :: t.columns.Some?
  }

  /** Two snapshots that can be compared: the same tables with the same columns. */
  ghost predicate StructureOk(before: seq<TableSnapshot>, after: seq<TableSnapshot>) {
    && WellNamed(before) && WellNamed(after) && Declared(before) && Declared(after)
    && forall name, columns :: HasTable(before, name, columns) <==> HasTable(after, name, columns)
  }

  ghost predicate ColumnsOf(m: map<string, seq<string>>, tables: seq<TableSnapshot>) {
    forall name, columns :: HasTable(tables, name, columns) <==> name in m && m[name] == columns
  }

  method TableStructureMap(tables: seq<TableSnapshot>) returns (structure: Option<map<string, seq<string>>>)
    ensures structure.Some? <==> WellNamed(tables) && Declared(tables)
    ensures structure.Some? ==> ColumnsOf(structure.value, tables)
  {
    var m: map<string, seq<string>> := map[];
    for i := 0 to |tables|
      invariant WellNamed(tables[..i]) && Declared(tables[..i]) && ColumnsOf(m, tables[..i])
    {
      assert tables[..i + 1] == tables[..i] + [tables[i]];
      if tables[i].name == "" || tables[i].columns.None? || tables[i].name in m {
        NotWellNamed(m, tables, i);
        return None;
      }
      NewTable(m, tables[..i], tables[i]);
      m := m[tables[i].name := tables[i].columns.value];
    }
    assert tables[..|tables|] == tables;
    return Some(m);
  }

  lemma NewTable(m: map<string, seq<string>>, tables: seq<TableSnapshot>, table: TableSnapshot)
    requires WellNamed(tables) && Declared(tables) && ColumnsOf(m, tables)
    requires table.name != "" && table.columns.Some? && table.name !in m
    ensures WellNamed(tables + [table]) && Declared(tables + [table])
    ensures ColumnsOf(m[table.name := table.columns.value], tables + [table])
  {
    forall t | t in tables ensures t.name != table.name {
      assert HasTable(tables, t.name, t.columns.value);
    }
    forall name, columns
      ensures HasTable(tables + [table], name, columns)
         <==> HasTable(tables, name, columns) || (name == table.name && columns == table.columns.value)
    {
      assert table in tables + [table];
    }
  }

  lemma NotWellNamed(m: map<string, seq<string>>, tables: seq<TableSnapshot>, i: nat)
    requires i < |tables| && ColumnsOf(m, tables[..i])
    requires tables[i].name == "" || tables[i].columns.None? || tables[i].name in m
    ensures !WellNamed(tables) || !Declared(tables)
  {
    assert tables[i] in tables;
    if tables[i].name in m {
      assert HasTable(tables[..i], tables[i].name, m[tables[i].name]);
    }
  }

  method SortedNames(names: set<string>) returns (sorted: seq<string>)
    ensures multiset(sorted) == multiset(names) && SortedBy(CompareString, sorted)
  {
    StringOrder();
    sorted := Drain(names);
    sorted := Sort(CompareString, sorted);
  }

  lemma SameSorted(a: seq<string>, b: seq<string>, s: set<string>, t: set<string>)
    requires multiset(a) == multiset(s) && SortedBy(CompareString, a)
    requires multiset(b) == multiset(t) && SortedBy(CompareString, b)
    ensures a == b <==> s == t
  {
    StringOrder();
    if s == t {
      SortedUnique(CompareString, a, b);
    }
    assert forall x :: x in s <==> x in multiset(s);
    assert forall x :: x in t <==> x in multiset(t);
  }

  method CompareTableStructure(before: seq<TableSnapshot>, after: seq<TableSnapshot>) returns (ok: bool)
    ensures ok <==> StructureOk(before, after)
  {
    var left := TableStructureMap(before);
    if left.None? {
      return false;
    }
    var right := TableStructureMap(after);
    if right.None? {
      return false;
    }
    var leftNames := SortedNames(left.value.Keys);
    var rightNames := SortedNames(right.value.Keys);
    SameSorted(leftNames, rightNames, left.value.Keys, right.value.Keys);
    StructuresMatch(left.value, right.value, before, after);
    if leftNames != rightNames {
      return false;
    }
    ok := SameColumns(left.value, right.value, leftNames);
  }

  method SameColumns(left: map<string, seq<string>>, right: map<string, seq<string>>, names: seq<string>) returns (same: bool)
    requires left.Keys == right.Keys && multiset(names) == multiset(left.Keys)
    ensures same <==> left == right
  {
    forall name ensures name in names <==> name in left {
      assert name in names <==> name in multiset(names);
    }
    for i := 0 to |names|
      invariant forall k | 0 <= k < i :: left[names[k]] == right[names[k]]
    {
      if left[names[i]] != right[names[i]] {
        return false;
      }
    }
    return true;
  }

  lemma StructuresMatch(left: map<string, seq<string>>, right: map<string, seq<string>>, before: seq<TableSnapshot>, after: seq<TableSnapshot>)
    requires WellNamed(before) && WellNamed(after) && Declared(before) && Declared(after) && ColumnsOf(left, before) && ColumnsOf(right, after)
    ensures left == right <==> StructureOk(before, after)
  {
    if StructureOk(before, after) {
      forall name ensures name in left <==> name in right
        ensures name in left && name in right ==> left[name] == right[name]
      {
        assert name in left ==> HasTable(before, name, left[name]) && HasTable(after, name, left[name]);
        assert name in right ==> HasTable(after, name, right[name]) && HasTable(before, name, right[name]);
      }
      assert left == right;
    }
  }

  // ----- what changed -----

  function KeysAdded(was: Rows, now: Rows): set<Key> {
    now.Keys - was.Keys
  }

  function KeysChanged(was: Rows, now: Rows): set<Key> {
    set k | k in was.Keys * now.Keys && was[k] != now[k]
  }

  function KeysRemoved(was: Rows, now: Rows): set<Key> {
    was.Keys - now.Keys
  }

  function Change(k: Key, kind: string): RowChange {
    RowChange(k.table, k.identity, kind)
  }

  function KeyOf(c: RowChange): Key {
    Key(c.table, c.identity)
  }

  /** The exact difference. */
  ghost predicate IsChange(was: Rows, now: Rows, c: RowChange) {
    var k := KeyOf(c);
    || (c.kind == ADDED && k in KeysAdded(was, now))
    || (c.kind == CHANGED && k in KeysChanged(was, now))
    || (c.kind == REMOVED && k in KeysRemoved(was, now))
  }

  /** Each change once, and nothing else. */
  ghost predicate Reports(changes: seq<RowChange>, was: Rows, now: Rows) {
    && (forall c :: c in changes <==> IsChange(was, now, c))
    && NoRepeats(changes)
  }

  function TableOf(c: RowChange): string { c.table }

  function IdentityOf(c: RowChange): string { c.identity }

  function KindOf(c: RowChange): string { c.kind }

  function ChangeOrder(): (RowChange, RowChange) -> int {
    Then(ByText(TableOf), Then(ByText(IdentityOf), ByText(KindOf)))
  }

  lemma ChangeOrderOk()
    ensures Comparator(ChangeOrder()) && Exact(ChangeOrder())
  {
    StringOrder();
    OnIsComparator(KindOf, CompareString);
    ByTextThen(KindOf, ByText(KindOf));
    ByTextThen(IdentityOf, ByText(KindOf));
    ByTextThen(TableOf, Then(ByText(IdentityOf), ByText(KindOf)));
  }

  function SortChanges(changes: seq<RowChange>): (sorted: seq<RowChange>)
    ensures multiset(sorted) == multiset(changes) && SortedBy(ChangeOrder(), sorted)
  {
    ChangeOrderOk();
    Sort(ChangeOrder(), changes)
  }

  lemma NewKey(changes: seq<RowChange>, k: Key)
    requires NoRepeats(changes)
    ensures (forall c | c in changes :: KeyOf(c) != k) ==> forall kind :: NoRepeats(changes + [Change(k, kind)])
  {
    if forall c | c in changes :: KeyOf(c) != k {
      forall kind ensures NoRepeats(changes + [Change(k, kind)]) {
        assert KeyOf(Change(k, kind)) == k;
      }
    }
  }

  /** The loop over the new rows: additions and changes. */
  method CollectNew(was: Rows, now: Rows) returns (changes: seq<RowChange>)
    ensures NoRepeats(changes)
    ensures forall c :: c in changes <==> IsChange(was, now, c) && KeyOf(c) in now
  {
    changes := [];
    var rest := now.Keys;
    while rest != {}
      invariant rest <= now.Keys && NoRepeats(changes)
      invariant forall c :: c in changes <==> IsChange(was, now, c) && KeyOf(c) in now.Keys - rest
      decreases |rest|
    {
      var k :| k in rest;
      NewKey(changes, k);
      if k !in was {
        changes := changes + [Change(k, ADDED)];
      } else if was[k] != now[k] {
        changes := changes + [Change(k, CHANGED)];
      }
      rest := rest - {k};
    }
  }

  /** The loop over the old rows: removals. */
  method CollectRemoved(was: Rows, now: Rows, changes: seq<RowChange>) returns (all: seq<RowChange>)
    requires NoRepeats(changes)
    requires forall c :: c in changes <==> IsChange(was, now, c) && KeyOf(c) in now
    ensures Reports(all, was, now)
  {
    all := changes;
    var rest := was.Keys;
    while rest != {}
      invariant rest <= was.Keys && NoRepeats(all)
      invariant forall c :: c in all <==> IsChange(was, now, c) && (KeyOf(c) in now || KeyOf(c) in was.Keys - rest)
      decreases |rest|
    {
      var k :| k in rest;
      NewKey(all, k);
      if k !in now {
        all := all + [Change(k, REMOVED)];
      }
      rest := rest - {k};
    }
  }

  /** Succeeds exactly on comparable snapshots, and then reports exactly the difference of
      their rows, in order. */
  method CompareRowChanges(before: seq<TableSnapshot>, after: seq<TableSnapshot>) returns (changes: Option<seq<RowChange>>)
    ensures changes.Some? <==> StructureOk(before, after)
    ensures changes.Some? ==>
              Reports(changes.value, RowMap(before), RowMap(after)) && SortedBy(ChangeOrder(), changes.value)
  {
    var ok := CompareTableStructure(before, after);
    if !ok {
      return None;
    }
    var was := CollectRows(before);
    var now := CollectRows(after);
    var found := CollectNew(was, now);
    found := CollectRemoved(was, now, found);
    NoRepeatsPermuted(SortChanges(found), found);
    return Some(SortChanges(found));
  }

  predicate WellFormed(c: RowChange) {
    c.table != "" && c.identity != "" && c.kind in [ADDED, CHANGED, REMOVED]
  }

  method AllWellFormed(changes: seq<RowChange>) returns (ok: bool)
    ensures ok <==> forall c | c in changes :: WellFormed(c)
  {
    for i := 0 to |changes|
      invariant forall k | 0 <= k < i :: WellFormed(changes[k])
    {
      if !WellFormed(changes[i]) {
        return false;
      }
    }
    return true;
  }

  method NeighboursUnequal(changes: seq<RowChange>) returns (ok: bool)
    requires SortedBy(ChangeOrder(), changes)
    ensures ok <==> NoRepeats(changes)
  {
    hide ChangeOrder, SortedBy;
    ChangeOrderOk();
    var i := 1;
    while i < |changes|
      invariant forall k | 0 < k < i && k < |changes| :: changes[k - 1] != changes[k]
    {
      if ChangeOrder()(changes[i - 1], changes[i]) == 0 {
        return false;
      }
      assert ChangeOrder()(changes[i], changes[i]) == 0;
      i := i + 1;
    }
    forall i, j | 0 <= i < j < |changes| ensures changes[i] != changes[j] {
      assert changes[i + 1 - 1] != changes[i + 1];
      StrictAfter(changes, i, j);
    }
    return true;
  }

  lemma StrictAfter(changes: seq<RowChange>, i: nat, j: nat)
    requires i < j < |changes| && SortedBy(ChangeOrder(), changes) && changes[i] != changes[i + 1]
    ensures changes[i] != changes[j]
  {
    ChangeOrderOk();
    assert j > i + 1 ==> ChangeOrder()(changes[i + 1], changes[j]) <= 0;
    assert ChangeOrder()(changes[i], changes[i + 1]) < 0;
    assert ChangeOrder()(changes[i + 1], changes[i]) > 0;
  }

  /** Accepts exactly when the allowed list is well-formed, free of duplicates and equal, as
      a set, to the difference of the two snapshots; its order does not matter. */
  method AssertExactRowChanges(before: seq<TableSnapshot>, after: seq<TableSnapshot>, allowed: seq<RowChange>) returns (ok: bool)
    ensures ok <==>
            && (forall c | c in allowed :: WellFormed(c))
            && StructureOk(before, after)
            && Reports(allowed, RowMap(before), RowMap(after))
  {
    ok := AllWellFormed(allowed);
    if !ok {
      return;
    }
    var want := SortChanges(allowed);
    NoRepeatsPermuted(want, allowed);
    ok := NeighboursUnequal(want);
    if !ok {
      return;
    }
    var got := CompareRowChanges(before, after);
    if got.None? {
      return false;
    }
    if Reports(want, RowMap(before), RowMap(after)) {
      SameReport(want, got.value, RowMap(before), RowMap(after));
    }
    ok := got.value == want;
  }

  /** There is only one sorted report. */
  lemma SameReport(a: seq<RowChange>, b: seq<RowChange>, was: Rows, now: Rows)
    requires Reports(a, was, now) && SortedBy(ChangeOrder(), a)
    requires Reports(b, was, now) && SortedBy(ChangeOrder(), b)
    ensures a == b
  {
    ChangeOrderOk();
    SameMembers(a, b);
    SortedUnique(ChangeOrder(), a, b);
  }

  // ----- completeness of a report -----

  /** The old rows with the reported changes applied; new values are read from `now`. */
  function Patched(was: Rows, changes: seq<RowChange>, now: Rows): Rows {
    var dropped := set c | c in changes && c.kind == REMOVED :: KeyOf(c);
    var written := set c | c in changes && c.kind != REMOVED && KeyOf(c) in now :: KeyOf(c);
    (was - dropped) + map k | k in written :: now[k]
  }

  lemma PatchRebuilds(was: Rows, changes: seq<RowChange>, now: Rows)
    requires Reports(changes, was, now)
    ensures Patched(was, changes, now) == now
  {
    var dropped := set c | c in changes && c.kind == REMOVED :: KeyOf(c);
    var written := set c | c in changes && c.kind != REMOVED && KeyOf(c) in now :: KeyOf(c);
    forall k ensures k in dropped <==> k in KeysRemoved(was, now) {
      assert k in KeysRemoved(was, now) ==> Change(k, REMOVED) in changes && KeyOf(Change(k, REMOVED)) == k;
    }
    forall k ensures k in written <==> k in KeysAdded(was, now) + KeysChanged(was, now) {
      assert k in KeysAdded(was, now) ==> Change(k, ADDED) in changes && KeyOf(Change(k, ADDED)) == k;
      assert k in KeysChanged(was, now) ==> Change(k, CHANGED) in changes && KeyOf(Change(k, CHANGED)) == k;
    }
  }

  function Look(rows: Rows, k: Key): Option<string> {
    if k in rows then Some(rows[k]) else None
  }

  /** A key is reported exactly when looking it up gives a different answer, and never twice. */
  lemma EachKeyOnce(was: Rows, changes: seq<RowChange>, now: Rows)
    requires Reports(changes, was, now)
    ensures forall k :: (exists c :: c in changes && KeyOf(c) == k) <==> Look(was, k) != Look(now, k)
    ensures forall i, j | 0 <= i < j < |changes| :: KeyOf(changes[i]) != KeyOf(changes[j])
  {
    forall k | Look(was, k) != Look(now, k) ensures exists c :: c in changes && KeyOf(c) == k {
      var c := if k !in was then Change(k, ADDED) else if k !in now then Change(k, REMOVED) else Change(k, CHANGED);
      assert IsChange(was, now, c) && KeyOf(c) == k;
    }
    forall i, j | 0 <= i < j < |changes| ensures KeyOf(changes[i]) != KeyOf(changes[j]) {
      assert changes[i] in changes && changes[j] in changes && changes[i] != changes[j];
    }
  }

  lemma SizeSplit<T>(a: set<T>, b: set<T>)
    ensures |a - b| - |b - a| == |a| - |b|
  {
    assert a == (a - b) + a * b && b == (b - a) + a * b;
  }

  /** Additions less removals is the change in the number of rows. */
  lemma RowsConserved(before: seq<TableSnapshot>, after: seq<TableSnapshot>)
    requires WellNamed(before) && forall t | t in before :: DistinctRows(t.rows)
    requires WellNamed(after) && forall t | t in after :: DistinctRows(t.rows)
    ensures |KeysAdded(RowMap(before), RowMap(after))| - |KeysRemoved(RowMap(before), RowMap(after))|
         == RowCount(after) - RowCount(before)
  {
    RowMapCount(before);
    RowMapCount(after);
    SizeSplit(RowMap(after).Keys, RowMap(before).Keys);
  }

  // ----- Delta -----

  /** The tables of one kind of meaning, with the totals the snapshot keeps beside them. */
  datatype SemanticSnapshot = SemanticSnapshot(kind: string, tables: seq<TableSnapshot>, rowCount: int, byteDigest: string)

  datatype ExactDelta = ExactDelta(
    added: seq<string>, changed: seq<string>, removed: seq<string>, rowCount: int, byteDigest: string)

  function Token(k: Key): string {
    k.table + ":" + k.identity
  }

  ghost predicate Enumerates(ks: seq<Key>, keys: set<Key>) {
    NoRepeats(ks) && forall k :: k in ks <==> k in keys
  }

  /** The tokens of a set of keys, each key once, in some order. */
  ghost predicate Gathered(tokens: seq<string>, keys: set<Key>) {
    exists ks: seq<Key> :: Enumerates(ks, keys) && multiset(tokens) == multiset(Mapped(Token, ks))
  }

  /** The same in byte order. */
  ghost predicate Lists(tokens: seq<string>, keys: set<Key>) {
    SortedBy(CompareString, tokens) && Gathered(tokens, keys)
  }

  lemma OneMore(ks: seq<Key>, k: Key)
    requires NoRepeats(ks) && k !in ks
    ensures NoRepeats(ks + [k]) && Mapped(Token, ks + [k]) == Mapped(Token, ks) + [Token(k)]
  {
    assert (ks + [k])[..|ks|] == ks;
  }

  method GatherNew(was: Rows, now: Rows) returns (added: seq<string>, changed: seq<string>)
    ensures Gathered(added, KeysAdded(was, now)) && Gathered(changed, KeysChanged(was, now))
  {
    added, changed := [], [];
    ghost var addedKeys: seq<Key>, changedKeys: seq<Key> := [], [];
    var rest := now.Keys;
    while rest != {}
      invariant rest <= now.Keys && NoRepeats(addedKeys) && NoRepeats(changedKeys)
      invariant forall k :: k in addedKeys <==> k in KeysAdded(was, now) && k !in rest
      invariant forall k :: k in changedKeys <==> k in KeysChanged(was, now) && k !in rest
      invariant added == Mapped(Token, addedKeys) && changed == Mapped(Token, changedKeys)
      decreases |rest|
    {
      var k :| k in rest;
      if k !in was {
        OneMore(addedKeys, k);
        added, addedKeys := added + [Token(k)], addedKeys + [k];
      } else if was[k] != now[k] {
        OneMore(changedKeys, k);
        changed, changedKeys := changed + [Token(k)], changedKeys + [k];
      }
      rest := rest - {k};
    }
    assert Enumerates(addedKeys, KeysAdded(was, now)) && Enumerates(changedKeys, KeysChanged(was, now));
  }

  method GatherRemoved(was: Rows, now: Rows) returns (removed: seq<string>)
    ensures Gathered(removed, KeysRemoved(was, now))
  {
    removed := [];
    ghost var removedKeys: seq<Key> := [];
    var rest := was.Keys;
    while rest != {}
      invariant rest <= was.Keys && NoRepeats(removedKeys)
      invariant forall k :: k in removedKeys <==> k in KeysRemoved(was, now) && k !in rest
      invariant removed == Mapped(Token, removedKeys)
      decreases |rest|
    {
      var k :| k in rest;
      if k !in now {
        OneMore(removedKeys, k);
        removed, removedKeys := removed + [Token(k)], removedKeys + [k];
      }
      rest := rest - {k};
    }
    assert Enumerates(removedKeys, KeysRemoved(was, now));
  }

  method Delta(before: SemanticSnapshot, after: SemanticSnapshot) returns (delta: Option<ExactDelta>)
    ensures delta.Some? <==> before.kind == after.kind && StructureOk(before.tables, after.tables)
    ensures delta.Some? ==>
              var was, now := RowMap(before.tables), RowMap(after.tables);
              && Lists(delta.value.added, KeysAdded(was, now))
              && Lists(delta.value.changed, KeysChanged(was, now))
              && Lists(delta.value.removed, KeysRemoved(was, now))
              && delta.value.rowCount == after.rowCount && delta.value.byteDigest == after.byteDigest
  {
    if before.kind != after.kind {
      return None;
    }
    var ok := CompareTableStructure(before.tables, after.tables);
    if !ok {
      return None;
    }
    var was := CollectRows(before.tables);
    var now := CollectRows(after.tables);
    var added, changed := GatherNew(was, now);
    var removed := GatherRemoved(was, now);
    return Some(ExactDelta(SortStrings(added), SortStrings(changed), SortStrings(removed),
                           after.rowCount, after.byteDigest));
  }

  /** The listing is determined by the keys: map order does not show. */
  lemma ListsOnce(a: seq<string>, b: seq<string>, keys: set<Key>)
    requires Lists(a, keys) && Lists(b, keys)
    ensures a == b && |a| == |keys|
  {
    var ks :| Enumerates(ks, keys) && multiset(a) == multiset(Mapped(Token, ks));
    var ls :| Enumerates(ls, keys) && multiset(b) == multiset(Mapped(Token, ls));
    SameMembers(ks, ls);
    MappedPermuted(Token, ks, ls);
    NoRepeatsSize(ks, keys);
    StringOrder();
    SortedUnique(CompareString, a, b);
    assert |a| == |multiset(a)| == |multiset(Mapped(Token, ks))| == |ks|;
  }

  lemma LastColon(k: Key)
    requires ':' !in k.identity
    ensures Token(k)[|k.table|] == ':'
    ensures forall i | |k.table| < i < |Token(k)| :: Token(k)[i] != ':'
  {
    forall i | |k.table| < i < |Token(k)| ensures Token(k)[i] != ':' {
      assert Token(k)[i] == k.identity[i - |k.table| - 1];
    }
  }

  /** Identities made by the snapshot reader hold no colon, so tokens name their keys. */
  lemma TokenInjective(j: Key, k: Key)
    requires ':' !in j.identity && ':' !in k.identity
    ensures Token(j) == Token(k) <==> j == k
  {
    LastColon(j);
    LastColon(k);
    var s, n := Token(j), |j.table|;
    if s == Token(k) {
      assert |k.table| == n;
      assert s[..n] == j.table && Token(k)[..n] == k.table;
      assert s[n + 1..] == j.identity && Token(k)[n + 1..] == k.identity;
    }
  }

  /** Exactly the keys without a colon have a token of their own: a colon in the table name or
      in the identity can be read as the separator. */
  lemma TokenNamesKeyIff(k: Key)
    ensures (forall j :: Token(j) == Token(k) ==> j == k) <==> ':' !in k.table && ':' !in k.identity
  {
    if ':' in k.table || ':' in k.identity {
      var j := OtherReading(k);
      assert Token(j) == Token(k) && j != k;
    } else {
      forall j | Token(j) == Token(k) ensures j == k {
        OneColon(k);
        assert Token(k)[|j.table|] == ':';
        assert Token(j)[..|j.table|] == j.table && Token(k)[..|k.table|] == k.table;
        assert Token(j)[|j.table| + 1..] == j.identity && Token(k)[|k.table| + 1..] == k.identity;
      }
    }
  }

  lemma OneColon(k: Key)
    requires ':' !in k.table && ':' !in k.identity
    ensures forall i | 0 <= i < |Token(k)| && Token(k)[i] == ':' :: i == |k.table|
  {
    LastColon(k);
    forall i | 0 <= i < |k.table| ensures Token(k)[i] != ':' {
      assert Token(k)[i] == k.table[i];
    }
  }

  /** The same token cut at another colon. */
  lemma OtherReading(k: Key) returns (j: Key)
    requires ':' in k.table || ':' in k.identity
    ensures j != k && Token(j) == Token(k)
  {
    if ':' in k.table {
      var i :| 0 <= i < |k.table| && k.table[i] == ':';
      j := Key(k.table[..i], k.table[i + 1..] + ":" + k.identity);
      assert k.table == k.table[..i] + ":" + k.table[i + 1..];
    } else {
      var i :| 0 <= i < |k.identity| && k.identity[i] == ':';
      j := Key(k.table + ":" + k.identity[..i], k.identity[i + 1..]);
      assert k.identity == k.identity[..i] + ":" + k.identity[i + 1..];
    }
    assert |j.table| != |k.table|;
  }

  /** With colon-free identities a delta names exactly the keys it lists. */
  lemma DeltaIsFaithful(tokens: seq<string>, keys: set<Key>, k: Key)
    requires Lists(tokens, keys) && ':' !in k.identity && forall j | j in keys :: ':' !in j.identity
    ensures Token(k) in tokens <==> k in keys
  {
    var ks :| Enumerates(ks, keys) && multiset(tokens) == multiset(Mapped(Token, ks));
    MappedAt(Token, ks);
    assert Token(k) in tokens <==> Token(k) in multiset(Mapped(Token, ks));
    if Token(k) in tokens {
      var i :| 0 <= i < |ks| && Mapped(Token, ks)[i] == Token(k);
      assert ks[i] in ks;
      TokenInjective(ks[i], k);
    }
    if k in keys {
      var i :| 0 <= i < |ks| && ks[i] == k;
      assert Mapped(Token, ks)[i] == Token(k);
    }
  }

  // ----- what the reader hands over -----

  function Taken(t: Table): TableSnapshot {
    TableSnapshot(t.name, Some(t.columns), t.rows)
  }

  /** Whatever the reader captures under distinct names can be compared, and no row of it is lost
      in the row map: names, columns and identities are as the comparison wants them. */
  lemma CapturedIsComparable(sources: seq<TableSource>, limits: Limits)
    requires AllFit(sources, limits)
    requires forall i, j | 0 <= i < j < |sources| :: sources[i].name != sources[j].name
    requires forall t | t in sources :: t.name != ""
    ensures var tables := Mapped(Taken, Mapped(Captured, sources));
            && StructureOk(tables, tables)
            && |RowMap(tables)| == RowCount(tables)
  {
    var captured := Mapped(Captured, sources);
    var tables := Mapped(Taken, captured);
    MappedAt(Captured, sources);
    MappedAt(Taken, captured);
    hide AllFit, RowMap, RowCount, Mapped, DistinctIdentities, CanonicalRows;
    forall t | t in tables ensures t.name != "" && t.columns.Some? && DistinctRows(t.rows) {
      var i :| 0 <= i < |tables| && tables[i] == t;
      assert sources[i] in sources;
      EachFits(sources, limits, i);
      FitsIsDistinct(sources[i], limits);
      RowsAreDistinct(CanonicalRows(sources[i].name, sources[i].info, sources[i].rows));
    }
    RowMapCount(tables);
  }

  lemma {:induction false} EachFits(sources: seq<TableSource>, limits: Limits, i: nat)
    requires AllFit(sources, limits) && i < |sources|
    ensures TableFits(sources[i], limits)
    decreases |sources|
  {
    if i < |sources| - 1 {
      EachFits(sources[..|sources| - 1], limits, i);
    }
  }

  lemma FitsIsDistinct(t: TableSource, limits: Limits)
    requires TableFits(t, limits)
    ensures DistinctIdentities(multiset(CanonicalRows(t.name, t.info, t.rows)))
  {
  }

  lemma RowsAreDistinct(rows: seq<Row>)
    requires DistinctIdentities(multiset(rows))
    ensures DistinctRows(SortRows(rows))
  {
    var sorted := SortRows(rows);
    forall i, j | 0 <= i < j < |sorted| ensures sorted[i].identity != sorted[j].identity {
      if sorted[i].identity == sorted[j].identity {
        assert sorted[i] in multiset(sorted) && sorted[j] in multiset(sorted);
        OccursTwice(sorted, i, j);
      }
    }
  }

  // ----- canonical identities hold no colon -----

  predicate Plain(s: string) {
    ':' !in s
  }

  lemma {:induction false} HexIsPlain(bytes: seq<byte>)
    ensures Plain(HexEncode(bytes))
  {
    if bytes != [] {
      HexIsPlain(bytes[1..]);
    }
  }

  lemma {:induction false} FieldsArePlain(fields: seq<string>)
    requires forall f | f in fields :: Plain(f)
    ensures Plain(EncodeFields(fields))
  {
    if fields != [] {
      HexIsPlain(BigEndian(|fields[0]|, 8));
      FieldsArePlain(fields[1..]);
      assert Plain(HexHeader(|fields[0]|)) && Plain(fields[0]);
      assert EncodeFields(fields) == HexHeader(|fields[0]|) + fields[0] + EncodeFields(fields[1..]);
    }
  }

  lemma DigitsArePlain(n: nat, base: nat)
    requires IsBase(base)
    ensures Plain(Digits(n, base))
  {
    ValueOfDigits(n, base);
    assert DigitValue(':') == 16;
  }

  lemma CellIsPlain(cell: Cell)
    ensures Plain(CanonicalCell(cell))
  {
    match cell
    case Integer(v) => DigitsArePlain(if v < 0 then -v else v, 10);
    case Float(bits) => DigitsArePlain(bits, 16);
    case Text(v) => HexIsPlain(v);
    case Blob(v) => HexIsPlain(v);
    case _ =>
  }

  lemma {:induction false} PartsAtMembers(info: seq<Column>, encoded: seq<string>, ordinal: nat, n: nat)
    requires n <= |info| == |encoded|
    ensures forall f | f in PartsAt(info, encoded, ordinal, n) :: f in encoded
  {
    if n > 0 {
      PartsAtMembers(info, encoded, ordinal, n - 1);
    }
  }

  lemma {:induction false} KeyPartsMembers(info: seq<Column>, encoded: seq<string>, k: nat)
    requires |info| == |encoded|
    ensures forall f | f in KeyParts(info, encoded, k) :: f in encoded
  {
    if k > 0 {
      KeyPartsMembers(info, encoded, k - 1);
      PartsAtMembers(info, encoded, k, |info|);
    }
  }

  /** Every identity the snapshot reader makes is free of colons. */
  lemma IdentityIsPlain(name: string, info: seq<Column>, cells: seq<Cell>)
    requires |info| == |cells|
    ensures Plain(CanonicalRow(name, info, cells).identity)
  {
    var encoded := EncodeCells(cells);
    forall f | f in encoded ensures Plain(f) {
      var i :| 0 <= i < |cells| && encoded[i] == f;
      CellIsPlain(cells[i]);
    }
    FieldsArePlain(encoded);
    KeyPartsMembers(info, encoded, |info|);
    FieldsArePlain(IdentityParts(name, info, encoded));
  }
}
