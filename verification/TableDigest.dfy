/** The digests of a table and of a store (digestTable and digestTables in
    internal/acceptance/snapshot.go): what is hashed, and when two inputs are the same. */
module TableDigest {
  import opened Orders
  import opened Sequences
  import opened Numerals
  import opened Encoding
  import opened Snapshot
  import opened TableReader

  /** What digestTable hashes: columns and name, then each row's two fields. */
  function DigestInput(table: Table): string {
    EncodeFields(table.columns + [table.name]) + RowsInput(table.rows)
  }

  function RowsInput(rows: seq<Row>): string {
    if rows == [] then "" else EncodeFields([rows[0].identity, rows[0].value]) + RowsInput(rows[1..])
  }

  /** The digest input as one list of fields. */
  function FlatFields(table: Table): seq<string> {
    table.columns + [table.name] + FlatRows(table.rows)
  }

  function FlatRows(rows: seq<Row>): (flat: seq<string>)
    ensures |flat| == 2 * |rows|
  {
    if rows == [] then [] else [rows[0].identity, rows[0].value] + FlatRows(rows[1..])
  }

  lemma {:induction false} RowsInputIsFlat(rows: seq<Row>)
    ensures RowsInput(rows) == EncodeFields(FlatRows(rows))
  {
    if rows != [] {
      RowsInputIsFlat(rows[1..]);
      EncodeFieldsConcat([rows[0].identity, rows[0].value], FlatRows(rows[1..]));
    }
  }

  lemma {:induction false} FlatRowsInjective(a: seq<Row>, b: seq<Row>)
    requires FlatRows(a) == FlatRows(b)
    ensures a == b
  {
    assert |FlatRows(a)| == 2 * |a| && |FlatRows(b)| == 2 * |b|;
    if a != [] && b != [] {
      var s, t := FlatRows(a), FlatRows(b);
      assert s[0] == t[0] && s[1] == t[1] && s[2..] == FlatRows(a[1..]) && t[2..] == FlatRows(b[1..]);
      FlatRowsInjective(a[1..], b[1..]);
      assert a == [a[0]] + a[1..] && b == [b[0]] + b[1..];
    }
  }

  /** The field list is what the digest input determines, neither more nor less. */
  lemma SameInputIsSameFields(a: Table, b: Table)
    requires Sized(FlatFields(a)) && Sized(FlatFields(b))
    ensures DigestInput(a) == DigestInput(b) <==> FlatFields(a) == FlatFields(b)
    ensures DigestInput(a) == DigestInput(b) ==> |a.columns| + 2 * |a.rows| == |b.columns| + 2 * |b.rows|
  {
    RowsInputIsFlat(a.rows);
    RowsInputIsFlat(b.rows);
    EncodeFieldsConcat(a.columns + [a.name], FlatRows(a.rows));
    EncodeFieldsConcat(b.columns + [b.name], FlatRows(b.rows));
    if DigestInput(a) == DigestInput(b) {
      EncodeFieldsInjective(FlatFields(a), FlatFields(b));
      assert |FlatFields(a)| == |FlatFields(b)|;
    }
  }

  /** Tables with equally many columns have the same digest input exactly when they are
      equal; in particular, same name and columns leave only the rows to differ. */
  lemma DigestInputInjective(a: Table, b: Table)
    requires |a.columns| == |b.columns| && Sized(FlatFields(a)) && Sized(FlatFields(b))
    ensures DigestInput(a) == DigestInput(b) <==> a == b
  {
    SameInputIsSameFields(a, b);
    if FlatFields(a) == FlatFields(b) {
      var n := |a.columns|;
      assert FlatFields(a)[..n] == a.columns && FlatFields(b)[..n] == b.columns;
      assert FlatFields(a)[n] == a.name && FlatFields(b)[n] == b.name;
      assert FlatFields(a)[n + 1..] == FlatRows(a.rows) && FlatFields(b)[n + 1..] == FlatRows(b.rows);
      FlatRowsInjective(a.rows, b.rows);
    }
  }

  // ----- which tables share their digest input -----

  /** The table without rows that has the same field list. */
  function Unrowed(t: Table): (u: Table)
    requires t.rows != []
    ensures FlatFields(u) == FlatFields(t) && u.rows == []
    ensures |u.columns| == |t.columns| + 2 * |t.rows|
  {
    var fields := FlatFields(t);
    Table(fields[|fields| - 1], fields[..|fields| - 1], [])
  }

  /** The one-column, one-row table with the field list of three columns. */
  function Rowed(t: Table): (u: Table)
    requires t.rows == [] && |t.columns| >= 3
    ensures FlatFields(u) == FlatFields(t) && u.columns != [] && |u.columns| == |t.columns| - 2
  {
    var fields, n := t.columns + [t.name], |t.columns|;
    var u := Table(fields[n - 2], fields[..n - 2], [Row(fields[n - 1], fields[n])]);
    assert FlatRows(u.rows[1..]) == [];
    assert FlatFields(u) == fields == FlatFields(t);
    u
  }

  /** As bare values, a table with columns shares its digest input with another one exactly
      when it has a row to be read as columns, or columns enough to be read as a row. */
  lemma SharesInputIff(t: Table)
    requires t.columns != [] && Sized(FlatFields(t))
    ensures (exists u: Table :: u != t && u.columns != [] && Sized(FlatFields(u)) && DigestInput(u) == DigestInput(t))
       <==> t.rows != [] || |t.columns| >= 3
  {
    forall u: Table | u != t && u.columns != [] && Sized(FlatFields(u)) && DigestInput(u) == DigestInput(t)
      ensures t.rows != [] || |t.columns| >= 3
    {
      SameInputIsSameFields(u, t);
      if |u.columns| == |t.columns| {
        DigestInputInjective(u, t);
      }
    }
    if t.rows != [] || |t.columns| >= 3 {
      var u := if t.rows != [] then Unrowed(t) else Rowed(t);
      SameInputIsSameFields(u, t);
      assert u != t;
    }
  }

  /** A table name and column list the database lets exist. */
  type Schemas = (string, seq<string>) -> bool

  /** The reader can make this table from a database that admits its schema. */
  ghost predicate Made(t: Table, schemas: Schemas) {
    && schemas(t.name, t.columns) && Sized(FlatFields(t))
    && exists source: TableSource :: IsSource(t, source)
  }

  ghost predicate IsSource(t: Table, source: TableSource) {
    && source.info != [] && t == Captured(source)
    && (forall row, cell | row in source.rows && cell in row :: CellSize(cell) < UINT64_LIMIT)
    && DistinctIdentities(multiset(CanonicalRows(source.name, source.info, source.rows)))
  }

  /** A row's value tells how many columns its table has. */
  ghost predicate HasCells(value: string, n: nat) {
    exists fields: seq<string> :: |fields| == n && Sized(fields) && value == EncodeFields(fields)
  }

  lemma ValueHasCells(t: Table, schemas: Schemas, row: Row)
    requires Made(t, schemas) && row in t.rows
    ensures HasCells(row.value, |t.columns|)
  {
    var source: TableSource :| IsSource(t, source);
    assert row in multiset(t.rows);
    var cells := RowComesFrom(source.name, source.info, source.rows, row);
    CellsAreSized(cells);
    assert row.value == EncodeFields(EncodeCells(cells));
  }

  lemma {:induction false} RowComesFrom(name: string, info: seq<Column>, rows: seq<seq<Cell>>, row: Row)
    returns (cells: seq<Cell>)
    requires Rectangular(info, rows) && row in CanonicalRows(name, info, rows)
    ensures cells in rows && |cells| == |info| && row == CanonicalRow(name, info, cells)
    decreases |rows|
  {
    var last := rows[|rows| - 1];
    assert last in rows;
    if row == CanonicalRow(name, info, last) {
      cells := last;
    } else {
      cells := RowComesFrom(name, info, rows[..|rows| - 1], row);
    }
  }

  /** Two tables with rows never share a digest input: the last value gives the columns away. */
  lemma LastValueDecides(s: Table, t: Table, schemas: Schemas)
    requires Made(s, schemas) && Made(t, schemas) && s.rows != [] && t.rows != []
    requires DigestInput(s) == DigestInput(t)
    ensures s == t
  {
    SameInputIsSameFields(s, t);
    LastField(s);
    LastField(t);
    var a, b := s.rows[|s.rows| - 1], t.rows[|t.rows| - 1];
    ValueHasCells(s, schemas, a);
    ValueHasCells(t, schemas, b);
    var f :| |f| == |s.columns| && Sized(f) && a.value == EncodeFields(f);
    var g :| |g| == |t.columns| && Sized(g) && b.value == EncodeFields(g);
    EncodeFieldsInjective(f, g);
    DigestInputInjective(s, t);
  }

  lemma LastField(t: Table)
    requires t.rows != []
    ensures FlatFields(t)[|FlatFields(t)| - 1] == t.rows[|t.rows| - 1].value
  {
    LastFlat(t.rows);
  }

  lemma {:induction false} LastFlat(rows: seq<Row>)
    requires rows != []
    ensures FlatRows(rows)[2 * |rows| - 1] == rows[|rows| - 1].value
  {
    if |rows| > 1 {
      LastFlat(rows[1..]);
    }
  }

  /** The only collisions between tables the reader makes: one of the two has no rows, and its
      columns and name are the other one's columns, name and rows. */
  lemma CollisionsAreUnrowed(s: Table, t: Table, schemas: Schemas)
    requires Made(s, schemas) && Made(t, schemas)
    ensures DigestInput(s) == DigestInput(t)
       <==> s == t || (s.rows != [] && t == Unrowed(s)) || (t.rows != [] && s == Unrowed(t))
  {
    SameInputIsSameFields(s, t);
    if DigestInput(s) == DigestInput(t) {
      if s.rows != [] && t.rows != [] {
        LastValueDecides(s, t, schemas);
      } else if s.rows == [] && t.rows == [] {
        DigestInputInjective(s, t);
      } else if s.rows != [] {
        IsUnrowed(s, t);
      } else {
        IsUnrowed(t, s);
      }
    }
  }

  lemma IsUnrowed(s: Table, t: Table)
    requires s.rows != [] && t.rows == [] && FlatFields(s) == FlatFields(t)
    ensures t == Unrowed(s)
  {
    assert FlatFields(t) == t.columns + [t.name];
  }

  /** A table with rows shares its digest input with another table of the reader exactly when
      the database admits the schema that spells those rows out as column names. */
  lemma CollidesIff(t: Table, schemas: Schemas)
    requires Made(t, schemas) && t.rows != []
    ensures (exists u :: u != t && Made(u, schemas) && DigestInput(u) == DigestInput(t))
       <==> schemas(Unrowed(t).name, Unrowed(t).columns)
  {
    forall u | u != t && Made(u, schemas) && DigestInput(u) == DigestInput(t)
      ensures schemas(Unrowed(t).name, Unrowed(t).columns)
    {
      CollisionsAreUnrowed(u, t, schemas);
    }
    if schemas(Unrowed(t).name, Unrowed(t).columns) {
      UnrowedIsMade(t, schemas);
    }
  }

  lemma UnrowedIsMade(t: Table, schemas: Schemas)
    requires Made(t, schemas) && t.rows != [] && schemas(Unrowed(t).name, Unrowed(t).columns)
    ensures Made(Unrowed(t), schemas) && DigestInput(Unrowed(t)) == DigestInput(t)
    ensures Unrowed(t) != t
  {
    EmptyIsMade(Unrowed(t), schemas);
    SameInputIsSameFields(Unrowed(t), t);
  }

  lemma UnrowedName(t: Table)
    requires t.rows != []
    ensures Unrowed(t).name == t.rows[|t.rows| - 1].value
  {
    LastField(t);
  }

  /** The same under the table's own name, which is what a store could confuse: exactly the tables
      named by their own last row's value, where the database admits the spelled-out columns. */
  lemma SameNameCollidesIff(t: Table, schemas: Schemas)
    requires Made(t, schemas) && t.rows != []
    ensures (exists u :: u != t && u.name == t.name && Made(u, schemas) && DigestInput(u) == DigestInput(t))
       <==> t.name == t.rows[|t.rows| - 1].value && schemas(Unrowed(t).name, Unrowed(t).columns)
  {
    UnrowedName(t);
    hide Made, DigestInput, Unrowed;
    forall u | u != t && u.name == t.name && Made(u, schemas) && DigestInput(u) == DigestInput(t)
      ensures u == Unrowed(t)
    {
      CollisionsAreUnrowed(u, t, schemas);
    }
    if schemas(Unrowed(t).name, Unrowed(t).columns) {
      UnrowedIsMade(t, schemas);
    } else {
      forall u | u == Unrowed(t) ensures !Made(u, schemas) {
        MadeIsAdmitted(u, schemas);
      }
    }
  }

  lemma MadeIsAdmitted(t: Table, schemas: Schemas)
    ensures Made(t, schemas) ==> schemas(t.name, t.columns)
  {
  }

  /** The condition under which a table shares its digest input with no table of its name. */
  ghost predicate Separable(t: Table, schemas: Schemas) {
    t.rows != [] && t.name == t.rows[|t.rows| - 1].value ==> !schemas(t.name, Unrowed(t).columns)
  }

  const ALL_SCHEMAS: Schemas := (name, columns) => true

  /** Such tables exist: under schemas that admit everything, one with a single NULL cell, of any
      name; named by its own row, it is not separable. */
  lemma OneRowIsMade(name: string) returns (t: Table)
    requires name != SEQUENCE_TABLE && |name| < UINT64_LIMIT
    ensures Made(t, ALL_SCHEMAS) && t.name == name && |t.rows| == 1
    ensures Separable(t, ALL_SCHEMAS) <==> name != EncodeFields(["n"])
  {
    hide EncodeFields, CanonicalRow, CanonicalCell, FlatFields, DistinctIdentities;
    var info := [Column("c", 0)];
    var source: TableSource := RawTable(name, info, [[Null]]);
    var row := NullRow(name);
    OneRow(source, row);
    t := Table(name, ["c"], [row]);
    assert Captured(source) == t;
    OneRowFields(name, row);
    OnlyOnce(row);
    assert IsSource(t, source);
    UnrowedName(t);
  }

  lemma OneRowFields(name: string, row: Row)
    requires |name| < UINT64_LIMIT && |row.value| < UINT64_LIMIT && |row.identity| < UINT64_LIMIT
    ensures Sized(FlatFields(Table(name, ["c"], [row])))
  {
    var t := Table(name, ["c"], [row]);
    assert FlatRows(t.rows[1..]) == [];
    assert FlatFields(t) == ["c", name, row.identity, row.value];
  }

  lemma OnlyOnce(row: Row)
    ensures DistinctIdentities(multiset([row]))
  {
  }

  lemma NullRow(name: string) returns (row: Row)
    requires name != SEQUENCE_TABLE
    ensures row == CanonicalRow(name, [Column("c", 0)], [Null])
    ensures row.value == EncodeFields(["n"]) && |row.value| == 17 && |row.identity| == 33
  {
    var info := [Column("c", 0)];
    row := CanonicalRow(name, info, [Null]);
    assert EncodeCells([Null]) == ["n"];
    assert PartsAt(info, ["n"], 1, 1) == [] && KeyParts(info, ["n"], 1) == [];
    OneField("n");
    OneField(row.value);
  }

  lemma OneRow(source: TableSource, row: Row)
    requires |source.rows| == 1 && row == CanonicalRow(source.name, source.info, source.rows[0])
    ensures Captured(source).rows == [row] && CanonicalRows(source.name, source.info, source.rows) == [row]
  {
    var rows := CanonicalRows(source.name, source.info, source.rows);
    assert source.rows[..0] == [];
    assert rows == [row];
    var sorted := SortRows(rows);
    assert |multiset(sorted)| == 1 && sorted[0] in multiset(rows);
  }

  /** The reader makes any table without rows whose schema the database admits. */
  lemma EmptyIsMade(u: Table, schemas: Schemas)
    requires u.rows == [] && u.columns != [] && Sized(FlatFields(u)) && schemas(u.name, u.columns)
    ensures Made(u, schemas)
  {
    var info := Mapped(name => Column(name, 0), u.columns);
    MappedAt(name => Column(name, 0), u.columns);
    var source: TableSource := RawTable(u.name, info, []);
    assert Names(info) == u.columns;
    assert SortRows([]) == [] by { assert |multiset(SortRows([]))| == 0; }
    assert IsSource(u, source);
  }

  // ----- the whole store -----

  function TableName(stamp: Row): string { stamp.identity }

  /** What digestTables hashes: each table's name and digest, written like a row, by name. */
  function StoreInput(stamps: seq<Row>): string {
    StringOrder();
    OnIsComparator(TableName, CompareString);
    RowsInput(Sort(ByText(TableName), stamps))
  }

  /** With distinct names, the store's digest input determines the set of names and digests, and
      the order in which the tables are listed does not show. */
  lemma StoreInputExact(a: seq<Row>, b: seq<Row>)
    requires DistinctOn(TableName, a) && DistinctOn(TableName, b)
    requires forall s | s in a || s in b :: |s.identity| < UINT64_LIMIT && |s.value| < UINT64_LIMIT
    ensures StoreInput(a) == StoreInput(b) <==> multiset(a) == multiset(b)
  {
    StringOrder();
    OnIsComparator(TableName, CompareString);
    var order := ByText(TableName);
    var x, y := Sort(order, a), Sort(order, b);
    RowsInputIsFlat(x);
    RowsInputIsFlat(y);
    if StoreInput(a) == StoreInput(b) {
      FlatIsSized(a, x);
      FlatIsSized(b, y);
      EncodeFieldsInjective(FlatRows(x), FlatRows(y));
      FlatRowsInjective(x, y);
    }
    if multiset(a) == multiset(b) {
      DistinctOnPermuted(TableName, x, a);
      DistinctOnMembers(TableName, x);
      assert TiesAreEqual(order, x);
      SortedUnique(order, x, y);
    }
  }

  lemma FlatIsSized(a: seq<Row>, x: seq<Row>)
    requires multiset(x) == multiset(a)
    requires forall s | s in a :: |s.identity| < UINT64_LIMIT && |s.value| < UINT64_LIMIT
    ensures Sized(FlatRows(x))
  {
    forall s | s in x ensures |s.identity| < UINT64_LIMIT && |s.value| < UINT64_LIMIT {
      assert s in multiset(x);
    }
    FlatSized(x);
  }

  lemma {:induction false} FlatSized(x: seq<Row>)
    requires forall s | s in x :: |s.identity| < UINT64_LIMIT && |s.value| < UINT64_LIMIT
    ensures Sized(FlatRows(x))
  {
    if x != [] {
      FlatSized(x[1..]);
    }
  }

  // ----- from the store back to its tables -----

  function NameOf(t: Table): string { t.name }

  /** A table's stamp under a digest function. */
  function Stamp(hash: string -> string): Table -> Row {
    (t: Table) => Row(t.name, hash(DigestInput(t)))
  }

  /** What the store digest can tell apart: tables of the reader with distinct names, each of them
      separable from every other table of its name. */
  ghost predicate Listed(tables: seq<Table>, schemas: Schemas) {
    && DistinctOn(NameOf, tables)
    && forall t | t in tables :: Made(t, schemas) && Separable(t, schemas)
  }

  /** The digest function tells these tables' inputs apart. */
  ghost predicate CollisionFree(hash: string -> string, tables: seq<Table>) {
    forall s, t | s in tables && t in tables && hash(DigestInput(s)) == hash(DigestInput(t)) ::
      DigestInput(s) == DigestInput(t)
  }

  /** Two stores have the same digest input exactly when they hold the same tables. */
  lemma StoreIsExact(a: seq<Table>, b: seq<Table>, hash: string -> string, schemas: Schemas)
    requires Listed(a, schemas) && Listed(b, schemas) && CollisionFree(hash, a + b)
    requires forall t | t in a + b :: |hash(DigestInput(t))| < UINT64_LIMIT
    ensures StoreInput(Mapped(Stamp(hash), a)) == StoreInput(Mapped(Stamp(hash), b)) <==> multiset(a) == multiset(b)
  {
    var x, y := Mapped(Stamp(hash), a), Mapped(Stamp(hash), b);
    StampsAreFit(a, hash, schemas);
    StampsAreFit(b, hash, schemas);
    StoreInputExact(x, y);
    if multiset(a) == multiset(b) {
      MappedPermuted(Stamp(hash), a, b);
    }
    if multiset(x) == multiset(y) {
      SameStampsSameTables(a, b, hash, schemas);
      SameStampsSameTables(b, a, hash, schemas);
      DistinctOnMembers(NameOf, a);
      DistinctOnMembers(NameOf, b);
      SameMembers(a, b);
    }
  }

  lemma StampsAreFit(a: seq<Table>, hash: string -> string, schemas: Schemas)
    requires Listed(a, schemas) && forall t | t in a :: |hash(DigestInput(t))| < UINT64_LIMIT
    ensures DistinctOn(TableName, Mapped(Stamp(hash), a))
    ensures forall s | s in Mapped(Stamp(hash), a) :: |s.identity| < UINT64_LIMIT && |s.value| < UINT64_LIMIT
  {
    var x := Mapped(Stamp(hash), a);
    MappedAt(Stamp(hash), a);
    hide Made, DigestInput, Mapped;
    forall i, j | 0 <= i < j < |x| ensures TableName(x[i]) != TableName(x[j]) {
      assert NameOf(a[i]) != NameOf(a[j]);
    }
    forall s | s in x ensures |s.identity| < UINT64_LIMIT && |s.value| < UINT64_LIMIT {
      var i :| 0 <= i < |x| && x[i] == s;
      assert a[i] in a;
      NameIsSized(a[i], schemas);
    }
  }

  lemma NameIsSized(t: Table, schemas: Schemas)
    requires Made(t, schemas)
    ensures |t.name| < UINT64_LIMIT
  {
    assert FlatFields(t)[|t.columns|] == t.name && t.name in FlatFields(t);
  }

  lemma SameStampsSameTables(a: seq<Table>, b: seq<Table>, hash: string -> string, schemas: Schemas)
    requires Listed(a, schemas) && Listed(b, schemas)
    requires CollisionFree(hash, a + b) || CollisionFree(hash, b + a)
    requires multiset(Mapped(Stamp(hash), a)) == multiset(Mapped(Stamp(hash), b))
    ensures forall t | t in a :: t in b
  {
    var x, y := Mapped(Stamp(hash), a), Mapped(Stamp(hash), b);
    MappedAt(Stamp(hash), a);
    MappedAt(Stamp(hash), b);
    hide Made, DigestInput, Mapped, DistinctOn;
    forall t | t in a ensures t in b {
      var i :| 0 <= i < |a| && a[i] == t;
      assert x[i] in multiset(y);
      var j :| 0 <= j < |y| && y[j] == x[i];
      assert t in a + b && b[j] in a + b && t in b + a && b[j] in b + a;
      SameNameSameTable(t, b[j], schemas);
    }
  }

  lemma SameNameSameTable(s: Table, t: Table, schemas: Schemas)
    requires Made(s, schemas) && Made(t, schemas) && s.name == t.name && DigestInput(s) == DigestInput(t)
    requires Separable(s, schemas) && Separable(t, schemas)
    ensures s == t
  {
    CollisionsAreUnrowed(s, t, schemas);
    if s.rows != [] {
      LastField(s);
    }
    if t.rows != [] {
      LastField(t);
    }
  }

  /** Without that condition the store digest fails, whatever the digest function: the store of
      this table alone hashes what the store of another table alone does. */
  lemma StoreCollides(t: Table, hash: string -> string, schemas: Schemas)
    requires Made(t, schemas) && !Separable(t, schemas)
    ensures exists u :: u != t && Made(u, schemas)
              && StoreInput(Mapped(Stamp(hash), [t])) == StoreInput(Mapped(Stamp(hash), [u]))
  {
    UnrowedName(t);
    UnrowedIsMade(t, schemas);
    var u := Unrowed(t);
    hide DigestInput;
    MappedAt(Stamp(hash), [t]);
    MappedAt(Stamp(hash), [u]);
    assert Mapped(Stamp(hash), [t]) == [Row(t.name, hash(DigestInput(t)))] == Mapped(Stamp(hash), [u]);
  }
}
