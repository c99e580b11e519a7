/** snapshotTable and its byte budget (internal/acceptance/snapshot.go). */
module TableReader {
  import opened Wrappers
  import opened Orders
  import opened Sequences
  import opened Encoding
  import opened Snapshot

  class ByteBudget {
    const max: nat
    var used: nat

    ghost predicate Valid()
      reads this
    {
      used <= max
    }

    constructor (max: nat)
      ensures Valid() && this.max == max && used == 0
    {
      this.max, used := max, 0;
    }

    method Reserve(size: nat) returns (ok: bool)
      requires Valid()
      modifies this
      ensures Valid()
      ensures ok <==> old(used) + size <= max
      ensures used == if ok then old(used) + size else old(used)
    {
      if size > max - used {
        return false;
      }
      used := used + size;
      return true;
    }
  }

  function RowOrder(): (Row, Row) -> int {
    Then(On((r: Row) => r.identity, CompareString), On((r: Row) => r.value, CompareString))
  }

  lemma RowOrderOk()
    ensures Comparator(RowOrder()) && Exact(RowOrder())
  {
    StringOrder();
    OnIsComparator((r: Row) => r.identity, CompareString);
    OnIsComparator((r: Row) => r.value, CompareString);
    ThenIsComparator(On((r: Row) => r.identity, CompareString), On((r: Row) => r.value, CompareString));
  }

  /** Each identity occurs once. */
  ghost predicate DistinctIdentities(rows: multiset<Row>) {
    && (forall r | r in rows :: rows[r] == 1)
    && (forall r, q | r in rows && q in rows && r.identity == q.identity :: r == q)
  }

  /** A SELECT yields as many cells a row as the table has columns. */
  ghost predicate Rectangular(info: seq<Column>, rows: seq<seq<Cell>>) {
    forall row | row in rows :: |row| == |info|
  }

  function CanonicalRows(name: string, info: seq<Column>, rows: seq<seq<Cell>>): (r: seq<Row>)
    requires Rectangular(info, rows)
    ensures |r| == |rows|
  {
    if rows == [] then []
    else
      assert rows[|rows| - 1] in rows;
      CanonicalRows(name, info, rows[..|rows| - 1]) + [CanonicalRow(name, info, rows[|rows| - 1])]
  }

  ghost predicate CellsFit(row: seq<Cell>, max: nat) {
    forall cell | cell in row :: CellFits(cell, max)
  }

  ghost predicate AllCellsFit(rows: seq<seq<Cell>>, max: nat) {
    forall row | row in rows :: CellsFit(row, max)
  }

  /** The bytes a table keeps, known before it is encoded. */
  function TableBytes(name: string, info: seq<Column>, rows: seq<seq<Cell>>): nat
    requires Rectangular(info, rows)
  {
    |name| + NameBytes(info) + RowsBytes(name, info, rows)
  }

  ghost predicate RowsFit(name: string, info: seq<Column>, rows: seq<seq<Cell>>, limits: Limits, room: int)
    requires Rectangular(info, rows)
  {
    && RowsBytes(name, info, rows) <= room
    && |rows| <= limits.maxRowsPerTable
    && AllCellsFit(rows, limits.maxCellBytes)
  }

  /** The tables a snapshot with `room` bytes left accepts. */
  ghost predicate Acceptable(name: string, info: seq<Column>, rows: seq<seq<Cell>>, limits: Limits, room: int)
    requires Rectangular(info, rows)
  {
    && info != []
    && RowsFit(name, info, rows, limits, room - |name| - NameBytes(info))
    && DistinctIdentities(multiset(CanonicalRows(name, info, rows)))
  }

  /** What one more cell adds to the sizes. */
  lemma MeasureStep(info: seq<Column>, cells: seq<Cell>, i: nat, max: nat)
    requires i < |info| == |cells|
    ensures ValueBytes(cells[..i + 1]) == ValueBytes(cells[..i]) + 16 + CellSize(cells[i])
    ensures info[i].pk <= |info| ==>
              KeyBytes(info, CellSizes(cells), |info|, i + 1)
              == KeyBytes(info, CellSizes(cells), |info|, i) + if info[i].pk > 0 then 16 + CellSize(cells[i]) else 0
    ensures CellsFit(cells[..i + 1], max) <==> CellsFit(cells[..i], max) && CellFits(cells[i], max)
    ensures CellsFit(cells, max) ==> CellFits(cells[i], max)
    ensures HasKey(info[..i + 1]) <==> HasKey(info[..i]) || info[i].pk > 0
  {
    hide CellSize, CellFits;
    assert cells[..i + 1] == cells[..i] + [cells[i]] && info[..i + 1] == info[..i] + [info[i]];
    assert cells[..i + 1][..i] == cells[..i];
  }

  lemma MeasureStart(info: seq<Column>, cells: seq<Cell>, max: nat)
    requires |info| == |cells|
    ensures ValueBytes(cells[..0]) == 0 && KeyBytes(info, CellSizes(cells), |info|, 0) == 0
    ensures CellsFit(cells[..0], max) && !HasKey(info[..0])
  {
  }

  /** The sizing loop of one row: what to reserve, or None when a cell is too large. */
  method MeasureRow(name: string, info: seq<Column>, cells: seq<Cell>, max: nat) returns (bytes: Option<nat>)
    requires |info| == |cells| && KeyNumbersOk(info)
    ensures bytes == if CellsFit(cells, max) then Some(RowBytes(name, info, cells)) else None
  {
    hide CellSize, CellFits, ValueBytes, KeyBytes, CellsFit, HasKey;
    MeasureStart(info, cells, max);
    var valueBytes, identityBytes, hasPrimaryKey := 0, 0, false;
    for i := 0 to |cells|
      invariant CellsFit(cells[..i], max)
      invariant valueBytes == ValueBytes(cells[..i])
      invariant identityBytes == KeyBytes(info, CellSizes(cells), |info|, i)
      invariant hasPrimaryKey <==> HasKey(info[..i])
    {
      MeasureStep(info, cells, i, max);
      if !CellFits(cells[i], max) {
        return None;
      }
      assert info[i] in info;
      valueBytes := valueBytes + 16 + CellSize(cells[i]);
      if info[i].pk > 0 {
        hasPrimaryKey := true;
        identityBytes := identityBytes + 16 + CellSize(cells[i]);
      }
    }
    assert cells[..|cells|] == cells && info[..|info|] == info;
    if name == SEQUENCE_TABLE && |cells| > 0 {
      identityBytes := 16 + CellSize(cells[0]);
    } else if !hasPrimaryKey {
      identityBytes := 16 + valueBytes;
    }
    return Some(valueBytes + identityBytes);
  }

  /** The key cells, number by number. */
  method CollectKey(info: seq<Column>, encoded: seq<string>) returns (identityParts: seq<string>)
    requires |info| == |encoded|
    ensures identityParts == KeyParts(info, encoded, |info|)
  {
    identityParts := [];
    for ordinal := 1 to |info| + 1
      invariant identityParts == KeyParts(info, encoded, ordinal - 1)
    {
      for i := 0 to |info|
        invariant identityParts == KeyParts(info, encoded, ordinal - 1) + PartsAt(info, encoded, ordinal, i)
      {
        if info[i].pk == ordinal {
          identityParts := identityParts + [encoded[i]];
        }
      }
    }
  }

  /** The encoding loop of one row. */
  method EncodeRow(name: string, info: seq<Column>, cells: seq<Cell>) returns (row: Row)
    requires |info| == |cells| && info != [] && KeyNumbersOk(info)
    ensures row == CanonicalRow(name, info, cells)
    ensures |row.identity| + |row.value| == RowBytes(name, info, cells)
  {
    hide RowBytes, CanonicalCell, EncodeFields, KeyParts;
    RowBytesIsExact(name, info, cells);
    var encoded: seq<string> := [];
    for i := 0 to |cells|
      invariant encoded == EncodeCells(cells)[..i]
    {
      encoded := encoded + [CanonicalCell(cells[i])];
    }
    assert encoded == EncodeCells(cells);
    var identityParts := CollectKey(info, encoded);
    if name == SEQUENCE_TABLE && |encoded| > 0 {
      identityParts := [encoded[0]];
    }
    var value := EncodeFields(encoded);
    if |identityParts| == 0 {
      identityParts := [value];
    }
    return Row(EncodeFields(identityParts), value);
  }

  /** The bytes of the table's name and column names, and the column list. */
  method MeasureSchema(name: string, info: seq<Column>) returns (bytes: nat, columns: seq<string>)
    ensures bytes == |name| + NameBytes(info)
    ensures columns == Names(info) && TotalLength(columns) == NameBytes(info)
  {
    bytes, columns := |name|, [];
    for i := 0 to |info|
      invariant bytes == |name| + NameBytes(info[..i])
      invariant columns == Names(info)[..i] && TotalLength(columns) == NameBytes(info[..i])
    {
      assert info[..i + 1][..i] == info[..i];
      bytes := bytes + |info[i].name|;
      ghost var longer := columns + [info[i].name];
      assert longer[..|longer| - 1] == columns;
      columns := columns + [info[i].name];
    }
    assert info[..|info|] == info && columns == Names(info);
  }

  /** The row loop: sizes, charges and encodes row after row, and stops at the first row
      that is over a limit. */
  method ReadRows(name: string, info: seq<Column>, rows: seq<seq<Cell>>, limits: Limits, budget: ByteBudget)
    returns (kept: Result<seq<Row>, Failure>)
    requires budget.Valid() && KeyNumbersOk(info) && info != []
    requires Rectangular(info, rows)
    modifies budget
    ensures budget.Valid() && budget.used >= old(budget.used)
    ensures kept.Ok? <==> RowsFit(name, info, rows, limits, budget.max - old(budget.used))
    ensures kept.Ok? ==>
              && kept.value == CanonicalRows(name, info, rows)
              && budget.used == old(budget.used) + RetainedRows(kept.value)
  {
    hide CanonicalRow, RowBytes, CellsFit;
    var read: seq<Row> := [];
    for i := 0 to |rows|
      invariant budget.Valid() && i <= limits.maxRowsPerTable && Rectangular(info, rows[..i])
      invariant AllCellsFit(rows[..i], limits.maxCellBytes)
      invariant budget.used == old(budget.used) + RowsBytes(name, info, rows[..i])
      invariant read == CanonicalRows(name, info, rows[..i])
      invariant RetainedRows(read) == RowsBytes(name, info, rows[..i])
    {
      assert rows[i] in rows;
      PrefixStep(name, info, rows, i);
      CellsFitStep(rows, i, limits.maxCellBytes);
      RowsBytesMonotone(name, info, rows, i + 1);
      if |read| == limits.maxRowsPerTable {
        return Err(TooManyRows);
      }
      var bytes := MeasureRow(name, info, rows[i], limits.maxCellBytes);
      if bytes.None? {
        return Err(CellTooLarge);
      }
      var ok := budget.Reserve(bytes.value);
      if !ok {
        return Err(OverBudget);
      }
      var row := EncodeRow(name, info, rows[i]);
      RetainedAppend(read, row);
      read := read + [row];
    }
    assert rows[..|rows|] == rows;
    kept := Ok(read);
  }

  /** The neighbour scan of the sorted rows. */
  method NeighboursDiffer(rows: seq<Row>) returns (distinct: bool)
    requires SortedBy(RowOrder(), rows)
    ensures distinct <==> DistinctIdentities(multiset(rows))
    ensures distinct ==> StrictlySortedBy(On((row: Row) => row.identity, CompareString), rows)
  {
    var i := 1;
    while i < |rows|
      invariant forall k | 0 < k < i && k < |rows| :: rows[k - 1].identity != rows[k].identity
    {
      if rows[i - 1].identity == rows[i].identity {
        Repeated(rows, i - 1, i);
        return false;
      }
      i := i + 1;
    }
    AdjacentDistinct(rows);
    return true;
  }

  /** Reads one table.  It succeeds exactly on acceptable tables, the rows come out in
      canonical order with strictly increasing identities, and the budget then has been
      charged for exactly the bytes that are kept; it is never overdrawn. */
  method SnapshotTable(name: string, info: seq<Column>, rows: seq<seq<Cell>>, limits: Limits, budget: ByteBudget)
    returns (r: Result<Table, Failure>)
    requires budget.Valid() && KeyNumbersOk(info)
    requires Rectangular(info, rows)
    modifies budget
    ensures budget.Valid() && budget.used >= old(budget.used)
    ensures r.Ok? <==> Acceptable(name, info, rows, limits, budget.max - old(budget.used))
    ensures r.Ok? ==>
              && r.value.name == name && r.value.columns == Names(info)
              && r.value.rows == SortRows(CanonicalRows(name, info, rows))
              && StrictlySortedBy(On((row: Row) => row.identity, CompareString), r.value.rows)
              && budget.used == old(budget.used) + Retained(r.value)
  {
    if |info| == 0 {
      return Err(NoColumns);
    }
    var retainedMetadataBytes, columns := MeasureSchema(name, info);
    var ok := budget.Reserve(retainedMetadataBytes);
    if !ok {
      return Err(OverBudget);
    }
    var read := ReadRows(name, info, rows, limits, budget);
    if read.Err? {
      return Err(read.error);
    }
    RetainedSorted(read.value);
    var sorted := SortRows(read.value);
    var distinct := NeighboursDiffer(sorted);
    if !distinct {
      return Err(DuplicateIdentity);
    }
    r := Ok(Table(name, columns, sorted));
  }

  // ----- the whole store -----

  datatype RawTable = RawTable(name: string, info: seq<Column>, rows: seq<seq<Cell>>)

  /** One table as the database delivers it. */
  type TableSource = t: RawTable | KeyNumbersOk(t.info) && Rectangular(t.info, t.rows) witness RawTable("", [], [])

  /** What is asked of one table apart from the byte budget. */
  ghost predicate TableFits(t: TableSource, limits: Limits) {
    && t.info != []
    && |t.rows| <= limits.maxRowsPerTable
    && AllCellsFit(t.rows, limits.maxCellBytes)
    && DistinctIdentities(multiset(CanonicalRows(t.name, t.info, t.rows)))
  }

  ghost function BytesOf(t: TableSource): nat {
    TableBytes(t.name, t.info, t.rows)
  }

  function Captured(t: TableSource): Table {
    Table(t.name, Names(t.info), SortRows(CanonicalRows(t.name, t.info, t.rows)))
  }

  ghost function StoreBytes(sources: seq<TableSource>): nat {
    if sources == [] then 0 else StoreBytes(sources[..|sources| - 1]) + BytesOf(sources[|sources| - 1])
  }

  function StoreRows(sources: seq<TableSource>): nat {
    if sources == [] then 0 else StoreRows(sources[..|sources| - 1]) + |sources[|sources| - 1].rows|
  }

  function RetainedAll(tables: seq<Table>): nat {
    if tables == [] then 0 else RetainedAll(tables[..|tables| - 1]) + Retained(tables[|tables| - 1])
  }

  lemma {:induction false} StoreMonotone(sources: seq<TableSource>, n: nat, limits: Limits)
    requires n <= |sources|
    ensures StoreBytes(sources[..n]) <= StoreBytes(sources) && StoreRows(sources[..n]) <= StoreRows(sources)
    ensures AllFit(sources, limits) ==> AllFit(sources[..n], limits)
    decreases |sources|
  {
    if n < |sources| {
      StoreMonotone(sources[..|sources| - 1], n, limits);
      assert sources[..|sources| - 1][..n] == sources[..n];
    } else {
      assert sources[..n] == sources;
    }
  }

  lemma StoreStep(sources: seq<TableSource>, i: nat, limits: Limits)
    requires i < |sources|
    ensures AllFit(sources[..i + 1], limits) <==> AllFit(sources[..i], limits) && TableFits(sources[i], limits)
    ensures StoreBytes(sources[..i + 1]) == StoreBytes(sources[..i]) + BytesOf(sources[i])
    ensures StoreRows(sources[..i + 1]) == StoreRows(sources[..i]) + |sources[i].rows|
    ensures Mapped(Captured, sources[..i + 1]) == Mapped(Captured, sources[..i]) + [Captured(sources[i])]
  {
    assert sources[..i + 1][..i] == sources[..i];
  }

  lemma RetainedAllAppend(tables: seq<Table>, table: Table)
    ensures RetainedAll(tables + [table]) == RetainedAll(tables) + Retained(table)
  {
    assert (tables + [table])[..|tables|] == tables;
  }

  lemma OneRowRetained(name: string, info: seq<Column>, cells: seq<Cell>, before: seq<Row>)
    requires info != [] && KeyNumbersOk(info) && |cells| == |info|
    ensures RetainedRows(before + [CanonicalRow(name, info, cells)]) == RetainedRows(before) + RowBytes(name, info, cells)
  {
    var row := CanonicalRow(name, info, cells);
    RowBytesIsExact(name, info, cells);
    RetainedAppend(before, row);
  }

  lemma {:induction false} RowsRetained(name: string, info: seq<Column>, rows: seq<seq<Cell>>)
    requires info != [] && KeyNumbersOk(info) && Rectangular(info, rows)
    ensures RetainedRows(CanonicalRows(name, info, rows)) == RowsBytes(name, info, rows)
    decreases |rows|
  {
    if rows != [] {
      var n := |rows| - 1;
      PrefixStep(name, info, rows, n);
      assert rows[..n + 1] == rows;
      RowsRetained(name, info, rows[..n]);
      OneRowRetained(name, info, rows[n], CanonicalRows(name, info, rows[..n]));
    }
  }

  lemma {:induction false} NamesRetained(info: seq<Column>)
    ensures TotalLength(Names(info)) == NameBytes(info)
    decreases |info|
  {
    if info != [] {
      NamesRetained(info[..|info| - 1]);
      assert Names(info)[..|info| - 1] == Names(info[..|info| - 1]);
    }
  }

  /** A captured table keeps exactly the bytes that were reckoned beforehand. */
  lemma CapturedBytes(t: TableSource)
    requires t.info != []
    ensures Retained(Captured(t)) == BytesOf(t)
  {
    RowsRetained(t.name, t.info, t.rows);
    RetainedSorted(CanonicalRows(t.name, t.info, t.rows));
    NamesRetained(t.info);
  }

  ghost predicate AllFit(sources: seq<TableSource>, limits: Limits) {
    sources != [] ==> AllFit(sources[..|sources| - 1], limits) && TableFits(sources[|sources| - 1], limits)
  }

  /** The stores that can be captured: every bound is positive and none is exceeded. */
  ghost predicate StoreFits(sources: seq<TableSource>, bounds: SnapshotLimits) {
    && LimitsOk(bounds)
    && |sources| <= bounds.maxTables
    && AllFit(sources, bounds)
    && StoreRows(sources) <= bounds.maxRows && StoreBytes(sources) <= bounds.maxTotalBytes
  }

  lemma StoreStarts(sources: seq<TableSource>, limits: Limits)
    ensures AllFit(sources[..0], limits) && StoreBytes(sources[..0]) == 0 && StoreRows(sources[..0]) == 0
    ensures RetainedAll([]) == 0 && Mapped(Captured, sources[..0]) == []
  {
  }

  method CaptureOne(t: TableSource, limits: Limits, budget: ByteBudget) returns (table: Option<Table>)
    requires budget.Valid()
    modifies budget
    ensures budget.Valid()
    ensures table.Some? <==> TableFits(t, limits) && old(budget.used) + BytesOf(t) <= budget.max
    ensures table.Some? ==>
              table.value == Captured(t) && budget.used == old(budget.used) + Retained(Captured(t)) == old(budget.used) + BytesOf(t)
  {
    AcceptableIsFitting(t, limits, budget.max - budget.used);
    var r := SnapshotTable(t.name, t.info, t.rows, limits, budget);
    if r.Err? {
      return None;
    }
    CapturedBytes(t);
    return Some(r.value);
  }

  /** SnapshotFile: the bounds are checked, the inventory is counted before any table is read,
      and then the table loop runs on one shared budget.  It succeeds exactly on stores within
      every bound, and then the budget stands at the bytes that are kept. */
  method SnapshotStore(sources: seq<TableSource>, bounds: SnapshotLimits)
    returns (tables: Option<seq<Table>>, budget: ByteBudget)
    ensures fresh(budget) && budget.Valid()
    ensures tables.Some? <==> StoreFits(sources, bounds)
    ensures tables.Some? ==>
              && budget.used == RetainedAll(tables.value) <= budget.max == bounds.maxTotalBytes
              && tables.value == Mapped(Captured, sources)
  {
    hide TableFits, BytesOf, Captured, Retained, AllFit, StoreRows, StoreBytes, RetainedAll, Mapped;
    if !LimitsOk(bounds) {
      budget := new ByteBudget(0);
      return None, budget;
    }
    var limits: Limits := bounds;
    budget := new ByteBudget(limits.maxTotalBytes);
    StoreStarts(sources, limits);
    for i := 0 to |sources|
      invariant i <= limits.maxTables
    {
      if i == limits.maxTables {
        return None, budget;
      }
    }
    var kept: seq<Table> := [];
    var rowCount: nat := 0;
    for i := 0 to |sources|
      invariant fresh(budget) && budget.Valid() && budget.max == limits.maxTotalBytes
      invariant AllFit(sources[..i], limits)
      invariant budget.used == RetainedAll(kept) == StoreBytes(sources[..i])
      invariant rowCount == StoreRows(sources[..i]) <= limits.maxRows
      invariant kept == Mapped(Captured, sources[..i])
    {
      StoreStep(sources, i, limits);
      StoreMonotone(sources, i + 1, limits);
      var table := CaptureOne(sources[i], limits, budget);
      if table.None? || rowCount + |sources[i].rows| > limits.maxRows {
        return None, budget;
      }
      RetainedAllAppend(kept, table.value);
      rowCount := rowCount + |sources[i].rows|;
      kept := kept + [table.value];
    }
    assert sources[..|sources|] == sources;
    return Some(kept), budget;
  }

  lemma AcceptableIsFitting(t: TableSource, limits: Limits, room: int)
    ensures Acceptable(t.name, t.info, t.rows, limits, room) <==> TableFits(t, limits) && BytesOf(t) <= room
  {
  }

  function Names(info: seq<Column>): (names: seq<string>)
    ensures |names| == |info| && forall i | 0 <= i < |info| :: names[i] == info[i].name
  {
    seq(|info|, i requires 0 <= i < |info| => info[i].name)
  }

  function SortRows(rows: seq<Row>): (sorted: seq<Row>)
    ensures multiset(sorted) == multiset(rows) && SortedBy(RowOrder(), sorted)
  {
    RowOrderOk();
    Sort(RowOrder(), rows)
  }

  lemma {:induction false} RowsBytesMonotone(name: string, info: seq<Column>, rows: seq<seq<Cell>>, i: nat)
    requires i <= |rows| && Rectangular(info, rows)
    ensures RowsBytes(name, info, rows[..i]) <= RowsBytes(name, info, rows)
    decreases |rows|
  {
    if i < |rows| {
      assert rows[|rows| - 1] in rows;
      RowsBytesMonotone(name, info, rows[..|rows| - 1], i);
      assert rows[..|rows| - 1][..i] == rows[..i];
    } else {
      assert rows[..i] == rows;
    }
  }

  /** What one more row adds to the specification functions. */
  lemma PrefixStep(name: string, info: seq<Column>, rows: seq<seq<Cell>>, i: nat)
    requires i < |rows| && Rectangular(info, rows)
    ensures Rectangular(info, rows[..i]) && Rectangular(info, rows[..i + 1]) && |rows[i]| == |info|
    ensures RowsBytes(name, info, rows[..i + 1]) == RowsBytes(name, info, rows[..i]) + RowBytes(name, info, rows[i])
    ensures CanonicalRows(name, info, rows[..i + 1])
         == CanonicalRows(name, info, rows[..i]) + [CanonicalRow(name, info, rows[i])]
  {
    assert rows[i] in rows && rows[..i + 1][..i] == rows[..i];
  }

  lemma CellsFitStep(rows: seq<seq<Cell>>, i: nat, max: nat)
    requires i < |rows|
    ensures AllCellsFit(rows[..i + 1], max) <==> AllCellsFit(rows[..i], max) && CellsFit(rows[i], max)
    ensures AllCellsFit(rows, max) ==> CellsFit(rows[i], max)
  {
    assert rows[..i + 1] == rows[..i] + [rows[i]];
  }

  lemma {:induction false} RetainedAppend(rows: seq<Row>, row: Row)
    ensures RetainedRows(rows + [row]) == RetainedRows(rows) + |row.identity| + |row.value|
  {
    if rows == [] {
      assert (rows + [row])[1..] == [];
    } else {
      assert (rows + [row])[0] == rows[0] && (rows + [row])[1..] == rows[1..] + [row];
      RetainedAppend(rows[1..], row);
    }
  }

  /** Sorting keeps every byte. */
  lemma {:induction false} RetainedSorted(rows: seq<Row>)
    ensures RetainedRows(SortRows(rows)) == RetainedRows(rows)
  {
    RowOrderOk();
    if rows != [] {
      RetainedSorted(rows[1..]);
      RetainedInserted(rows[0], Sort(RowOrder(), rows[1..]));
    }
  }

  lemma {:induction false} RetainedInserted(row: Row, sorted: seq<Row>)
    requires Comparator(RowOrder()) && SortedBy(RowOrder(), sorted)
    ensures RetainedRows(Insert(RowOrder(), row, sorted)) == |row.identity| + |row.value| + RetainedRows(sorted)
  {
    if sorted == [] {
      assert [row][1..] == [];
    } else if RowOrder()(row, sorted[0]) <= 0 {
      assert ([row] + sorted)[1..] == sorted;
    } else {
      RetainedInserted(row, sorted[1..]);
      var rest := Insert(RowOrder(), row, sorted[1..]);
      assert ([sorted[0]] + rest)[1..] == rest;
    }
  }

  lemma Repeated(rows: seq<Row>, i: nat, j: nat)
    requires i < j < |rows| && rows[i].identity == rows[j].identity
    ensures !DistinctIdentities(multiset(rows))
  {
    if rows[i] == rows[j] {
      OccursTwice(rows, i, j);
    } else {
      assert rows[i] in multiset(rows) && rows[j] in multiset(rows);
    }
  }

  /** Sorted rows without equal neighbours have strictly increasing identities. */
  lemma AdjacentDistinct(rows: seq<Row>)
    requires SortedBy(RowOrder(), rows)
    requires forall k | 0 < k < |rows| :: rows[k - 1].identity != rows[k].identity
    ensures StrictlySortedBy(On((row: Row) => row.identity, CompareString), rows)
    ensures DistinctIdentities(multiset(rows))
  {
    forall i, j | 0 <= i < j < |rows| ensures CompareString(rows[i].identity, rows[j].identity) < 0 {
      StrictBetween(rows, i, j);
    }
    CompareSelf();
    forall r, q | r in multiset(rows) && q in multiset(rows) && r.identity == q.identity ensures r == q {
      var i :| 0 <= i < |rows| && rows[i] == r;
      var j :| 0 <= j < |rows| && rows[j] == q;
    }
    forall r | r in multiset(rows) ensures multiset(rows)[r] == 1 {
      OccursOnce(rows, r);
    }
  }

  lemma CompareSelf()
    ensures forall s :: CompareString(s, s) == 0
  {
    StringOrder();
    forall s ensures CompareString(s, s) == 0 {
      assert CompareString(s, s) == -CompareString(s, s);
    }
  }

  lemma StrictBetween(rows: seq<Row>, i: nat, j: nat)
    requires i < j < |rows| && SortedBy(RowOrder(), rows)
    requires forall k | 0 < k < |rows| :: rows[k - 1].identity != rows[k].identity
    ensures CompareString(rows[i].identity, rows[j].identity) < 0
  {
    StringOrder();
    var a, b, c := rows[i].identity, rows[i + 1].identity, rows[j].identity;
    assert RowOrder()(rows[i], rows[i + 1]) <= 0;
    assert rows[i + 1 - 1].identity != rows[i + 1].identity;
    assert CompareString(a, b) < 0;
    assert CompareString(b, a) > 0;
    if j > i + 1 {
      assert RowOrder()(rows[i + 1], rows[j]) <= 0;
      assert CompareString(b, c) <= 0;
      assert CompareString(c, a) <= 0 ==> CompareString(b, a) <= 0;
    }
  }

  // ----- independence of the SELECT order -----

  lemma {:induction false} CanonicalRowsAreMapped(name: string, info: seq<Column>, rows: seq<seq<Cell>>, f: seq<Cell> -> Row)
    requires Rectangular(info, rows)
    requires forall cells | |cells| == |info| :: f(cells) == CanonicalRow(name, info, cells)
    ensures CanonicalRows(name, info, rows) == Mapped(f, rows)
    decreases |rows|
  {
    if rows != [] {
      assert rows[|rows| - 1] in rows;
      CanonicalRowsAreMapped(name, info, rows[..|rows| - 1], f);
    }
  }

  /** The snapshot's rows do not depend on the order in which SQLite returns them. */
  lemma SelectOrderIrrelevant(name: string, info: seq<Column>, a: seq<seq<Cell>>, b: seq<seq<Cell>>)
    requires Rectangular(info, a) && Rectangular(info, b)
    requires multiset(a) == multiset(b)
    ensures SortRows(CanonicalRows(name, info, a)) == SortRows(CanonicalRows(name, info, b))
  {
    var f := (cells: seq<Cell>) => if |cells| == |info| then CanonicalRow(name, info, cells) else Row("", "");
    CanonicalRowsAreMapped(name, info, a, f);
    CanonicalRowsAreMapped(name, info, b, f);
    MappedPermuted(f, a, b);
    RowOrderOk();
    SortedUnique(RowOrder(), SortRows(CanonicalRows(name, info, a)), SortRows(CanonicalRows(name, info, b)));
  }
}
