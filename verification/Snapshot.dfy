/** Canonical table snapshots (internal/acceptance/snapshot.go): cells and rows as injective
    text, a byte budget reserved before anything is encoded, and the digest input. */
module Snapshot {
  import opened Numerals
  import opened Encoding

  /** What the SQLite driver scans; a float is its 64 bits. */
  datatype Cell =
    | Null
    | Integer(value: int)
    | Float(bits: nat)
    | Boolean(truth: bool)
    | Text(text: seq<byte>)
    | Blob(blob: seq<byte>)

  datatype Column = Column(name: string, pk: nat)

  datatype Row = Row(identity: string, value: string)

  datatype Table = Table(name: string, columns: seq<string>, rows: seq<Row>)

  datatype SnapshotLimits = SnapshotLimits(
    maxTables: int, maxRows: int, maxRowsPerTable: int, maxCellBytes: int, maxTotalBytes: int)

  /** validateSnapshotLimits. */
  predicate LimitsOk(l: SnapshotLimits) {
    && l.maxTables > 0 && l.maxRows > 0 && l.maxRowsPerTable > 0 && l.maxCellBytes > 0 && l.maxTotalBytes > 0
    && l.maxRowsPerTable <= l.maxRows
  }

  /** The bounds every reader below is given. */
  type Limits = l: SnapshotLimits | LimitsOk(l) witness SnapshotLimits(1, 1, 1, 1, 1)

  datatype Failure = NoColumns | OverBudget | TooManyRows | CellTooLarge | DuplicateIdentity

  const SEQUENCE_TABLE := "sqlite_sequence"

  // ----- cells -----

  function CanonicalCell(cell: Cell): string {
    match cell
    case Null => "n"
    case Integer(v) => "i" + SignedDigits(v, 10)
    case Float(bits) => "f" + Digits(bits, 16)
    case Boolean(true) => "t"
    case Boolean(false) => "f"
    case Text(v) => "s" + HexEncode(v)
    case Blob(v) => "b" + HexEncode(v)
  }

  /** canonicalCellSize: the size of the encoding, known without encoding. */
  function CellSize(cell: Cell): nat {
    match cell
    case Null | Boolean(_) => 1
    case Integer(v) => 1 + |SignedDigits(v, 10)|
    case Float(bits) => 1 + |Digits(bits, 16)|
    case Text(v) => 1 + 2 * |v|
    case Blob(v) => 1 + 2 * |v|
  }

  predicate CellFits(cell: Cell, max: nat) {
    match cell
    case Text(v) => |v| <= max
    case Blob(v) => |v| <= max
    case _ => true
  }

  /** The "canonical size mismatch" report is unreachable. */
  lemma CellSizeIsLength(cell: Cell)
    ensures |CanonicalCell(cell)| == CellSize(cell)
  {
  }

  /** Cells of any types encode distinctly. */
  lemma CellInjective(a: Cell, b: Cell)
    requires CanonicalCell(a) == CanonicalCell(b)
    ensures a == b
  {
    var s, t := CanonicalCell(a), CanonicalCell(b);
    assert s[0] == t[0] && s[1..] == t[1..];
    match (a, b)
    case (Integer(m), Integer(n)) => SignedDigitsInjective(m, n, 10);
    case (Float(m), Float(n)) => DigitsInjective(m, n, 16);
    case (Float(m), Boolean(_)) => ValueOfDigits(m, 16);
    case (Boolean(_), Float(n)) => ValueOfDigits(n, 16);
    case (Text(m), Text(n)) => HexInjective(m, n);
    case (Blob(m), Blob(n)) => HexInjective(m, n);
    case _ =>
  }

  // ----- rows -----

  function EncodeCells(cells: seq<Cell>): (encoded: seq<string>)
    ensures |encoded| == |cells| && forall i | 0 <= i < |cells| :: encoded[i] == CanonicalCell(cells[i])
  {
    seq(|cells|, i requires 0 <= i < |cells| => CanonicalCell(cells[i]))
  }

  /** The first n columns' cells that are number `ordinal` of the primary key. */
  function PartsAt(info: seq<Column>, encoded: seq<string>, ordinal: nat, n: nat): seq<string>
    requires n <= |info| == |encoded|
  {
    if n == 0 then []
    else PartsAt(info, encoded, ordinal, n - 1) + if info[n - 1].pk == ordinal then [encoded[n - 1]] else []
  }

  /** The primary-key cells in key order, up to number k. */
  function KeyParts(info: seq<Column>, encoded: seq<string>, k: nat): seq<string>
    requires |info| == |encoded|
  {
    if k == 0 then [] else KeyParts(info, encoded, k - 1) + PartsAt(info, encoded, k, |info|)
  }

  function IdentityParts(name: string, info: seq<Column>, encoded: seq<string>): seq<string>
    requires |info| == |encoded|
  {
    var parts := if name == SEQUENCE_TABLE && encoded != [] then [encoded[0]] else KeyParts(info, encoded, |info|);
    if parts == [] then [EncodeFields(encoded)] else parts
  }

  function CanonicalRow(name: string, info: seq<Column>, cells: seq<Cell>): Row
    requires |info| == |cells|
  {
    var encoded := EncodeCells(cells);
    Row(EncodeFields(IdentityParts(name, info, encoded)), EncodeFields(encoded))
  }

  lemma CellsAreSized(cells: seq<Cell>)
    requires forall c | c in cells :: CellSize(c) < UINT64_LIMIT
    ensures Sized(EncodeCells(cells))
  {
    forall f | f in EncodeCells(cells) ensures |f| < UINT64_LIMIT {
      var i :| 0 <= i < |cells| && EncodeCells(cells)[i] == f;
      CellSizeIsLength(cells[i]);
    }
  }

  /** Two rows have the same canonical value exactly when all their cells are equal. */
  lemma RowValueInjective(name: string, info: seq<Column>, a: seq<Cell>, b: seq<Cell>)
    requires |info| == |a| == |b|
    requires forall c | c in a || c in b :: CellSize(c) < UINT64_LIMIT
    ensures CanonicalRow(name, info, a).value == CanonicalRow(name, info, b).value <==> a == b
  {
    if CanonicalRow(name, info, a).value == CanonicalRow(name, info, b).value {
      CellsAreSized(a);
      CellsAreSized(b);
      EncodeFieldsInjective(EncodeCells(a), EncodeCells(b));
      forall i | 0 <= i < |a| ensures a[i] == b[i] {
        assert EncodeCells(a)[i] == EncodeCells(b)[i];
        CellInjective(a[i], b[i]);
      }
    }
  }

  // ----- identities -----

  lemma {:induction false} SameParts(info: seq<Column>, ea: seq<string>, eb: seq<string>, ordinal: nat, n: nat)
    requires n <= |info| == |ea| == |eb|
    ensures |PartsAt(info, ea, ordinal, n)| == |PartsAt(info, eb, ordinal, n)|
    ensures PartsAt(info, ea, ordinal, n) == PartsAt(info, eb, ordinal, n)
       <==> forall i | 0 <= i < n && info[i].pk == ordinal :: ea[i] == eb[i]
  {
    if n > 0 {
      SameParts(info, ea, eb, ordinal, n - 1);
      SameAppended(PartsAt(info, ea, ordinal, n - 1), PartsAt(info, eb, ordinal, n - 1), [ea[n - 1]], [eb[n - 1]]);
      assert PartsAt(info, ea, ordinal, n - 1) + [] == PartsAt(info, ea, ordinal, n - 1);
      assert PartsAt(info, eb, ordinal, n - 1) + [] == PartsAt(info, eb, ordinal, n - 1);
    }
  }

  lemma SameAppended<T>(a: seq<T>, b: seq<T>, x: seq<T>, y: seq<T>)
    requires |a| == |b|
    ensures a + x == b + y <==> a == b && x == y
  {
    if a + x == b + y {
      assert (a + x)[..|a|] == a && (b + y)[..|b|] == b;
      assert (a + x)[|a|..] == x && (b + y)[|b|..] == y;
    }
  }

  /** Two key-part lists agree exactly when all their key cells do. */
  lemma {:induction false} SameKeyParts(info: seq<Column>, ea: seq<string>, eb: seq<string>, k: nat)
    requires |info| == |ea| == |eb|
    ensures |KeyParts(info, ea, k)| == |KeyParts(info, eb, k)|
    ensures KeyParts(info, ea, k) == KeyParts(info, eb, k)
       <==> forall i | 0 <= i < |info| && 0 < info[i].pk <= k :: ea[i] == eb[i]
    ensures (exists i :: 0 <= i < |info| && 0 < info[i].pk <= k) ==> KeyParts(info, ea, k) != []
  {
    if k > 0 {
      SameKeyParts(info, ea, eb, k - 1);
      SameParts(info, ea, eb, k, |info|);
      SomeParts(info, ea, k, |info|);
      SameAppended(KeyParts(info, ea, k - 1), KeyParts(info, eb, k - 1),
                   PartsAt(info, ea, k, |info|), PartsAt(info, eb, k, |info|));
    }
  }

  lemma {:induction false} SomeParts(info: seq<Column>, encoded: seq<string>, ordinal: nat, n: nat)
    requires n <= |info| == |encoded|
    ensures PartsAt(info, encoded, ordinal, n) == [] <==> forall i | 0 <= i < n :: info[i].pk != ordinal
  {
    if n > 0 {
      SomeParts(info, encoded, ordinal, n - 1);
    }
  }

  lemma {:induction false} KeyPartsSized(info: seq<Column>, encoded: seq<string>, k: nat)
    requires |info| == |encoded| && Sized(encoded)
    ensures Sized(KeyParts(info, encoded, k))
  {
    if k > 0 {
      KeyPartsSized(info, encoded, k - 1);
      PartsSized(info, encoded, k, |info|);
    }
  }

  lemma {:induction false} PartsSized(info: seq<Column>, encoded: seq<string>, ordinal: nat, n: nat)
    requires n <= |info| == |encoded| && Sized(encoded)
    ensures Sized(PartsAt(info, encoded, ordinal, n))
  {
    if n > 0 {
      PartsSized(info, encoded, ordinal, n - 1);
    }
  }

  lemma CellTextEqual(a: seq<Cell>, b: seq<Cell>, i: nat)
    requires i < |a| == |b|
    ensures EncodeCells(a)[i] == EncodeCells(b)[i] <==> a[i] == b[i]
  {
    if EncodeCells(a)[i] == EncodeCells(b)[i] {
      CellInjective(a[i], b[i]);
    }
  }

  /** In a table with a primary key, two rows have the same identity exactly when their key
      cells are equal, whatever the order of the key columns. */
  lemma RowIdentityInjective(name: string, info: seq<Column>, a: seq<Cell>, b: seq<Cell>)
    requires |info| == |a| == |b| && KeyNumbersOk(info) && HasKey(info) && name != SEQUENCE_TABLE
    requires forall c | c in a || c in b :: CellSize(c) < UINT64_LIMIT
    ensures CanonicalRow(name, info, a).identity == CanonicalRow(name, info, b).identity
       <==> forall i | 0 <= i < |info| && info[i].pk > 0 :: a[i] == b[i]
  {
    var ea, eb, k := EncodeCells(a), EncodeCells(b), |info|;
    CellsAreSized(a);
    CellsAreSized(b);
    SameKeyParts(info, ea, eb, k);
    SameKeyParts(info, eb, ea, k);
    KeyPartsSized(info, ea, k);
    KeyPartsSized(info, eb, k);
    var col :| col in info && col.pk > 0;
    var at :| 0 <= at < |info| && info[at] == col;
    assert 0 < info[at].pk <= k;
    KeyCellsEqual(info, a, b);
    if EncodeFields(KeyParts(info, ea, k)) == EncodeFields(KeyParts(info, eb, k)) {
      EncodeFieldsInjective(KeyParts(info, ea, k), KeyParts(info, eb, k));
    }
  }

  lemma KeyCellsEqual(info: seq<Column>, a: seq<Cell>, b: seq<Cell>)
    requires |info| == |a| == |b| && KeyNumbersOk(info)
    ensures (forall i | 0 <= i < |info| && 0 < info[i].pk <= |info| :: EncodeCells(a)[i] == EncodeCells(b)[i])
       <==> (forall i | 0 <= i < |info| && info[i].pk > 0 :: a[i] == b[i])
  {
    forall i | 0 <= i < |info| ensures EncodeCells(a)[i] == EncodeCells(b)[i] <==> a[i] == b[i] {
      CellTextEqual(a, b, i);
    }
    forall i | 0 <= i < |info| ensures info[i].pk <= |info| {
      assert info[i] in info;
    }
  }

  // ----- sizes -----

  function ValueBytes(cells: seq<Cell>): nat {
    if cells == [] then 0 else ValueBytes(cells[..|cells| - 1]) + 16 + CellSize(cells[|cells| - 1])
  }

  function CellSizes(cells: seq<Cell>): (sizes: seq<nat>)
    ensures |sizes| == |cells| && forall i | 0 <= i < |cells| :: sizes[i] == CellSize(cells[i])
  {
    seq(|cells|, i requires 0 <= i < |cells| => CellSize(cells[i]))
  }

  /** The bytes of the first n cells that belong to the primary key, up to number k of it. */
  function KeyBytes(info: seq<Column>, sizes: seq<nat>, k: nat, n: nat): nat
    requires n <= |info| == |sizes|
  {
    if n == 0 then 0
    else KeyBytes(info, sizes, k, n - 1) + if 0 < info[n - 1].pk <= k then 16 + sizes[n - 1] else 0
  }

  /** SQLite numbers the columns of a primary key from 1 and leaves the others at 0. */
  predicate KeyNumbersOk(info: seq<Column>) {
    forall col | col in info :: col.pk <= |info|
  }

  predicate HasKey(info: seq<Column>) {
    exists col | col in info :: col.pk > 0
  }

  /** What snapshotTable reserves for one row. */
  function RowBytes(name: string, info: seq<Column>, cells: seq<Cell>): nat
    requires |info| == |cells|
  {
    var valueBytes := ValueBytes(cells);
    valueBytes +
    if name == SEQUENCE_TABLE && cells != [] then 16 + CellSize(cells[0])
    else if !HasKey(info) then 16 + valueBytes
    else KeyBytes(info, CellSizes(cells), |info|, |info|)
  }

  function RowsBytes(name: string, info: seq<Column>, rows: seq<seq<Cell>>): nat
    requires forall row | row in rows :: |row| == |info|
  {
    if rows == [] then 0
    else
      assert rows[|rows| - 1] in rows;
      RowsBytes(name, info, rows[..|rows| - 1]) + RowBytes(name, info, rows[|rows| - 1])
  }

  function NameBytes(info: seq<Column>): nat {
    if info == [] then 0 else NameBytes(info[..|info| - 1]) + |info[|info| - 1].name|
  }

  /** The bytes a finished snapshot keeps. */
  function RetainedRows(rows: seq<Row>): nat {
    if rows == [] then 0 else |rows[0].identity| + |rows[0].value| + RetainedRows(rows[1..])
  }

  function Retained(table: Table): nat {
    |table.name| + TotalLength(table.columns) + RetainedRows(table.rows)
  }

  function TotalLength(texts: seq<string>): nat {
    if texts == [] then 0 else TotalLength(texts[..|texts| - 1]) + |texts[|texts| - 1]|
  }

  lemma OneField(f: string)
    ensures |EncodeFields([f])| == 16 + |f|
  {
    assert [f][1..] == [];
    assert EncodeFields([f]) == Frame(HexHeader, f) + EncodeFields([]);
  }

  lemma EncodedLength(a: seq<string>, b: seq<string>)
    ensures |EncodeFields(a + b)| == |EncodeFields(a)| + |EncodeFields(b)|
  {
    EncodeFieldsConcat(a, b);
  }

  lemma OneMoreField(a: seq<string>, cell: Cell)
    ensures |EncodeFields(a + [CanonicalCell(cell)])| == |EncodeFields(a)| + 16 + CellSize(cell)
  {
    EncodedLength(a, [CanonicalCell(cell)]);
    OneField(CanonicalCell(cell));
    CellSizeIsLength(cell);
  }

  lemma {:induction false} ValueBytesIsLength(cells: seq<Cell>)
    ensures ValueBytes(cells) == |EncodeFields(EncodeCells(cells))|
    decreases |cells|
  {
    assert ValueBytes([]) == |EncodeFields(EncodeCells([]))|;
    hide CanonicalCell, CellSize, EncodeFields;
    if cells != [] {
      var init, last := cells[..|cells| - 1], cells[|cells| - 1];
      ValueBytesIsLength(init);
      assert EncodeCells(cells) == EncodeCells(init) + [CanonicalCell(last)];
      OneMoreField(EncodeCells(init), last);
    }
  }

  ghost predicate SizesOf(sizes: seq<nat>, encoded: seq<string>) {
    |sizes| == |encoded| && forall i | 0 <= i < |sizes| :: sizes[i] == |encoded[i]|
  }

  lemma CellSizesAreExact(cells: seq<Cell>)
    ensures SizesOf(CellSizes(cells), EncodeCells(cells))
  {
    forall i | 0 <= i < |cells| ensures CellSizes(cells)[i] == |EncodeCells(cells)[i]| {
      CellSizeIsLength(cells[i]);
    }
  }

  /** One more key number adds exactly the columns that carry it. */
  lemma {:induction false} KeyBytesStep(info: seq<Column>, sizes: seq<nat>, encoded: seq<string>, k: nat, n: nat)
    requires n <= |info| == |sizes| && SizesOf(sizes, encoded)
    ensures KeyBytes(info, sizes, k + 1, n) == KeyBytes(info, sizes, k, n) + |EncodeFields(PartsAt(info, encoded, k + 1, n))|
  {
    if n > 0 {
      KeyBytesStep(info, sizes, encoded, k, n - 1);
      var before := PartsAt(info, encoded, k + 1, n - 1);
      EncodedLength(before, [encoded[n - 1]]);
      OneField(encoded[n - 1]);
      assert before + [] == before;
    }
  }

  lemma {:induction false} KeyBytesIsLength(info: seq<Column>, sizes: seq<nat>, encoded: seq<string>, k: nat)
    requires |info| == |sizes| && SizesOf(sizes, encoded)
    ensures KeyBytes(info, sizes, k, |info|) == |EncodeFields(KeyParts(info, encoded, k))|
  {
    if k == 0 {
      NoKeyBytes(info, sizes, |info|);
    } else {
      KeyBytesIsLength(info, sizes, encoded, k - 1);
      KeyBytesStep(info, sizes, encoded, k - 1, |info|);
      EncodedLength(KeyParts(info, encoded, k - 1), PartsAt(info, encoded, k, |info|));
    }
  }

  lemma {:induction false} NoKeyBytes(info: seq<Column>, sizes: seq<nat>, n: nat)
    requires n <= |info| == |sizes|
    ensures KeyBytes(info, sizes, 0, n) == 0
  {
    if n > 0 {
      NoKeyBytes(info, sizes, n - 1);
    }
  }

  lemma {:induction false} KeyBytesPositive(info: seq<Column>, sizes: seq<nat>, k: nat, n: nat)
    requires n <= |info| == |sizes|
    ensures KeyBytes(info, sizes, k, n) > 0 <==> exists i :: 0 <= i < n && 0 < info[i].pk <= k
  {
    if n > 0 {
      KeyBytesPositive(info, sizes, k, n - 1);
    }
  }

  lemma FieldsTakeRoom(fields: seq<string>)
    ensures fields == [] <==> |EncodeFields(fields)| == 0
  {
    if fields != [] {
      assert |Frame(HexHeader, fields[0])| >= 16;
    }
  }

  /** The reservation of a row is exactly what the row then occupies. */
  lemma RowBytesIsExact(name: string, info: seq<Column>, cells: seq<Cell>)
    requires |info| == |cells| && info != [] && KeyNumbersOk(info)
    ensures RowBytes(name, info, cells)
         == |CanonicalRow(name, info, cells).identity| + |CanonicalRow(name, info, cells).value|
  {
    var encoded := EncodeCells(cells);
    ValueBytesIsLength(cells);
    if name == SEQUENCE_TABLE {
      CellSizeIsLength(cells[0]);
      OneField(encoded[0]);
    } else {
      CellSizesAreExact(cells);
      KeyBytesIsLength(info, CellSizes(cells), encoded, |info|);
      KeyBytesPositive(info, CellSizes(cells), |info|, |info|);
      assert HasKey(info) <==> exists i :: 0 <= i < |info| && 0 < info[i].pk <= |info|;
      FieldsTakeRoom(KeyParts(info, encoded, |info|));
      OneField(EncodeFields(encoded));
    }
  }
}
