/** The relational store's data: an ER schema and the rows accepted for each table.

    A `Row` is the list of a table's cells in column order. The C code keeps a text buffer and an
    `is_null` flag for every column; a NULL column always has the empty text, so one `Cell` carries
    the same information. */
module Schema {
  const MAX_TABLES: nat := 32
  const MAX_COLUMNS: nat := 32
  const MAX_ROWS: nat := 1024
  const MAX_NAME: nat := 64
  const MAX_TYPE: nat := 64
  const MAX_VALUE: nat := 128
  const MAX_BATCH_ROWS: nat := 256

  datatype Option<+T> = None | Some(value: T)

  datatype Column = Column(
    name: string,
    typ: string,
    primaryKey: bool,
    unique: bool,
    notNull: bool,
    refTable: string,
    refColumn: string)
  {
    predicate Required() { notNull || primaryKey }
    predicate Distinct() { primaryKey || unique }
    predicate IsReference() { refTable != "" }
  }

  datatype Cell = Null | Text(text: string)

  type Row = seq<Cell>

  datatype Table = Table(name: string, columns: seq<Column>, rows: seq<Row>)

  /** One row waiting to be inserted, and the index of its table. */
  datatype InsertRow = InsertRow(table: nat, row: Row)

  /** The first table of that name, or -1. */
  function TableIndex(ts: seq<Table>, name: string): (r: int)
    ensures -1 <= r < |ts|
    ensures r >= 0 ==> ts[r].name == name
    ensures forall i :: 0 <= i < (if r >= 0 then r else |ts|) ==> ts[i].name != name
  {
    if ts == [] then -1
    else if ts[0].name == name then 0
    else
      var r := TableIndex(ts[1..], name);
      if r < 0 then -1 else r + 1
  }

  /** The first column of that name, or -1. */
  function ColumnIndex(cols: seq<Column>, name: string): (r: int)
    ensures -1 <= r < |cols|
    ensures r >= 0 ==> cols[r].name == name
    ensures forall i :: 0 <= i < (if r >= 0 then r else |cols|) ==> cols[i].name != name
  {
    if cols == [] then -1
    else if cols[0].name == name then 0
    else
      var r := ColumnIndex(cols[1..], name);
      if r < 0 then -1 else r + 1
  }

  lemma SameTableIndex(ts: seq<Table>, us: seq<Table>, name: string)
    requires |ts| == |us| && forall t :: 0 <= t < |ts| ==> us[t].name == ts[t].name
    ensures TableIndex(ts, name) == TableIndex(us, name)
  {
    var a, b := TableIndex(ts, name), TableIndex(us, name);
    if a >= 0 { assert us[a].name == name; }
    if b >= 0 { assert ts[b].name == name; }
  }

  lemma SameColumnIndex(cols: seq<Column>, dols: seq<Column>, name: string)
    requires |cols| == |dols| && forall c :: 0 <= c < |cols| ==> dols[c].name == cols[c].name
    ensures ColumnIndex(cols, name) == ColumnIndex(dols, name)
  {
    var a, b := ColumnIndex(cols, name), ColumnIndex(dols, name);
    if a >= 0 { assert dols[a].name == name; }
    if b >= 0 { assert cols[b].name == name; }
  }

  method FindTable(ts: seq<Table>, name: string) returns (r: int)
    ensures r == TableIndex(ts, name)
  {
    for i := 0 to |ts|
      invariant forall k :: 0 <= k < i ==> ts[k].name != name
    {
      if ts[i].name == name { return i; }
    }
    return -1;
  }

  method FindColumn(cols: seq<Column>, name: string) returns (r: int)
    ensures r == ColumnIndex(cols, name)
  {
    for i := 0 to |cols|
      invariant forall k :: 0 <= k < i ==> cols[k].name != name
    {
      if cols[i].name == name { return i; }
    }
    return -1;
  }

  /** What every schema keeps: the fixed capacities, and rows as wide as their table. */
  predicate TableShape(t: Table) {
    && 1 <= |t.columns| <= MAX_COLUMNS
    && |t.rows| <= MAX_ROWS
    && forall r :: 0 <= r < |t.rows| ==> |t.rows[r]| == |t.columns|
  }

  predicate Shape(ts: seq<Table>) {
    && |ts| <= MAX_TABLES
    && forall t :: 0 <= t < |ts| ==> TableShape(ts[t])
  }

  predicate RowFor(ts: seq<Table>, ir: InsertRow) {
    ir.table < |ts| && |ir.row| == |ts[ir.table].columns|
  }

  predicate BatchFor(ts: seq<Table>, batch: seq<InsertRow>) {
    forall i :: 0 <= i < |batch| ==> RowFor(ts, batch[i])
  }

  /** `table->rows[table->row_count++] = row`. */
  function Append(ts: seq<Table>, ir: InsertRow): (r: seq<Table>)
    requires ir.table < |ts|
    ensures |r| == |ts|
  {
    ts[ir.table := ts[ir.table].(rows := ts[ir.table].rows + [ir.row])]
  }

  /** The tables after a whole batch is appended in order. */
  function AppendAll(ts: seq<Table>, batch: seq<InsertRow>): (r: seq<Table>)
    requires BatchFor(ts, batch)
    ensures |r| == |ts|
    ensures forall t :: 0 <= t < |ts| ==> r[t].name == ts[t].name && r[t].columns == ts[t].columns
    ensures forall t :: 0 <= t < |ts| ==> |r[t].rows| == |ts[t].rows| + CountFor(batch, t)
    decreases |batch|
  {
    if batch == [] then ts
    else
      var init := batch[..|batch| - 1];
      Append(AppendAll(ts, init), batch[|batch| - 1])
  }

  /** How many rows of a batch go to table `t`. */
  function CountFor(batch: seq<InsertRow>, t: nat): nat {
    if batch == [] then 0
    else CountFor(batch[..|batch| - 1], t) + (if batch[|batch| - 1].table == t then 1 else 0)
  }

  /** No table receives more rows than its array still has room for. */
  predicate Fits(ts: seq<Table>, batch: seq<InsertRow>) {
    forall t :: 0 <= t < |ts| && CountFor(batch, t) > 0 ==> |ts[t].rows| + CountFor(batch, t) <= MAX_ROWS
  }
}
