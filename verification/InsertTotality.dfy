/** What every accepted text yields, whatever it looks like. */
module InsertTotality {
  import opened Schema
  import opened Text
  import opened InsertSyntax

  /** The cells of a tuple laid over a row at the listed columns, left to right. */
  function Place(row: Row, listed: seq<nat>, cells: seq<Cell>): (r: Row)
    requires |listed| == |cells| && forall j :: 0 <= j < |listed| ==> listed[j] < |row|
    ensures |r| == |row|
    decreases |listed|
  {
    if listed == [] then row else Place(row[listed[0] := cells[0]], listed[1..], cells[1..])
  }

  /** An unlisted column keeps what it had; a listed one takes its last listing. */
  lemma {:induction false} PlaceMeans(row: Row, listed: seq<nat>, cells: seq<Cell>, c: nat)
    requires |listed| == |cells| && forall j :: 0 <= j < |listed| ==> listed[j] < |row|
    requires c < |row|
    ensures c !in listed ==> Place(row, listed, cells)[c] == row[c]
    ensures forall j :: 0 <= j < |listed| && listed[j] == c && c !in listed[j + 1..] ==>
              Place(row, listed, cells)[c] == cells[j]
    decreases |listed|
  {
    if listed != [] {
      var rest := listed[1..];
      PlaceMeans(row[listed[0] := cells[0]], rest, cells[1..], c);
      assert c in listed <==> c == listed[0] || c in rest;
      forall j | 0 <= j < |listed| && listed[j] == c && c !in listed[j + 1..]
        ensures Place(row, listed, cells)[c] == cells[j]
      {
        if j > 0 { assert rest[j - 1] == c && rest[j..] == listed[j + 1..]; } else { assert rest == listed[1..]; }
      }
    }
  }

  predicate StorableCell(cell: Cell) {
    cell.Text? ==> |cell.text| < MAX_VALUE && Trimmed(cell.text) && cell.text != "NULL"
  }

  /** A tuple that is accepted has one value per listed column, and its row is those values laid
      over NULLs. */
  lemma {:induction false} TupleMeans(listed: seq<nat>, text: string, k: nat, row: Row) returns (cells: seq<Cell>)
    requires k <= |listed| && forall j :: 0 <= j < |listed| ==> listed[j] < |row|
    requires Tuple(listed, text, k, row).Ok?
    ensures |cells| == |listed| - k
    ensures Tuple(listed, text, k, row).value.value == Place(row, listed[k..], cells)
    ensures forall i :: 0 <= i < |cells| ==> StorableCell(cells[i])
    decreases |text|
  {
    if text[0] == ')' {
      cells := [];
    } else {
      var v := Value(text);
      var placed := row[listed[k] := v.value];
      var s := SkipWs(v.rest);
      assert listed[k..][0] == listed[k] && listed[k..][1..] == listed[k + 1..];
      if s[0] == ',' {
        var tail := TupleMeans(listed, s[1..], k + 1, placed);
        cells := [v.value] + tail;
        assert cells[1..] == tail;
      } else {
        cells := [v.value];
        assert Place(placed, [], []) == placed;
      }
    }
  }

  predicate StorableRow(ts: seq<Table>, ir: InsertRow) {
    && ir.table < |ts|
    && |ir.row| == |ts[ir.table].columns|
    && forall c :: 0 <= c < |ir.row| ==> StorableCell(ir.row[c])
  }

  predicate StorableBatch(ts: seq<Table>, batch: seq<InsertRow>) {
    |batch| <= MAX_BATCH_ROWS && forall i :: 0 <= i < |batch| ==> StorableRow(ts, batch[i])
  }

  lemma {:induction false} PlacedStorable(row: Row, listed: seq<nat>, cells: seq<Cell>)
    requires |listed| == |cells| && forall j :: 0 <= j < |listed| ==> listed[j] < |row|
    requires forall c :: 0 <= c < |row| ==> StorableCell(row[c])
    requires forall i :: 0 <= i < |cells| ==> StorableCell(cells[i])
    ensures forall c :: 0 <= c < |row| ==> StorableCell(Place(row, listed, cells)[c])
    decreases |listed|
  {
    if listed != [] { PlacedStorable(row[listed[0] := cells[0]], listed[1..], cells[1..]); }
  }

  lemma {:induction false} TuplesStorable(ts: seq<Table>, t: nat, listed: seq<nat>, text: string, batch: seq<InsertRow>)
    requires Shape(ts) && t < |ts| && MapFor(listed, |ts[t].columns|) && StorableBatch(ts, batch)
    ensures var r := Tuples(t, |ts[t].columns|, listed, text, batch);
            r.Ok? ==> StorableBatch(ts, r.value)
    decreases |text|
  {
    var width := |ts[t].columns|;
    var s := SkipWs(text);
    if s != "" {
      if s[0] == ',' {
        TuplesStorable(ts, t, listed, s[1..], batch);
      } else if s[0] == '(' && |batch| < MAX_BATCH_ROWS && Tuple(listed, s[1..], 0, NullRow(width)).Ok? {
        var p := Tuple(listed, s[1..], 0, NullRow(width)).value;
        var cells := TupleMeans(listed, s[1..], 0, NullRow(width));
        assert listed[0..] == listed;
        PlacedStorable(NullRow(width), listed, cells);
        TuplesStorable(ts, t, listed, p.rest, batch + [InsertRow(t, p.value)]);
      }
    }
  }

  predicate StorableResult(ts: seq<Table>, r: Result<seq<InsertRow>>) {
    r.Ok? ==> StorableBatch(ts, r.value)
  }

  lemma RowsStorable(ts: seq<Table>, t: nat, listed: seq<nat>, text: string, batch: seq<InsertRow>)
    requires Shape(ts) && t < |ts| && MapFor(listed, |ts[t].columns|) && StorableBatch(ts, batch)
    ensures StorableResult(ts, Rows(t, |ts[t].columns|, listed, text, batch))
  {
    var v := FindCI(text, "values");
    if v != "" {
      StartsCILength(v, "values");
      TuplesStorable(ts, t, listed, v[6..], batch);
    }
  }

  lemma TableStorable(ts: seq<Table>, t: nat, s: string, batch: seq<InsertRow>)
    requires Shape(ts) && t < |ts| && StorableBatch(ts, batch)
    ensures StorableResult(ts, AfterTable(ts, t, s, batch))
  {
    hide Rows, ColumnList;
    var cols := ts[t].columns;
    if s != "" && s[0] == '(' {
      var list := ColumnList(cols, s[1..], []);
      if list.Ok? { RowsStorable(ts, t, list.value.value, list.value.rest, batch); }
    } else {
      RowsStorable(ts, t, AllColumns(|cols|), s, batch);
    }
  }

  lemma StatementStorable(ts: seq<Table>, stmt: string, batch: seq<InsertRow>)
    requires Shape(ts) && StorableBatch(ts, batch)
    ensures StorableResult(ts, Statement(ts, stmt, batch))
  {
    hide AfterTable, StartsCI, Identifier, SkipWs;
    var s := SkipWs(stmt);
    if s != "" && StartsCI(s, "insert") {
      StartsCILength(s, "insert");
      var after := SkipWs(s[6..]);
      if StartsCI(after, "into") {
        StartsCILength(after, "into");
        var name := Identifier(after[4..]);
        if name.Some? && TableIndex(ts, name.value.value) >= 0 {
          TableStorable(ts, TableIndex(ts, name.value.value), SkipWs(name.value.rest), batch);
        }
      }
    }
  }

  lemma {:induction false} StatementsStorable(ts: seq<Table>, slices: seq<string>, batch: seq<InsertRow>)
    requires Shape(ts) && StorableBatch(ts, batch)
    ensures StorableResult(ts, Statements(ts, slices, batch))
    decreases |slices|
  {
    if slices != [] && |slices[0]| < MAX_STATEMENT {
      StatementStorable(ts, Trim(slices[0]), batch);
      var r := Statement(ts, Trim(slices[0]), batch);
      if r.Ok? { StatementsStorable(ts, slices[1..], r.value); }
    }
  }

  /** For every text: an accepted batch holds 1 to 256 rows, each for an existing table, as wide as
      that table, with values that fit their buffer. */
  lemma AcceptedBatch(ts: seq<Table>, sql: string)
    requires Shape(ts)
    ensures var r := Batch(ts, sql);
            r.Ok? ==> 1 <= |r.value| <= MAX_BATCH_ROWS && StorableBatch(ts, r.value) && BatchFor(ts, r.value)
  {
    StatementsStorable(ts, Split(sql), []);
  }

  /** Nothing can be inserted while no table is loaded. */
  lemma NoTablesNoBatch(sql: string)
    ensures Batch([], sql).Err?
  {
    NoTablesNoStatements(Split(sql));
  }

  lemma {:induction false} NoTablesNoStatements(slices: seq<string>)
    ensures var r := Statements([], slices, []); r.Ok? ==> r.value == []
    decreases |slices|
  {
    if slices != [] { NoTablesNoStatements(slices[1..]); }
  }
}
