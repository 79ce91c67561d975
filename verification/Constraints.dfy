/** Validation of an INSERT batch against the schema, the stored rows and the earlier rows of the
    same batch; the theorem that it is row-at-a-time insertion; and the integrity it protects. */
module Constraints {
  import opened Schema

  datatype Violation =
    | TableFull(table: nat)
    | NullValue(table: nat, column: nat)
    | DuplicateValue(table: nat, column: nat)
    | NoReferencedTable(table: nat, column: nat)
    | NoReferencedColumn(table: nat, column: nat)
    | DanglingReference(table: nat, column: nat)

  predicate Holds(row: Row, c: nat, v: string) {
    c < |row| && row[c] == Text(v)
  }

  predicate InTable(t: Table, c: nat, v: string) {
    exists r :: 0 <= r < |t.rows| && Holds(t.rows[r], c, v)
  }

  predicate InBatch(batch: seq<InsertRow>, t: nat, c: nat, v: string) {
    exists i :: 0 <= i < |batch| && batch[i].table == t && Holds(batch[i].row, c, v)
  }

  /** The value is stored in column `c` of table `t`, or an earlier row of the batch brings it. */
  predicate Known(ts: seq<Table>, earlier: seq<InsertRow>, t: nat, c: nat, v: string)
    requires t < |ts|
  {
    InTable(ts[t], c, v) || InBatch(earlier, t, c, v)
  }

  /** The first rule that `cell` breaks in column `c` of table `t`, in the order the code tests them. */
  function ColumnViolation(ts: seq<Table>, earlier: seq<InsertRow>, t: nat, c: nat, cell: Cell): Option<Violation>
    requires t < |ts| && c < |ts[t].columns|
  {
    var col := ts[t].columns[c];
    if cell.Null? then
      if col.Required() then Some(NullValue(t, c)) else None
    else if col.Distinct() && Known(ts, earlier, t, c, cell.text) then Some(DuplicateValue(t, c))
    else if !col.IsReference() then None
    else
      var rt := TableIndex(ts, col.refTable);
      if rt < 0 then Some(NoReferencedTable(t, c))
      else
        var rc := ColumnIndex(ts[rt].columns, col.refColumn);
        if rc < 0 then Some(NoReferencedColumn(t, c))
        else if Known(ts, earlier, rt, rc, cell.text) then None
        else Some(DanglingReference(t, c))
  }

  function ColumnsViolation(ts: seq<Table>, earlier: seq<InsertRow>, ir: InsertRow, c: nat): Option<Violation>
    requires RowFor(ts, ir) && c <= |ir.row|
    decreases |ir.row| - c
  {
    if c == |ir.row| then None
    else
      var v := ColumnViolation(ts, earlier, ir.table, c, ir.row[c]);
      if v.Some? then v else ColumnsViolation(ts, earlier, ir, c + 1)
  }

  /** The first rule broken by one row. The capacity test looks at the stored rows only. */
  function RowViolation(ts: seq<Table>, earlier: seq<InsertRow>, ir: InsertRow): Option<Violation>
    requires RowFor(ts, ir)
  {
    if |ts[ir.table].rows| >= MAX_ROWS then Some(TableFull(ir.table))
    else ColumnsViolation(ts, earlier, ir, 0)
  }

  /** The first rule broken by rows `i..` of a batch, each judged with the rows before it. */
  function BatchViolation(ts: seq<Table>, batch: seq<InsertRow>, i: nat): Option<Violation>
    requires BatchFor(ts, batch) && i <= |batch|
    decreases |batch| - i
  {
    if i == |batch| then None
    else
      var v := RowViolation(ts, batch[..i], batch[i]);
      if v.Some? then v else BatchViolation(ts, batch, i + 1)
  }

  // ---- The loops of the C code ----

  method ValueExists(ts: seq<Table>, batch: seq<InsertRow>, upto: nat, t: nat, c: nat, value: string)
    returns (found: bool)
    requires t < |ts| && upto <= |batch|
    ensures found <==> Known(ts, batch[..upto], t, c, value)
  {
    var table := ts[t];
    for r := 0 to |table.rows|
      invariant forall k :: 0 <= k < r ==> !Holds(table.rows[k], c, value)
    {
      if c < |table.rows[r]| && table.rows[r][c] == Text(value) {
        assert Holds(table.rows[r], c, value);
        return true;
      }
    }
    for i := 0 to upto
      invariant forall k :: 0 <= k < i ==> !(batch[k].table == t && Holds(batch[k].row, c, value))
    {
      if batch[i].table == t && c < |batch[i].row| && batch[i].row[c] == Text(value) {
        assert batch[..upto][i] == batch[i] && Holds(batch[i].row, c, value);
        return true;
      }
    }
    return false;
  }

  /** The nested loops over rows and columns, stopping at the first broken rule. */
  method ValidateBatchRows(ts: seq<Table>, batch: seq<InsertRow>) returns (v: Option<Violation>)
    requires BatchFor(ts, batch)
    ensures v == BatchViolation(ts, batch, 0)
  {
    for i := 0 to |batch|
      invariant BatchViolation(ts, batch, 0) == BatchViolation(ts, batch, i)
    {
      var ir := batch[i];
      var table := ts[ir.table];
      if |table.rows| >= MAX_ROWS { return Some(TableFull(ir.table)); }
      for c := 0 to |table.columns|
        invariant RowViolation(ts, batch[..i], ir) == ColumnsViolation(ts, batch[..i], ir, c)
      {
        var col := table.columns[c];
        if col.Required() && ir.row[c].Null? { return Some(NullValue(ir.table, c)); }
        if col.Distinct() && ir.row[c].Text? {
          var duplicate := ValueExists(ts, batch, i, ir.table, c, ir.row[c].text);
          if duplicate { return Some(DuplicateValue(ir.table, c)); }
        }
        if col.IsReference() && ir.row[c].Text? {
          var rt := FindTable(ts, col.refTable);
          if rt < 0 { return Some(NoReferencedTable(ir.table, c)); }
          var rc := FindColumn(ts[rt].columns, col.refColumn);
          if rc < 0 { return Some(NoReferencedColumn(ir.table, c)); }
          var present := ValueExists(ts, batch, i, rt, rc, ir.row[c].text);
          if !present { return Some(DanglingReference(ir.table, c)); }
        }
      }
    }
    return None;
  }

  // ---- What acceptance of a row means ----

  /** Cell `cell` satisfies every rule of column `c`, stated without an order of tests. */
  predicate CellSound(ts: seq<Table>, earlier: seq<InsertRow>, t: nat, c: nat, cell: Cell)
    requires t < |ts| && c < |ts[t].columns|
  {
    var col := ts[t].columns[c];
    && (col.notNull || col.primaryKey ==> cell.Text?)
    && (cell.Text? && (col.primaryKey || col.unique) ==> !Known(ts, earlier, t, c, cell.text))
    && (cell.Text? && col.refTable != "" ==> ReferenceResolved(ts, earlier, col, cell.text))
  }

  predicate ReferenceResolved(ts: seq<Table>, earlier: seq<InsertRow>, col: Column, v: string) {
    var rt := TableIndex(ts, col.refTable);
    rt >= 0 &&
    var rc := ColumnIndex(ts[rt].columns, col.refColumn);
    rc >= 0 && Known(ts, earlier, rt, rc, v)
  }

  lemma {:induction false} ColumnsAccepted(ts: seq<Table>, earlier: seq<InsertRow>, ir: InsertRow, c: nat)
    requires RowFor(ts, ir) && c <= |ir.row|
    ensures ColumnsViolation(ts, earlier, ir, c).None? <==>
            forall k :: c <= k < |ir.row| ==> CellSound(ts, earlier, ir.table, k, ir.row[k])
    decreases |ir.row| - c
  {
    if c < |ir.row| {
      ColumnsAccepted(ts, earlier, ir, c + 1);
      assert ColumnViolation(ts, earlier, ir.table, c, ir.row[c]).None? <==>
             CellSound(ts, earlier, ir.table, c, ir.row[c]);
    }
  }

  /** A row is accepted exactly when its table has room and every cell is sound. */
  lemma RowAccepted(ts: seq<Table>, earlier: seq<InsertRow>, ir: InsertRow)
    requires RowFor(ts, ir)
    ensures RowViolation(ts, earlier, ir).None? <==>
            && |ts[ir.table].rows| < MAX_ROWS
            && forall c :: 0 <= c < |ir.row| ==> CellSound(ts, earlier, ir.table, c, ir.row[c])
  {
    ColumnsAccepted(ts, earlier, ir, 0);
  }

  // ---- What a refusal says ----

  /** The cell breaks the rule that `v` names, and no rule that is tested before it. */
  predicate Breaks(ts: seq<Table>, earlier: seq<InsertRow>, t: nat, c: nat, cell: Cell, v: Violation)
    requires t < |ts| && c < |ts[t].columns|
  {
    var col := ts[t].columns[c];
    var repeated := cell.Text? && (col.primaryKey || col.unique) && Known(ts, earlier, t, c, cell.text);
    var refers := cell.Text? && !repeated && col.refTable != "";
    var rt := TableIndex(ts, col.refTable);
    match v
    case TableFull(_) => false
    case NullValue(t', c') => t' == t && c' == c && cell.Null? && (col.notNull || col.primaryKey)
    case DuplicateValue(t', c') => t' == t && c' == c && repeated
    case NoReferencedTable(t', c') => t' == t && c' == c && refers && rt < 0
    case NoReferencedColumn(t', c') =>
      t' == t && c' == c && refers && rt >= 0 && ColumnIndex(ts[rt].columns, col.refColumn) < 0
    case DanglingReference(t', c') =>
      t' == t && c' == c && refers && rt >= 0 &&
      var rc := ColumnIndex(ts[rt].columns, col.refColumn); rc >= 0 && !Known(ts, earlier, rt, rc, cell.text)
  }

  lemma ColumnBreaks(ts: seq<Table>, earlier: seq<InsertRow>, t: nat, c: nat, cell: Cell, v: Violation)
    requires t < |ts| && c < |ts[t].columns|
    ensures ColumnViolation(ts, earlier, t, c, cell) == Some(v) <==> Breaks(ts, earlier, t, c, cell, v)
  {
  }

  lemma {:induction false} ColumnsRefused(ts: seq<Table>, earlier: seq<InsertRow>, ir: InsertRow, from: nat, v: Violation)
    requires RowFor(ts, ir) && from <= |ir.row|
    ensures ColumnsViolation(ts, earlier, ir, from) == Some(v) <==>
            exists c :: from <= c < |ir.row| && Breaks(ts, earlier, ir.table, c, ir.row[c], v) &&
                        forall k :: from <= k < c ==> CellSound(ts, earlier, ir.table, k, ir.row[k])
    decreases |ir.row| - from
  {
    hide Breaks, ColumnViolation, CellSound;
    if from < |ir.row| {
      ColumnBreaks(ts, earlier, ir.table, from, ir.row[from], v);
      SoundOrBreaks(ts, earlier, ir.table, from, ir.row[from]);
      ColumnsRefused(ts, earlier, ir, from + 1, v);
      if Breaks(ts, earlier, ir.table, from, ir.row[from], v) {
        assert ColumnsViolation(ts, earlier, ir, from) == Some(v);
      }
    }
  }

  lemma SoundOrBreaks(ts: seq<Table>, earlier: seq<InsertRow>, t: nat, c: nat, cell: Cell)
    requires t < |ts| && c < |ts[t].columns|
    ensures ColumnViolation(ts, earlier, t, c, cell).None? <==> CellSound(ts, earlier, t, c, cell)
  {
  }

  /** A row is refused for its table being full, or else for the first column whose cell breaks a rule,
      with the first rule it breaks. */
  lemma RowRefused(ts: seq<Table>, earlier: seq<InsertRow>, ir: InsertRow, v: Violation)
    requires RowFor(ts, ir)
    ensures RowViolation(ts, earlier, ir) == Some(v) <==>
            if |ts[ir.table].rows| >= MAX_ROWS then v == TableFull(ir.table)
            else
              exists c :: 0 <= c < |ir.row| && Breaks(ts, earlier, ir.table, c, ir.row[c], v) &&
                          forall k :: 0 <= k < c ==> CellSound(ts, earlier, ir.table, k, ir.row[k])
  {
    hide Breaks, CellSound, ColumnsViolation;
    ColumnsRefused(ts, earlier, ir, 0, v);
  }

  /** A batch is refused for its first row that is refused, judged with the rows before it. */
  lemma {:induction false} BatchRefused(ts: seq<Table>, batch: seq<InsertRow>, from: nat, v: Violation)
    requires BatchFor(ts, batch) && from <= |batch|
    ensures BatchViolation(ts, batch, from) == Some(v) <==>
            exists i :: from <= i < |batch| && RowViolation(ts, batch[..i], batch[i]) == Some(v) &&
                        forall k :: from <= k < i ==> RowViolation(ts, batch[..k], batch[k]).None?
    decreases |batch| - from
  {
    hide RowViolation;
    if from < |batch| {
      BatchRefused(ts, batch, from + 1, v);
      if RowViolation(ts, batch[..from], batch[from]) == Some(v) {
        assert BatchViolation(ts, batch, from) == Some(v);
      }
    }
  }

  // ---- A batch is its rows inserted one at a time ----

  datatype Outcome = Accepted(tables: seq<Table>) | Refused(violation: Violation)

  /** Each row validated alone, against the tables left by the rows before it, and then stored. */
  function InsertOneByOne(ts: seq<Table>, batch: seq<InsertRow>): Outcome
    requires BatchFor(ts, batch)
    decreases |batch|
  {
    if batch == [] then Accepted(ts)
    else
      match RowViolation(ts, [], batch[0])
      case Some(v) => Refused(v)
      case None => InsertOneByOne(Append(ts, batch[0]), batch[1..])
  }

  lemma AppendedValue(ts: seq<Table>, ir: InsertRow, t: nat, c: nat, v: string)
    requires ir.table < |ts| && t < |ts|
    ensures InTable(Append(ts, ir)[t], c, v) <==> InTable(ts[t], c, v) || (ir.table == t && Holds(ir.row, c, v))
  {
    var before, after := ts[t].rows, Append(ts, ir)[t].rows;
    if ir.table == t {
      assert after == before + [ir.row];
      assert after[|before|] == ir.row;
      if InTable(ts[t], c, v) {
        var r :| 0 <= r < |before| && Holds(before[r], c, v);
        assert after[r] == before[r];
      }
    }
  }

  lemma PendingValue(done: seq<InsertRow>, last: InsertRow, t: nat, c: nat, v: string)
    ensures InBatch(done + [last], t, c, v) <==> InBatch(done, t, c, v) || (last.table == t && Holds(last.row, c, v))
  {
    var all := done + [last];
    assert all[|done|] == last;
    if InBatch(done, t, c, v) {
      var i :| 0 <= i < |done| && done[i].table == t && Holds(done[i].row, c, v);
      assert all[i] == done[i];
    }
  }

  lemma {:induction false} AppendedValues(ts: seq<Table>, done: seq<InsertRow>, t: nat, c: nat, v: string)
    requires BatchFor(ts, done) && t < |ts|
    ensures InTable(AppendAll(ts, done)[t], c, v) <==> Known(ts, done, t, c, v)
    decreases |done|
  {
    if done != [] {
      var init, last := done[..|done| - 1], done[|done| - 1];
      AppendedValues(ts, init, t, c, v);
      AppendedValue(AppendAll(ts, init), last, t, c, v);
      PendingValue(init, last, t, c, v);
      assert done == init + [last];
    }
  }

  lemma ColumnAfter(ts: seq<Table>, done: seq<InsertRow>, t: nat, c: nat, cell: Cell)
    requires BatchFor(ts, done) && t < |ts| && c < |ts[t].columns|
    ensures ColumnViolation(AppendAll(ts, done), [], t, c, cell) == ColumnViolation(ts, done, t, c, cell)
  {
    var now := AppendAll(ts, done);
    var col := ts[t].columns[c];
    if cell.Text? {
      assert forall u, k :: 0 <= u < |ts| ==> !InBatch([], u, k, cell.text);
      AppendedValues(ts, done, t, c, cell.text);
      SameTableIndex(ts, now, col.refTable);
      var rt := TableIndex(ts, col.refTable);
      if rt >= 0 {
        var rc := ColumnIndex(ts[rt].columns, col.refColumn);
        if rc >= 0 { AppendedValues(ts, done, rt, rc, cell.text); }
      }
    }
  }

  /** Judging a row after `done` was stored is judging it with `done` still pending. */
  lemma {:induction false} ColumnsAfter(ts: seq<Table>, done: seq<InsertRow>, ir: InsertRow, c: nat)
    requires BatchFor(ts, done) && RowFor(ts, ir) && c <= |ir.row|
    ensures ColumnsViolation(AppendAll(ts, done), [], ir, c) == ColumnsViolation(ts, done, ir, c)
    decreases |ir.row| - c
  {
    if c < |ir.row| {
      ColumnAfter(ts, done, ir.table, c, ir.row[c]);
      ColumnsAfter(ts, done, ir, c + 1);
    }
  }

  lemma CountSplit(batch: seq<InsertRow>, i: nat, t: nat)
    requires i < |batch|
    ensures CountFor(batch[..i], t) <= CountFor(batch[..i + 1], t) <= CountFor(batch, t)
    ensures batch[i].table == t ==> CountFor(batch[..i], t) < CountFor(batch, t)
    decreases |batch|
  {
    assert batch[..i + 1][..i] == batch[..i];
    if i + 1 < |batch| {
      var init := batch[..|batch| - 1];
      CountSplit(init, i, t);
      assert init[..i] == batch[..i] && init[..i + 1] == batch[..i + 1];
    } else {
      assert batch[..i + 1] == batch;
    }
  }

  /** What the code does with a whole batch whose rows from `i` on are still unchecked. */
  function BatchOutcome(ts: seq<Table>, batch: seq<InsertRow>, i: nat): Outcome
    requires BatchFor(ts, batch) && i <= |batch|
  {
    match BatchViolation(ts, batch, i)
    case Some(v) => Refused(v)
    case None => Accepted(AppendAll(ts, batch))
  }

  /** One-at-a-time insertion of the rows from `i` on, once the first `i` are stored. */
  lemma {:induction false} RemainderRefines(ts: seq<Table>, batch: seq<InsertRow>, i: nat)
    requires BatchFor(ts, batch) && i <= |batch| && Fits(ts, batch[..i])
    requires BatchFor(AppendAll(ts, batch[..i]), batch[i..])
    ensures var one := InsertOneByOne(AppendAll(ts, batch[..i]), batch[i..]);
            if Fits(ts, batch) then one == BatchOutcome(ts, batch, i) else one.Refused?
    decreases |batch| - i
  {
    var now := AppendAll(ts, batch[..i]);
    if i == |batch| {
      assert batch[..i] == batch;
    } else {
      var ir := batch[i];
      assert batch[i..][0] == ir && batch[i..][1..] == batch[i + 1..];
      RowAfter(ts, batch, i);
      if RowViolation(now, [], ir).None? {
        assert AppendAll(ts, batch[..i + 1]) == Append(now, ir) by { assert batch[..i + 1][..i] == batch[..i]; }
        NextFits(ts, batch, i);
        RemainderRefines(ts, batch, i + 1);
      }
    }
  }

  /** The next row alone, against the stored predecessors, is judged as the batch judges it, unless
      its table has filled up in between; then the batch does not fit. */
  lemma RowAfter(ts: seq<Table>, batch: seq<InsertRow>, i: nat)
    requires BatchFor(ts, batch) && i < |batch|
    ensures var now := AppendAll(ts, batch[..i]);
            |now[batch[i].table].rows| < MAX_ROWS ==>
              RowViolation(now, [], batch[i]) == RowViolation(ts, batch[..i], batch[i])
    ensures var now := AppendAll(ts, batch[..i]);
            |now[batch[i].table].rows| >= MAX_ROWS ==> RowViolation(now, [], batch[i]).Some? && !Fits(ts, batch)
  {
    ColumnsAfter(ts, batch[..i], batch[i], 0);
    CountSplit(batch, i, batch[i].table);
  }

  lemma NextFits(ts: seq<Table>, batch: seq<InsertRow>, i: nat)
    requires BatchFor(ts, batch) && i < |batch| && Fits(ts, batch[..i])
    requires |ts[batch[i].table].rows| + CountFor(batch[..i], batch[i].table) < MAX_ROWS
    ensures Fits(ts, batch[..i + 1])
  {
    assert batch[..i + 1][..i] == batch[..i];
  }

  /** The refinement theorem. A batch that fits is accepted exactly when inserting its rows one at a
      time succeeds, and both routes end in the same tables; they also fail for the same first
      violation. A batch that does not fit is always refused row by row, whatever the batch check
      says of it. */
  lemma BatchIsSequential(ts: seq<Table>, batch: seq<InsertRow>)
    requires BatchFor(ts, batch)
    ensures Fits(ts, batch) ==> InsertOneByOne(ts, batch) == BatchOutcome(ts, batch, 0)
    ensures !Fits(ts, batch) ==> InsertOneByOne(ts, batch).Refused?
  {
    assert batch[..0] == [] && batch[0..] == batch;
    RemainderRefines(ts, batch, 0);
  }

  /** The guard is needed: the check on the stored rows alone lets two rows into the last place. */
  lemma OverfullBatchPasses()
    ensures exists ts, batch ::
              Shape(ts) && BatchFor(ts, batch) && BatchViolation(ts, batch, 0).None? && !Fits(ts, batch)
  {
    var t := Table("t", [Column("c", "TEXT", false, false, false, "", "")], seq(MAX_ROWS - 1, _ => [Null]));
    var ir := InsertRow(0, [Null]);
    var ts, batch := [t], [ir, ir];
    assert ColumnViolation(ts, batch[..0], 0, 0, Null) == None && ColumnViolation(ts, batch[..1], 0, 0, Null) == None;
    assert ColumnsViolation(ts, batch[..0], ir, 1) == None && ColumnsViolation(ts, batch[..1], ir, 1) == None;
    assert RowViolation(ts, batch[..0], ir) == None && RowViolation(ts, batch[..1], ir) == None;
    assert BatchViolation(ts, batch, 2) == None && BatchViolation(ts, batch, 1) == None;
    assert batch[..1] == [ir] && batch[..1][..0] == [] && CountFor([ir], 0) == 1;
    assert CountFor(batch, 0) == 2;
    assert BatchFor(ts, batch) && Shape(ts);
  }
}
