/** Integrity of the store, and why accepted batches keep it. */
module Integrity {
  import opened Schema
  import opened Constraints

  /** No row has NULL in column `c`. */
  ghost predicate NoNulls(t: Table, c: nat) {
    forall r :: 0 <= r < |t.rows| ==> c < |t.rows[r]| && t.rows[r][c].Text?
  }

  /** No two rows share a non-NULL value in column `c`. */
  ghost predicate DistinctValues(t: Table, c: nat) {
    forall q, r, v :: 0 <= q < r < |t.rows| && Holds(t.rows[q], c, v) ==> !Holds(t.rows[r], c, v)
  }

  /** Every non-NULL value in column `c` of `t` occurs in the column it references. */
  ghost predicate ReferencesMet(ts: seq<Table>, t: Table, c: nat, col: Column) {
    forall r, v :: 0 <= r < |t.rows| && Holds(t.rows[r], c, v) ==> Referenced(ts, col, v)
  }

  predicate Referenced(ts: seq<Table>, col: Column, v: string) {
    var rt := TableIndex(ts, col.refTable);
    rt >= 0 &&
    var rc := ColumnIndex(ts[rt].columns, col.refColumn);
    rc >= 0 && InTable(ts[rt], rc, v)
  }

  ghost predicate ColumnIntegrity(ts: seq<Table>, t: nat, c: nat)
    requires t < |ts| && c < |ts[t].columns|
  {
    var col := ts[t].columns[c];
    && (col.notNull || col.primaryKey ==> NoNulls(ts[t], c))
    && (col.primaryKey || col.unique ==> DistinctValues(ts[t], c))
    && (col.refTable != "" ==> ReferencesMet(ts, ts[t], c, col))
  }

  ghost predicate Intact(ts: seq<Table>) {
    forall t, c :: 0 <= t < |ts| && 0 <= c < |ts[t].columns| ==> ColumnIntegrity(ts, t, c)
  }

  /** A schema whose tables hold no rows, as a load leaves it, satisfies every constraint. */
  predicate NoRows(ts: seq<Table>) {
    forall t :: 0 <= t < |ts| ==> ts[t].rows == []
  }

  lemma EmptyIntegrity(ts: seq<Table>)
    requires NoRows(ts)
    ensures Intact(ts)
  {
    forall t, c | 0 <= t < |ts| && 0 <= c < |ts[t].columns|
      ensures ColumnIntegrity(ts, t, c)
    {
      assert ts[t].rows == [];
    }
  }

  lemma ReferencedGrows(ts: seq<Table>, ir: InsertRow, col: Column, v: string)
    requires RowFor(ts, ir) && Referenced(ts, col, v)
    ensures Referenced(Append(ts, ir), col, v)
  {
    SameTableIndex(ts, Append(ts, ir), col.refTable);
    var rt := TableIndex(ts, col.refTable);
    AppendedValue(ts, ir, rt, ColumnIndex(ts[rt].columns, col.refColumn), v);
  }

  /** The accepted row's own column. */
  lemma AppendedColumn(ts: seq<Table>, ir: InsertRow, c: nat)
    requires RowFor(ts, ir) && c < |ir.row| && ColumnIntegrity(ts, ir.table, c)
    requires CellSound(ts, [], ir.table, c, ir.row[c])
    ensures ColumnIntegrity(Append(ts, ir), ir.table, c)
  {
    var us := Append(ts, ir);
    var t, u := ts[ir.table], us[ir.table];
    var col := t.columns[c];
    assert u.rows == t.rows + [ir.row] && u.columns == t.columns;
    var cell := ir.row[c];
    if cell.Text? {
      assert Holds(ir.row, c, cell.text);
      if col.Distinct() {
        assert !InTable(t, c, cell.text);
        assert forall q :: 0 <= q < |t.rows| ==> !Holds(t.rows[q], c, cell.text);
      }
      if col.IsReference() {
        assert Referenced(ts, col, cell.text);
      }
    }
    if col.IsReference() {
      forall r, v | 0 <= r < |u.rows| && Holds(u.rows[r], c, v)
        ensures Referenced(us, col, v)
      {
        if r < |t.rows| { assert Holds(t.rows[r], c, v); }
        ReferencedGrows(ts, ir, col, v);
      }
    }
  }

  /** Every other column only sees its referenced table grow. */
  lemma OtherColumn(ts: seq<Table>, ir: InsertRow, t: nat, c: nat)
    requires RowFor(ts, ir) && t < |ts| && t != ir.table && c < |ts[t].columns| && ColumnIntegrity(ts, t, c)
    ensures ColumnIntegrity(Append(ts, ir), t, c)
  {
    var us := Append(ts, ir);
    var col := ts[t].columns[c];
    assert us[t] == ts[t];
    if col.IsReference() {
      forall r, v | 0 <= r < |us[t].rows| && Holds(us[t].rows[r], c, v)
        ensures Referenced(us, col, v)
      {
        ReferencedGrows(ts, ir, col, v);
      }
    }
  }

  lemma AcceptedRowKeepsIntegrity(ts: seq<Table>, ir: InsertRow)
    requires Shape(ts) && Intact(ts) && RowFor(ts, ir) && RowViolation(ts, [], ir).None?
    ensures Shape(Append(ts, ir)) && Intact(Append(ts, ir))
  {
    var us := Append(ts, ir);
    RowAccepted(ts, [], ir);
    forall t, c | 0 <= t < |us| && 0 <= c < |us[t].columns|
      ensures ColumnIntegrity(us, t, c)
    {
      assert ColumnIntegrity(ts, t, c);
      if t == ir.table { AppendedColumn(ts, ir, c); } else { OtherColumn(ts, ir, t, c); }
    }
  }

  lemma {:induction false} OneByOneKeepsIntegrity(ts: seq<Table>, batch: seq<InsertRow>)
    requires Shape(ts) && Intact(ts) && BatchFor(ts, batch) && InsertOneByOne(ts, batch).Accepted?
    ensures Shape(InsertOneByOne(ts, batch).tables) && Intact(InsertOneByOne(ts, batch).tables)
    decreases |batch|
  {
    if batch != [] {
      AcceptedRowKeepsIntegrity(ts, batch[0]);
      OneByOneKeepsIntegrity(Append(ts, batch[0]), batch[1..]);
    }
  }

  /** An accepted batch that fits keeps every NOT NULL, PRIMARY KEY, UNIQUE and FOREIGN KEY rule. */
  lemma AcceptedBatchKeepsIntegrity(ts: seq<Table>, batch: seq<InsertRow>)
    requires Shape(ts) && Intact(ts) && BatchFor(ts, batch)
    requires BatchViolation(ts, batch, 0).None? && Fits(ts, batch)
    ensures Shape(AppendAll(ts, batch)) && Intact(AppendAll(ts, batch))
  {
    BatchIsSequential(ts, batch);
    OneByOneKeepsIntegrity(ts, batch);
  }
}
