/** Where the rows of an accepted text come from: each from a tuple of one of its statements, with that
    statement's table and columns. */
module InsertOrigins {
  import opened Schema
  import opened Text
  import opened InsertSyntax
  import opened InsertTotality

  /** The table a statement names and the columns it lists. */
  datatype Heading = Heading(table: nat, listed: seq<nat>)

  function HeadingOf(ts: seq<Table>, stmt: string): Option<Heading>
    requires Shape(ts)
  {
    var s := SkipWs(stmt);
    if !StartsCI(s, "insert") then None
    else
      StartsCILength(s, "insert");
      InsertHeading(ts, SkipWs(s[6..]))
  }

  function InsertHeading(ts: seq<Table>, s: string): Option<Heading>
    requires Shape(ts)
  {
    if !StartsCI(s, "into") then None
    else
      StartsCILength(s, "into");
      match Identifier(s[4..])
      case None => None
      case Some(name) =>
        var t := TableIndex(ts, name.value);
        if t < 0 then None else TableHeading(ts, t, SkipWs(name.rest))
  }

  function TableHeading(ts: seq<Table>, t: nat, s: string): Option<Heading>
    requires Shape(ts) && t < |ts|
  {
    var cols := ts[t].columns;
    if s != "" && s[0] == '(' then
      match ColumnList(cols, s[1..], [])
      case Err(_) => None
      case Ok(list) => Some(Heading(t, list.value))
    else Some(Heading(t, AllColumns(|cols|)))
  }

  predicate Legal(ts: seq<Table>, h: Heading) {
    h.table < |ts| && MapFor(h.listed, |ts[h.table].columns|)
  }

  /** The row is these values in the heading's columns, and NULL elsewhere. */
  predicate Lays(ts: seq<Table>, ir: InsertRow, h: Heading, cells: seq<Cell>)
    requires Legal(ts, h)
  {
    && ir.table == h.table && |cells| == |h.listed| && (forall i :: 0 <= i < |cells| ==> StorableCell(cells[i]))
    && ir.row == Place(NullRow(|ts[h.table].columns|), h.listed, cells)
  }

  ghost predicate Under(ts: seq<Table>, ir: InsertRow, h: Heading) {
    Legal(ts, h) && exists cells :: Lays(ts, ir, h, cells)
  }

  /** What a reading added to the batch is all under one heading. */
  ghost predicate Adds(ts: seq<Table>, before: seq<InsertRow>, after: seq<InsertRow>, h: Heading) {
    before <= after && forall i :: |before| <= i < |after| ==> Under(ts, after[i], h)
  }

  lemma {:induction false} TuplesAdd(ts: seq<Table>, h: Heading, text: string, batch: seq<InsertRow>)
    requires Shape(ts) && Legal(ts, h)
    ensures var r := Tuples(h.table, |ts[h.table].columns|, h.listed, text, batch);
            r.Ok? ==> Adds(ts, batch, r.value, h)
    decreases |text|
  {
    hide Tuple, Under;
    var width := |ts[h.table].columns|;
    var s := SkipWs(text);
    if s != "" {
      if s[0] == ',' {
        TuplesAdd(ts, h, s[1..], batch);
      } else if s[0] == '(' && |batch| < MAX_BATCH_ROWS && Tuple(h.listed, s[1..], 0, NullRow(width)).Ok? {
        var p := Tuple(h.listed, s[1..], 0, NullRow(width)).value;
        var ir := InsertRow(h.table, p.value);
        TupleUnder(ts, h, s[1..]);
        TuplesAdd(ts, h, p.rest, batch + [ir]);
        AddsOne(ts, batch, ir, h);
      }
    }
  }

  lemma TupleUnder(ts: seq<Table>, h: Heading, text: string)
    requires Shape(ts) && Legal(ts, h) && Tuple(h.listed, text, 0, NullRow(|ts[h.table].columns|)).Ok?
    ensures Under(ts, InsertRow(h.table, Tuple(h.listed, text, 0, NullRow(|ts[h.table].columns|)).value.value), h)
  {
    hide Tuple;
    var width := |ts[h.table].columns|;
    var cells := TupleMeans(h.listed, text, 0, NullRow(width));
    assert h.listed[0..] == h.listed;
    assert Lays(ts, InsertRow(h.table, Tuple(h.listed, text, 0, NullRow(width)).value.value), h, cells);
  }

  lemma AddsOne(ts: seq<Table>, batch: seq<InsertRow>, ir: InsertRow, h: Heading)
    requires Under(ts, ir, h)
    ensures forall after :: Adds(ts, batch + [ir], after, h) ==> Adds(ts, batch, after, h)
  {
    hide Under;
    forall after | Adds(ts, batch + [ir], after, h)
      ensures Adds(ts, batch, after, h)
    {
      assert after[..|batch| + 1] == batch + [ir];
      assert after[|batch|] == ir && batch == after[..|batch|];
    }
  }

  ghost predicate AddsUnder(ts: seq<Table>, before: seq<InsertRow>, r: Result<seq<InsertRow>>, h: Option<Heading>) {
    r.Ok? ==>
      if h.Some? then Adds(ts, before, r.value, h.value) else r.value == before
  }

  lemma RowsAdd(ts: seq<Table>, h: Heading, text: string, batch: seq<InsertRow>)
    requires Shape(ts) && Legal(ts, h)
    ensures AddsUnder(ts, batch, Rows(h.table, |ts[h.table].columns|, h.listed, text, batch), Some(h))
  {
    hide Tuples;
    var v := FindCI(text, "values");
    if v != "" {
      StartsCILength(v, "values");
      TuplesAdd(ts, h, v[6..], batch);
    }
  }

  lemma TableAdds(ts: seq<Table>, t: nat, s: string, batch: seq<InsertRow>)
    requires Shape(ts) && t < |ts|
    ensures AddsUnder(ts, batch, AfterTable(ts, t, s, batch), TableHeading(ts, t, s))
  {
    hide Rows, ColumnList, Adds;
    var cols := ts[t].columns;
    if s != "" && s[0] == '(' {
      var list := ColumnList(cols, s[1..], []);
      if list.Ok? { RowsAdd(ts, Heading(t, list.value.value), list.value.rest, batch); }
    } else {
      assert |cols| <= MAX_COLUMNS;
      RowsAdd(ts, Heading(t, AllColumns(|cols|)), s, batch);
    }
  }

  lemma StatementAdds(ts: seq<Table>, stmt: string, batch: seq<InsertRow>)
    requires Shape(ts)
    ensures AddsUnder(ts, batch, Statement(ts, stmt, batch), HeadingOf(ts, stmt))
  {
    hide AfterTable, TableHeading, StartsCI, Identifier, Adds, Shape;
    var s := SkipWs(stmt);
    if s == "" {
      NoKeyword();
    } else if StartsCI(s, "insert") {
      StartsCILength(s, "insert");
      var after := SkipWs(s[6..]);
      if StartsCI(after, "into") {
        StartsCILength(after, "into");
        var name := Identifier(after[4..]);
        if name.Some? && TableIndex(ts, name.value.value) >= 0 {
          TableAdds(ts, TableIndex(ts, name.value.value), SkipWs(name.value.rest), batch);
        }
      }
    }
  }

  lemma NoKeyword()
    ensures !StartsCI("", "insert")
  {
  }

  /** Row `i` of `rows` stands under the heading of the statement numbered `origin[i]`. */
  ghost predicate Originates(ts: seq<Table>, slices: seq<string>, rows: seq<InsertRow>, origin: seq<nat>)
    requires Shape(ts)
  {
    && |origin| == |rows|
    && (forall i, j :: 0 <= i < j < |origin| ==> origin[i] <= origin[j])
    && forall i :: 0 <= i < |rows| ==>
         && origin[i] < |slices| && HeadingOf(ts, Trim(slices[origin[i]])).Some?
         && Under(ts, rows[i], HeadingOf(ts, Trim(slices[origin[i]])).value)
  }

  lemma {:induction false} StatementsOriginate(ts: seq<Table>, slices: seq<string>, batch: seq<InsertRow>)
    returns (origin: seq<nat>)
    requires Shape(ts) && Statements(ts, slices, batch).Ok?
    ensures batch <= Statements(ts, slices, batch).value
    ensures Originates(ts, slices, Statements(ts, slices, batch).value[|batch|..], origin)
    decreases |slices|
  {
    hide Statement, HeadingOf, Trim, Under, Shape;
    if slices == [] {
      origin := [];
    } else {
      var stmt := Trim(slices[0]);
      var next := Statement(ts, stmt, batch).value;
      StatementAdds(ts, stmt, batch);
      var later := StatementsOriginate(ts, slices[1..], next);
      var all := Statements(ts, slices, batch).value;
      origin := seq(|next| - |batch|, _ => 0) + seq(|later|, i requires 0 <= i < |later| => later[i] + 1);
      Prepend(ts, slices, batch, next, all, later, origin);
    }
  }

  lemma Prepend(
      ts: seq<Table>, slices: seq<string>, batch: seq<InsertRow>, next: seq<InsertRow>, all: seq<InsertRow>,
      later: seq<nat>, origin: seq<nat>)
    requires Shape(ts) && slices != [] && batch <= next <= all
    requires AddsUnder(ts, batch, Ok(next), HeadingOf(ts, Trim(slices[0])))
    requires Originates(ts, slices[1..], all[|next|..], later)
    requires |origin| == |next| - |batch| + |later|
    requires forall i :: 0 <= i < |next| - |batch| ==> origin[i] == 0
    requires forall i :: 0 <= i < |later| ==> origin[|next| - |batch| + i] == later[i] + 1
    ensures Originates(ts, slices, all[|batch|..], origin)
  {
    hide HeadingOf, Trim, Under, Shape;
    var rows, n := all[|batch|..], |next| - |batch|;
    forall i | 0 <= i < |rows|
      ensures origin[i] < |slices| && HeadingOf(ts, Trim(slices[origin[i]])).Some?
      ensures Under(ts, rows[i], HeadingOf(ts, Trim(slices[origin[i]])).value)
    {
      if i < n {
        assert rows[i] == next[|batch| + i];
      } else {
        assert rows[i] == all[|next|..][i - n] && origin[i] == later[i - n] + 1;
        assert slices[1..][later[i - n]] == slices[origin[i]];
      }
    }
  }

  /** For every accepted text: each row comes from one of its statements, in order; it has that
      statement's table, the values of one of its tuples in the listed columns, and NULL in all
      others. */
  lemma RowsOriginate(ts: seq<Table>, sql: string) returns (origin: seq<nat>)
    requires Shape(ts) && Batch(ts, sql).Ok?
    ensures Originates(ts, Split(sql), Batch(ts, sql).value, origin)
    ensures forall i, c :: 0 <= i < |origin| && 0 <= c < |Batch(ts, sql).value[i].row| ==>
              c in HeadingOf(ts, Trim(Split(sql)[origin[i]])).value.listed || Batch(ts, sql).value[i].row[c] == Null
  {
    hide Statements, HeadingOf, Split, Trim, Under, Shape;
    origin := StatementsOriginate(ts, Split(sql), []);
    var rows := Batch(ts, sql).value;
    assert Statements(ts, Split(sql), []).value[0..] == rows;
    forall i, c | 0 <= i < |origin| && 0 <= c < |rows[i].row| && c !in HeadingOf(ts, Trim(Split(sql)[origin[i]])).value.listed
      ensures rows[i].row[c] == Null
    {
      UnlistedNull(ts, rows[i], HeadingOf(ts, Trim(Split(sql)[origin[i]])).value, c);
    }
  }

  lemma UnlistedNull(ts: seq<Table>, ir: InsertRow, h: Heading, c: nat)
    requires Under(ts, ir, h) && c < |ir.row| && c !in h.listed
    ensures ir.row[c] == Null
  {
    var cells :| Lays(ts, ir, h, cells);
    PlaceMeans(NullRow(|ts[h.table].columns|), h.listed, cells, c);
  }
}
