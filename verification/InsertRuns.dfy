/** What accepted inserts leave in the tables, over whole runs of the server. */
module InsertRuns {
  import opened Schema
  import opened Constraints
  import opened InsertSyntax
  import opened ServerRuns
  import InsertTotality
  import EndToEnd
  import SchemaLoad
  import SchemaSql
  import Store
  import Text

  // ---- One insert ----

  /** Whether a text is an acceptable batch for these tables, said of its rows one at a time. */
  predicate Insertable(env: Env, ts: seq<Table>, sql: string)
    requires Shape(ts)
  {
    env.grammar(sql) && Batch(ts, sql).Ok? && BatchFor(ts, Batch(ts, sql).value) &&
    InsertOneByOne(ts, Batch(ts, sql).value).Accepted?
  }

  /** The child's verdict on a batch that fits its tables is that of inserting its rows one at a time;
      judging changes no table. */
  lemma InsertJudged(env: Env, s: State, io: Io, reply: string)
    requires Shape(s.tables) && s.worker.Started? && s.worker.r.op.ValidateInsert? && s.cancel != s.worker.r.client
    requires Batch(s.tables, s.worker.r.op.sql).Ok? ==>
               BatchFor(s.tables, Batch(s.tables, s.worker.r.op.sql).value) &&
               Fits(s.tables, Batch(s.tables, s.worker.r.op.sql).value)
    requires Batch(s.tables, s.worker.r.op.sql) != Err(ColumnMapOverrun)
    ensures var next := Next(env, s, Perform(io, reply));
            && next.Some? && next.value.tables == s.tables && next.value.inserts == s.inserts + 1
            && if s.worker.r.op.sql != "" && io.Fine? && Insertable(env, s.tables, s.worker.r.op.sql)
               then next.value.worker == Checked(s.worker.r)
               else next.value.worker == Performed(s.worker.r, false, false, reply)
  {
    hide Batch, Fits, InsertOneByOne, Shape;
    var ts, sql := s.tables, s.worker.r.op.sql;
    Store.ChildAndParentAgree(ts, env.grammar(sql), sql);
    Store.InsertedOneByOne(ts, env.grammar(sql), sql);
  }

  /** An accepted batch that fits is stored: the tables are then those of inserting its rows one at a
      time, and the request succeeds. One that does not fit runs past a row array. */
  lemma AcceptedIsStored(env: Env, initial: map<nat, string>, s: State, reply: string)
    requires Reachable(env, initial, s) && s.worker.Checked?
    ensures Shape(s.tables) && s.worker.r.op.ValidateInsert? && Batch(s.tables, s.worker.r.op.sql).Ok?
    ensures var rows, next := Batch(s.tables, s.worker.r.op.sql).value, Next(env, s, Apply(reply));
            && BatchFor(s.tables, rows) && (next.Some? <==> Fits(s.tables, rows))
            && (next.Some? ==>
                  && InsertOneByOne(s.tables, rows) == Accepted(next.value.tables)
                  && next.value.worker == Performed(s.worker.r, true, false, reply))
  {
    hide Batch, Fits, InsertOneByOne, Shape;
    ReachableInv(env, initial, s);
    GoodShape(s.tables);
    var sql := s.worker.r.op.sql;
    Store.ChildAndParentAgree(s.tables, env.grammar(sql), sql);
    Store.InsertedOneByOne(s.tables, env.grammar(sql), sql);
  }

  /** Should the parent ever find a batch wanting that its child accepted, it would fail the request and
      store nothing. */
  lemma RefusedIsNotStored(env: Env, s: State, reply: string)
    requires Shape(s.tables) && s.worker.Checked? && s.worker.r.op.ValidateInsert?
    requires Batch(s.tables, s.worker.r.op.sql) != Err(ColumnMapOverrun)
    requires s.tables != [] && !Store.ValidInsert(s.tables, env.grammar(s.worker.r.op.sql), s.worker.r.op.sql)
    ensures Next(env, s, Apply(reply)) == Some(s.(worker := Performed(s.worker.r, false, false, reply)))
  {
    hide Batch, Fits, Shape;
    Store.ChildAndParentAgree(s.tables, env.grammar(s.worker.r.op.sql), s.worker.r.op.sql);
  }

  // ---- Reading depends on the schema only ----

  lemma SameNames(ts: seq<Table>, us: seq<Table>, name: string)
    requires SchemaSql.SameSchema(ts, us)
    ensures TableIndex(ts, name) == TableIndex(us, name)
  {
    SameTableIndex(ts, us, name);
  }

  lemma SameStatement(ts: seq<Table>, us: seq<Table>, stmt: string, batch: seq<InsertRow>)
    requires Shape(ts) && Shape(us) && SchemaSql.SameSchema(ts, us)
    ensures Statement(ts, stmt, batch) == Statement(us, stmt, batch)
  {
    hide Rows, ColumnList, Identifier, Text.StartsCI, Text.SkipWs, TableIndex, Shape;
    var s := Text.SkipWs(stmt);
    if s != "" && Text.StartsCI(s, "insert") {
      Text.StartsCILength(s, "insert");
      var after := Text.SkipWs(s[6..]);
      if Text.StartsCI(after, "into") {
        Text.StartsCILength(after, "into");
        var name := Identifier(after[4..]);
        if name.Some? { SameNames(ts, us, name.value.value); }
      }
    }
  }

  lemma {:induction false} SameStatements(ts: seq<Table>, us: seq<Table>, slices: seq<string>, batch: seq<InsertRow>)
    requires Shape(ts) && Shape(us) && SchemaSql.SameSchema(ts, us)
    ensures Statements(ts, slices, batch) == Statements(us, slices, batch)
    decreases |slices|
  {
    hide Statement, Shape, Text.Trim;
    if slices != [] && |slices[0]| < MAX_STATEMENT {
      SameStatement(ts, us, Text.Trim(slices[0]), batch);
      var r := Statement(ts, Text.Trim(slices[0]), batch);
      if r.Ok? { SameStatements(ts, us, slices[1..], r.value); }
    }
  }

  lemma SameBatch(ts: seq<Table>, us: seq<Table>, sql: string)
    requires Shape(ts) && Shape(us) && SchemaSql.SameSchema(ts, us)
    ensures Batch(ts, sql) == Batch(us, sql)
  {
    hide Statements, Split, Shape;
    SameStatements(ts, us, Split(sql), []);
  }

  // ---- The rows of a table over a run ----

  /** The rows of a batch that go to table `t`, in order. */
  function RowsFor(batch: seq<InsertRow>, t: nat): seq<Row> {
    if batch == [] then []
    else RowsFor(batch[..|batch| - 1], t) + if batch[|batch| - 1].table == t then [batch[|batch| - 1].row] else []
  }

  lemma {:induction false} AppendedRows(ts: seq<Table>, batch: seq<InsertRow>, t: nat)
    requires BatchFor(ts, batch) && t < |ts|
    ensures AppendAll(ts, batch)[t].rows == ts[t].rows + RowsFor(batch, t)
    decreases |batch|
  {
    if batch == [] {
      assert ts[t].rows + [] == ts[t].rows;
    } else {
      AppendedRows(ts, batch[..|batch| - 1], t);
    }
  }

  /** In this step an INSERT request is performed with success. */
  predicate Inserts(s: State, t: State) {
    !s.worker.Performed? && t.worker.Performed? && t.worker.ok && t.worker.r.op.ValidateInsert?
  }

  /** The texts of the INSERT requests performed with success in a run, in order. */
  function Inserted(env: Env, s: State, steps: seq<Step>): seq<string>
    requires Run(env, s, steps).Some?
    decreases |steps|
  {
    if steps == [] then []
    else
      var t := Next(env, s, steps[0]).value;
      (if Inserts(s, t) then [t.worker.r.op.sql] else []) + Inserted(env, t, steps[1..])
  }

  /** The rows those texts hold for table `t`. */
  function RowsOfAll(ts: seq<Table>, sqls: seq<string>, t: nat): seq<Row>
    requires Shape(ts)
    decreases |sqls|
  {
    if sqls == [] then []
    else
      (match Batch(ts, sqls[0])
       case Ok(batch) => RowsFor(batch, t)
       case Err(_) => []) + RowsOfAll(ts, sqls[1..], t)
  }

  lemma {:induction false} SameRowsOfAll(ts: seq<Table>, us: seq<Table>, sqls: seq<string>, t: nat)
    requires Shape(ts) && Shape(us) && SchemaSql.SameSchema(ts, us)
    ensures RowsOfAll(ts, sqls, t) == RowsOfAll(us, sqls, t)
    decreases |sqls|
  {
    hide Batch, RowsFor, Shape;
    if sqls != [] {
      SameBatch(ts, us, sqls[0]);
      SameRowsOfAll(ts, us, sqls[1..], t);
    }
  }

  /** A step adds to each table the rows of the insert it performs with success, and no others. */
  lemma StepRows(env: Env, initial: map<nat, string>, s: State, step: Step, t: nat)
    requires Inv(env, initial, s) && Shape(s.tables) && Next(env, s, step).Some? && t < |s.tables|
    requires !(step.Perform? && s.worker.Started? && s.worker.r.op.UploadEnd?)
    ensures |Next(env, s, step).value.tables| == |s.tables|
    ensures var now := Next(env, s, step).value;
            now.tables[t].rows ==
            s.tables[t].rows + if Inserts(s, now) then RowsOfAll(s.tables, [now.worker.r.op.sql], t) else []
  {
    hide Batch, Fits, Shape, RowsFor, Fifo, Numbered, Lifecycle, Counters, FilesSeparate, Store.Good, Store.ValidInsert,
         SchemaLoad.LoadSchema, Document, FileOf, SetJob;
    var now := Next(env, s, step).value;
    EndToEnd.StepKeepsSchema(env, s, step);
    var rows := s.tables[t].rows;
    assert rows + [] == rows;
    if step.Apply? {
      StoredRows(env, s, step.reply, t);
    }
  }

  lemma StoredRows(env: Env, s: State, reply: string, t: nat)
    requires Shape(s.tables) && VerdictHolds(env, s) && s.worker.Checked? && t < |s.tables|
    requires Next(env, s, Apply(reply)).Some?
    ensures var now := Next(env, s, Apply(reply)).value;
            && Inserts(s, now) && |now.tables| == |s.tables|
            && now.tables[t].rows == s.tables[t].rows + RowsOfAll(s.tables, [now.worker.r.op.sql], t)
  {
    hide Batch, Fits, Shape, RowsFor, BatchViolation;
    var sql := s.worker.r.op.sql;
    Store.ChildAndParentAgree(s.tables, env.grammar(sql), sql);
    InsertTotality.AcceptedBatch(s.tables, sql);
    AppendedRows(s.tables, Batch(s.tables, sql).value, t);
    OneOfAll(s.tables, sql, t);
  }

  lemma OneOfAll(ts: seq<Table>, sql: string, t: nat)
    requires Shape(ts) && Batch(ts, sql).Ok?
    ensures RowsOfAll(ts, [sql], t) == RowsFor(Batch(ts, sql).value, t)
  {
    hide Batch, RowsFor, Shape;
    assert [sql][1..] == [];
    assert RowsFor(Batch(ts, sql).value, t) + [] == RowsFor(Batch(ts, sql).value, t);
  }

  lemma FirstOfAll(ts: seq<Table>, sql: string, more: seq<string>, t: nat)
    requires Shape(ts)
    ensures RowsOfAll(ts, [sql] + more, t) == RowsOfAll(ts, [sql], t) + RowsOfAll(ts, more, t)
  {
    hide Batch, RowsFor, Shape;
    assert ([sql] + more)[1..] == more && [sql][1..] == [];
  }

  /** Between loads every table holds what it held and then exactly the rows of the INSERT requests that
      were performed with success, in order. */
  lemma {:induction false} RowsAreInserted(env: Env, initial: map<nat, string>, s: State, steps: seq<Step>, t: nat)
    requires Inv(env, initial, s) && Run(env, s, steps).Some? && EndToEnd.NoLoads(env, s, steps)
    requires Shape(s.tables) && t < |s.tables|
    ensures var end := Run(env, s, steps).value;
            |end.tables| == |s.tables| &&
            end.tables[t].rows == s.tables[t].rows + RowsOfAll(s.tables, Inserted(env, s, steps), t)
    decreases |steps|
  {
    hide Next, Shape, Inv, RowsOfAll;
    if steps == [] {
      NothingInserted(s.tables, t);
    } else {
      var now := Next(env, s, steps[0]).value;
      StepKeepsInv(env, initial, s, steps[0]);
      StepRows(env, initial, s, steps[0], t);
      EndToEnd.InvShape(env, initial, now);
      EndToEnd.StepKeepsSchema(env, s, steps[0]);
      RowsAreInserted(env, initial, now, steps[1..], t);
      var later := Inserted(env, now, steps[1..]);
      SameRowsOfAll(s.tables, now.tables, later, t);
      if Inserts(s, now) {
        FirstOfAll(s.tables, now.worker.r.op.sql, later, t);
        assert s.tables[t].rows + RowsOfAll(s.tables, [now.worker.r.op.sql], t) + RowsOfAll(s.tables, later, t) ==
               s.tables[t].rows + (RowsOfAll(s.tables, [now.worker.r.op.sql], t) + RowsOfAll(s.tables, later, t));
      } else {
        assert [] + later == later && s.tables[t].rows + [] == s.tables[t].rows;
      }
    }
  }

  lemma NothingInserted(ts: seq<Table>, t: nat)
    requires Shape(ts) && t < |ts|
    ensures ts[t].rows + RowsOfAll(ts, [], t) == ts[t].rows
  {
    hide Shape;
  }
}
