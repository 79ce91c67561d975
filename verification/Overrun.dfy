/** A run of ordinary requests that ends in a batch writing past a table's row array: the capacity check
    counts only the rows stored before the batch. */
module Overrun {
  import opened Schema
  import opened Text
  import opened Constraints
  import opened InsertSyntax
  import opened InsertRoundTrip
  import opened BatchRoundTrip
  import opened Store
  import SchemaDocument
  import SchemaLoad
  import StatementSplit

  function Nulls(n: nat): seq<Row> {
    seq(n, _ => [Null])
  }

  /** A schema of one table `t` with one plain column `a`, holding `k` rows. */
  function Holding(k: nat): seq<Table> {
    [Table("t", [Column("a", "TEXT", false, false, false, "", "")], Nulls(k))]
  }

  function NullInsert(n: nat): Insert {
    Insert.Insert(0, [0], Nulls(n))
  }

  function NullRows(n: nat): seq<InsertRow> {
    seq(n, _ => InsertRow(0, [Null]))
  }

  lemma Ready(k: nat, n: nat)
    requires k <= MAX_ROWS && n > 0
    ensures Shape(Holding(k)) && Printable(Holding(k), NullInsert(n)) && PrintableBatch(Holding(k), [NullInsert(n)])
  {
    assert IsWord('t') && IsWord('a');
    assert TableIndex(Holding(k), "t") == 0 && ColumnIndex(Holding(k)[0].columns, "a") == 0;
  }

  /** `INSERT INTO t (a) VALUES (NULL), ...` with `n` tuples. */
  function Sql(n: nat): string
    requires n > 0
  {
    Ready(0, n);
    PrintInsert(Holding(0), NullInsert(n))
  }

  lemma SameSql(k: nat, n: nat)
    requires k <= MAX_ROWS && n > 0
    ensures Printable(Holding(k), NullInsert(n)) && PrintableBatch(Holding(k), [NullInsert(n)])
    ensures PrintBatch(Holding(k), [NullInsert(n)]) == Sql(n)
  {
    hide PrintTuples;
    Ready(k, n);
    Ready(0, n);
  }

  lemma {:induction false} NullTuples(n: nat)
    requires n > 0
    ensures Plain(PrintTuples(Nulls(n))) && |PrintTuples(Nulls(n))| <= 8 * n
    decreases n
  {
    assert PrintCells([Null]) == "NULL";
    if n > 1 {
      assert Nulls(n)[1..] == Nulls(n - 1);
      NullTuples(n - 1);
    }
  }

  lemma NullSql(n: nat)
    requires 0 < n <= MAX_BATCH_ROWS
    ensures Plain(Sql(n)) && |Sql(n)| < MAX_STATEMENT
  {
    hide PrintTuples;
    Ready(0, n);
    NullTuples(n);
    HeadPlain(Holding(0), NullInsert(n));
    assert PrintNames(Holding(0)[0].columns, [0]) == "a";
    assert |InsertHead(Holding(0), NullInsert(n))| == 25;
  }

  lemma {:induction false} NullTupleRows(n: nat)
    ensures TupleRows(0, 1, [0], Nulls(n)) == NullRows(n)
    decreases n
  {
    if n > 0 {
      NullTupleRows(n - 1);
      assert Nulls(n)[1..] == Nulls(n - 1);
      assert PlacedRow(1, [0], [Null]) == [Null];
      assert NullRows(n) == [InsertRow(0, [Null])] + NullRows(n - 1);
    }
  }

  lemma NullBatchRows(k: nat, n: nat)
    requires k <= MAX_ROWS && n > 0
    ensures PlaceableBatch(Holding(k), [NullInsert(n)]) && PlaceableBatch(Holding(k), StoredBatch([NullInsert(n)]))
    ensures BatchRows(Holding(k), [NullInsert(n)]) == NullRows(n)
    ensures BatchRows(Holding(k), StoredBatch([NullInsert(n)])) == NullRows(n)
  {
    hide TupleRows;
    var st := NullInsert(n);
    NullTupleRows(n);
    assert StoredCells([Null]) == [Null];
    assert StoredTuples(Nulls(n)) == Nulls(n);
    assert StoredBatch([st]) == [st];
    assert [st][1..] == [] && NullRows(n) + [] == NullRows(n);
  }

  lemma NullsRead(k: nat, n: nat)
    requires k <= MAX_ROWS && 0 < n <= MAX_BATCH_ROWS
    ensures Shape(Holding(k)) && Batch(Holding(k), Sql(n)) == Ok(NullRows(n))
  {
    hide Batch, Sql, PrintBatch, Printable, BatchRows, PrintInsert, Holding, NullInsert;
    Ready(k, n);
    SameSql(k, n);
    NullSql(n);
    NullBatchRows(k, n);
    var sts := [NullInsert(n)];
    assert Slices(Holding(k), "", sts)[0] == Sql(n) by { OneSlice(k, n); }
    assert Unmisled(Sql(n));
    PrintedBatchRead(Holding(k), sts);
  }

  lemma OneSlice(k: nat, n: nat)
    requires PrintableBatch(Holding(k), [NullInsert(n)]) && n > 0
    requires PrintBatch(Holding(k), [NullInsert(n)]) == Sql(n)
    ensures Slices(Holding(k), "", [NullInsert(n)])[0] == Sql(n)
  {
    hide PrintInsert, Sql;
    assert "" + Sql(n) == Sql(n);
  }

  lemma {:induction false} NullsPass(k: nat, n: nat, i: nat)
    requires k < MAX_ROWS && i <= n
    ensures BatchFor(Holding(k), NullRows(n)) && BatchViolation(Holding(k), NullRows(n), i).None?
    decreases n - i
  {
    if i < n {
      RowAccepted(Holding(k), NullRows(n)[..i], NullRows(n)[i]);
      NullsPass(k, n, i + 1);
    }
  }

  lemma {:induction false} NullsAppended(k: nat, n: nat)
    ensures BatchFor(Holding(k), NullRows(n))
    ensures AppendAll(Holding(k), NullRows(n)) == Holding(k + n) && CountFor(NullRows(n), 0) == n
    decreases n
  {
    if n > 0 {
      assert NullRows(n)[..n - 1] == NullRows(n - 1);
      NullsAppended(k, n - 1);
      assert Nulls(k + n - 1) + [[Null]] == Nulls(k + n);
    }
  }

  /** Every such batch passes every check while the table has one free row; it is stored exactly when
      all its rows fit, and otherwise runs past the row array. */
  lemma NullsApplied(k: nat, n: nat)
    requires k < MAX_ROWS && 0 < n <= MAX_BATCH_ROWS
    ensures Shape(Holding(k))
    ensures ApplyInsert(Holding(k), true, Sql(n)) ==
            if k + n <= MAX_ROWS then Inserted(Holding(k + n), n) else RowsOverrun
  {
    hide Batch, Sql, BatchViolation, AppendAll, NullRows;
    NullsRead(k, n);
    NullsPass(k, n, 0);
    NullsAppended(k, n);
    assert |NullRows(n)| == n by { CountNulls(n); }
    OnlyTable(k, n);
  }

  lemma CountNulls(n: nat)
    ensures |NullRows(n)| == n
  {
  }

  lemma OnlyTable(k: nat, n: nat)
    requires n > 0 && CountFor(NullRows(n), 0) == n
    ensures Fits(Holding(k), NullRows(n)) <==> k + n <= MAX_ROWS
  {
    hide NullRows, CountFor;
    assert |Holding(k)[0].rows| == k;
  }

  lemma EmptyWritable()
    ensures SchemaDocument.WritableSchema(Holding(0))
  {
    assert Nulls(0) == [];
  }

  lemma LoadsEmpty()
    ensures AfterRequest([], Load(Some(SchemaDocument.Document(Holding(0))))) == Some(Holding(0))
  {
    hide Holding, SchemaDocument.Document, SchemaDocument.WritableSchema, SchemaLoad.LoadSchema;
    EmptyWritable();
    SchemaDocument.DocumentReadBack([], Holding(0));
  }

  function Loading(): seq<Request> {
    [Load(Some(SchemaDocument.Document(Holding(0))))]
  }

  function Inserting(n: nat): seq<Request>
    requires n > 0
  {
    [Request.Insert(true, Sql(n))]
  }

  function FillingRun(): seq<Request> {
    Loading() + Inserting(256) + Inserting(256) + Inserting(256) + Inserting(255)
  }

  lemma RunMore(requests: seq<Request>, r: Request)
    requires AfterRun(requests).Some?
    ensures AfterRun(requests + [r]) == AfterRequest(AfterRun(requests).value, r)
  {
    hide AfterRequest;
    assert (requests + [r])[..|requests|] == requests;
  }

  lemma InsertMore(requests: seq<Request>, k: nat, n: nat)
    requires AfterRun(requests) == Some(Holding(k)) && k + n <= MAX_ROWS && 0 < n <= MAX_BATCH_ROWS
    ensures AfterRun(requests + Inserting(n)) == Some(Holding(k + n))
  {
    hide ApplyInsert, Sql, Holding, AfterRun;
    NullsApplied(k, n);
    RunMore(requests, Request.Insert(true, Sql(n)));
  }

  /** From the initial store, one load and four batches that are all stored leave room for one row, and
      a batch of two then passes every check and overruns the table. */
  lemma OverrunReached()
    ensures AfterRun(FillingRun()) == Some(Holding(1023)) && Shape(Holding(1023))
    ensures ApplyInsert(Holding(1023), true, Sql(2)) == RowsOverrun
    ensures AfterRun(FillingRun() + Inserting(2)) == None
  {
    hide ApplyInsert, Sql, Holding, AfterRun, Inserting, Loading;
    LoadingRun();
    InsertMore(Loading(), 0, 256);
    InsertMore(Loading() + Inserting(256), 256, 256);
    InsertMore(Loading() + Inserting(256) + Inserting(256), 512, 256);
    InsertMore(Loading() + Inserting(256) + Inserting(256) + Inserting(256), 768, 255);
    NullsApplied(1023, 2);
    OverrunMore(FillingRun(), 1023, 2);
  }

  lemma LoadingRun()
    ensures AfterRun(Loading()) == Some(Holding(0))
  {
    hide Holding, AfterRequest;
    assert AfterRun([]) == Some([]);
    LoadsEmpty();
    RunMore([], Loading()[0]);
    assert [] + Loading() == Loading();
  }

  lemma OverrunMore(requests: seq<Request>, k: nat, n: nat)
    requires AfterRun(requests) == Some(Holding(k)) && k <= MAX_ROWS && n > 0
    requires Shape(Holding(k)) && ApplyInsert(Holding(k), true, Sql(n)) == RowsOverrun
    ensures AfterRun(requests + Inserting(n)) == None
  {
    hide ApplyInsert, Sql, Holding, AfterRun;
    RunMore(requests, Request.Insert(true, Sql(n)));
  }
}
