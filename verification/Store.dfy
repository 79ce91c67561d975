/** The relational store: the fixed table array of the server's shared state, the loader that fills it
    and the INSERT entry points. */
module Store {
  import opened Schema
  import opened Constraints
  import opened Integrity
  import opened SchemaLoad
  import opened Text
  import opened InsertSyntax
  import opened InsertTotality
  import InsertLoops

  // ---- What an INSERT request does, as a function of the tables ----

  datatype InsertOutcome =
    | Inserted(tables: seq<Table>, count: nat)
    | SyntaxRejected
    | ParseRejected(parseError: ParseError)
    | RuleRejected(violation: Violation)
    | RowsOverrun  // the C code writes past `rows[MAX_ROWS]` here
  {
    /** The outcomes after which the C program is still defined. */
    predicate Defined() {
      !RowsOverrun? && !(ParseRejected? && parseError.ColumnMapOverrun?)
    }
  }

  /** `apply_insert_batch`; `syntaxOk` is the verdict of the PostgreSQL grammar. */
  function ApplyInsert(ts: seq<Table>, syntaxOk: bool, sql: string): InsertOutcome
    requires Shape(ts)
  {
    if !syntaxOk then SyntaxRejected
    else
      var b := Batch(ts, sql);
      if b.Err? then ParseRejected(b.error)
      else
        AcceptedBatch(ts, sql);
        match BatchViolation(ts, b.value, 0)
        case Some(v) => RuleRejected(v)
        case None => if Fits(ts, b.value) then Inserted(AppendAll(ts, b.value), |b.value|) else RowsOverrun
  }

  /** `validate_insert_batch`: whether the batch would be accepted, without storing it. */
  predicate ValidInsert(ts: seq<Table>, syntaxOk: bool, sql: string)
    requires Shape(ts)
  {
    ts != [] && syntaxOk && Batch(ts, sql).Ok? &&
    (AcceptedBatch(ts, sql); BatchViolation(ts, Batch(ts, sql).value, 0).None?)
  }

  /** The child's verdict is the parent's: on every state and text a batch validates exactly when
      applying it gets past every check. */
  lemma ChildAndParentAgree(ts: seq<Table>, syntaxOk: bool, sql: string)
    requires Shape(ts)
    ensures ValidInsert(ts, syntaxOk, sql) <==>
            ApplyInsert(ts, syntaxOk, sql).Inserted? || ApplyInsert(ts, syntaxOk, sql).RowsOverrun?
  {
    hide Batch;
    if ts == [] { NoTablesNoBatch(sql); }
  }

  /** What a text does is what its rows do one at a time. An inserted text leaves the tables of the
      one-by-one insertion. A refused one that fits is refused one by one for the same violation. One
      that would run past a row array is refused one by one. */
  lemma InsertedOneByOne(ts: seq<Table>, syntaxOk: bool, sql: string)
    requires Shape(ts)
    ensures match ApplyInsert(ts, syntaxOk, sql)
            case Inserted(us, n) =>
              && Batch(ts, sql).Ok? && BatchFor(ts, Batch(ts, sql).value) && n == |Batch(ts, sql).value|
              && 1 <= n <= MAX_BATCH_ROWS
              && InsertOneByOne(ts, Batch(ts, sql).value) == Accepted(us)
            case RuleRejected(v) =>
              && Batch(ts, sql).Ok? && BatchFor(ts, Batch(ts, sql).value)
              && if Fits(ts, Batch(ts, sql).value) then InsertOneByOne(ts, Batch(ts, sql).value) == Refused(v)
                 else InsertOneByOne(ts, Batch(ts, sql).value).Refused?
            case RowsOverrun =>
              && Batch(ts, sql).Ok? && BatchFor(ts, Batch(ts, sql).value) && !Fits(ts, Batch(ts, sql).value)
              && InsertOneByOne(ts, Batch(ts, sql).value).Refused?
            case SyntaxRejected => !syntaxOk
            case ParseRejected(e) => Batch(ts, sql) == Err(e)
  {
    hide Batch, InsertOneByOne, Fits;
    if syntaxOk && Batch(ts, sql).Ok? {
      AcceptedBatch(ts, sql);
      BatchIsSequential(ts, Batch(ts, sql).value);
    }
  }

  lemma InsertKeepsIntegrity(ts: seq<Table>, syntaxOk: bool, sql: string)
    requires Shape(ts) && Intact(ts)
    ensures match ApplyInsert(ts, syntaxOk, sql)
            case Inserted(us, _) => Shape(us) && Intact(us)
            case _ => true
  {
    hide Batch;
    if ApplyInsert(ts, syntaxOk, sql).Inserted? {
      AcceptedBatch(ts, sql);
      AcceptedBatchKeepsIntegrity(ts, Batch(ts, sql).value);
    }
  }

  // ---- Whole runs ----

  /** What the worker may do to the tables. */
  datatype Request =
    | Load(root: Option<Json>)
    | Insert(syntaxOk: bool, sql: string)
    | Other  // any other or cancelled request

  /** The tables after one request; `None` once the C program has overrun a buffer. */
  function AfterRequest(ts: seq<Table>, r: Request): Option<seq<Table>>
    requires Shape(ts)
  {
    match r
    case Load(root) => Some(LoadSchema(ts, root).value)
    case Insert(ok, sql) =>
      var o := ApplyInsert(ts, ok, sql);
      if !o.Defined() then None else if o.Inserted? then Some(o.tables) else Some(ts)
    case Other => Some(ts)
  }

  ghost predicate Good(ts: seq<Table>) {
    Shape(ts) && Intact(ts)
  }

  lemma RequestKeepsGood(ts: seq<Table>, r: Request)
    requires Good(ts)
    ensures AfterRequest(ts, r).Some? ==> Good(AfterRequest(ts, r).value)
  {
    hide LoadSchema, ApplyInsert, Intact;
    match r
    case Load(root) =>
      LoadLeaves(ts, root);
      var loaded := LoadSchema(ts, root).value;
      if loaded != ts {
        assert forall t :: 0 <= t < |loaded| ==> LoadedTable(loaded[t]);
        EmptyIntegrity(loaded);
      }
    case Insert(ok, sql) => InsertKeepsIntegrity(ts, ok, sql);
    case Other =>
  }

  /** The tables after a run from the initial, empty store. */
  function AfterRun(requests: seq<Request>): (r: Option<seq<Table>>)
    ensures r.Some? ==> Shape(r.value)
    decreases |requests|
  {
    if requests == [] then Some([])
    else
      var before := AfterRun(requests[..|requests| - 1]);
      var last := requests[|requests| - 1];
      if before.None? then None
      else
        StepShape(before.value, last);
        AfterRequest(before.value, last)
  }

  lemma StepShape(ts: seq<Table>, r: Request)
    requires Shape(ts)
    ensures AfterRequest(ts, r).Some? ==> Shape(AfterRequest(ts, r).value)
  {
    hide LoadSchema, Batch;
    match r
    case Load(root) =>
      LoadLeaves(ts, root);
    case Insert(ok, sql) =>
      if ApplyInsert(ts, ok, sql).Inserted? {
        AcceptedBatch(ts, sql);
        AppendedShape(ts, Batch(ts, sql).value);
      }
    case Other =>
  }

  lemma {:induction false} AppendedWidths(ts: seq<Table>, batch: seq<InsertRow>)
    requires Shape(ts) && BatchFor(ts, batch)
    ensures forall t, r :: 0 <= t < |ts| && 0 <= r < |AppendAll(ts, batch)[t].rows| ==>
              |AppendAll(ts, batch)[t].rows[r]| == |ts[t].columns|
    decreases |batch|
  {
    if batch != [] { AppendedWidths(ts, batch[..|batch| - 1]); }
  }

  lemma AppendedShape(ts: seq<Table>, batch: seq<InsertRow>)
    requires Shape(ts) && BatchFor(ts, batch) && Fits(ts, batch)
    ensures Shape(AppendAll(ts, batch))
  {
    AppendedWidths(ts, batch);
    var us := AppendAll(ts, batch);
    forall t | 0 <= t < |us|
      ensures TableShape(us[t])
    {
      assert TableShape(ts[t]);
    }
  }

  /** Integrity over whole runs: whatever schemas are loaded, completely or half-way, and whatever
      batches are accepted, rejected or cancelled, every stored row obeys every constraint. */
  lemma {:induction false} RunKeepsIntegrity(requests: seq<Request>)
    ensures match AfterRun(requests)
            case Some(ts) => Shape(ts) && Intact(ts)
            case None => true
    decreases |requests|
  {
    if requests == [] {
      EmptyIntegrity([]);
    } else {
      var init := requests[..|requests| - 1];
      RunKeepsIntegrity(init);
      if AfterRun(init).Some? { RequestKeepsGood(AfterRun(init).value, requests[|requests| - 1]); }
    }
  }

  // ---- The store itself ----

  class TableStore {
    const tables: array<Table>
    var tableCount: nat

    predicate Valid()
      reads this, tables
    {
      tables.Length == MAX_TABLES && tableCount <= MAX_TABLES && Shape(tables[..tableCount])
    }

    /** The tables that `find_table` and every other reader can see. */
    function Contents(): (ts: seq<Table>)
      requires Valid()
      reads this, tables
      ensures Shape(ts)
    {
      tables[..tableCount]
    }

    constructor ()
      ensures Valid() && Contents() == []
    {
      tables := new Table[MAX_TABLES](_ => Table("", [], []));
      tableCount := 0;
    }

    /** `load_er_json` on the document's tree. */
    method Load(root: Option<Json>) returns (error: Option<LoadError>)
      requires Valid()
      modifies this, tables
      ensures Valid()
      ensures Loaded(Contents(), error) == LoadSchema(old(Contents()), root)
    {
      hide LoadTable, Shape, ApplyRelations;
      LoadLeaves(Contents(), root);
      if root.None? { return Some(UnreadableFile); }
      var items := Items(root.value, "tables");
      if items.None? { return Some(NoTablesArray); }
      tableCount := 0;
      error := LoadTableList(items.value);
      LoadedShape(tables[..tableCount]);
      if error.Some? { return; }
      var relations := Items(root.value, "relations");
      if relations.Some? { LoadRelationList(relations.value); }
    }

    /** The loop over the table list; a table becomes visible only when all its columns are read. */
    method LoadTableList(items: seq<Json>) returns (error: Option<LoadError>)
      requires tables.Length == MAX_TABLES && tableCount == 0
      modifies this, tables
      ensures tableCount <= MAX_TABLES && LoadedSchema(tables[..tableCount])
      ensures Loaded(tables[..tableCount], error) == LoadTables(items, [])
    {
      hide LoadTable, LoadedTable;
      TablesAsLoaded(items, []);
      var i := 0;
      while i < |items|
        invariant i <= |items| && tableCount <= MAX_TABLES
        invariant LoadTables(items, []) == LoadTables(items[i..], tables[..tableCount])
      {
        if tableCount >= MAX_TABLES { break; }
        assert items[i..][0] == items[i] && items[i..][1..] == items[i + 1..];
        var t := ReadTable(items[i]);
        ghost var before := tables[..tableCount];
        tables[tableCount] := t.value;
        assert tables[..tableCount] == before;
        if t.error.Some? { return t.error; }
        tableCount := tableCount + 1;
        assert tables[..tableCount] == before + [t.value];
        i := i + 1;
      }
      return None;
    }

    method LoadRelationList(relations: seq<Json>)
      requires Valid()
      modifies tables
      ensures Valid() && Contents() == ApplyRelations(old(Contents()), relations)
    {
      hide ApplyRelation, Shape;
      for i := 0 to |relations|
        invariant Valid()
        invariant ApplyRelations(old(Contents()), relations) == ApplyRelations(Contents(), relations[i..])
      {
        assert relations[i..][0] == relations[i] && relations[i..][1..] == relations[i + 1..];
        LoadRelation(relations[i]);
      }
    }

    /** One relation: the column it starts from is pointed at its target, in place. */
    method LoadRelation(j: Json)
      requires Valid()
      modifies tables
      ensures Valid() && Contents() == ApplyRelation(old(Contents()), j)
    {
      hide RelationTarget, RelationSource, TableShape;
      ghost var before := Contents();
      var at := FindRelationSource(Contents(), j);
      if at.Some? {
        var (t, c) := at.value;
        var to := RelationTarget(j);
        var col := tables[t].columns[c].(refTable := to.0, refColumn := to.1);
        tables[t] := tables[t].(columns := tables[t].columns[c := col]);
        assert tables[..tableCount] == Retarget(before, t, c, to);
      }
      RelationKeepsShape(before, j);
    }

    /** `apply_insert_batch`: parse, validate, then append every row in place. */
    method Apply(syntaxOk: bool, sql: string) returns (outcome: InsertOutcome)
      requires Valid()
      modifies tables
      ensures outcome == ApplyInsert(old(Contents()), syntaxOk, sql)
      ensures outcome.Defined() ==>
                Valid() && Contents() == if outcome.Inserted? then outcome.tables else old(Contents())
    {
      hide Batch, BatchViolation, AppendAll, Fits;
      if !syntaxOk { return SyntaxRejected; }
      var batch := new InsertLoops.InsertBatch();
      var ts := Contents();
      var parsed := InsertLoops.ReadBatch(ts, sql, batch);
      if parsed.Err? { return ParseRejected(parsed.error); }
      AcceptedBatch(ts, sql);
      var rows := batch.Rows();
      var violation := ValidateBatchRows(ts, rows);
      if violation.Some? { return RuleRejected(violation.value); }
      var fits := AppendRows(rows);
      if fits {
        AppendedShape(ts, rows);
        return Inserted(tables[..tableCount], |rows|);
      }
      return RowsOverrun;
    }

    method AppendRows(rows: seq<InsertRow>) returns (fits: bool)
      requires Valid() && BatchFor(Contents(), rows)
      modifies tables
      ensures fits <==> Fits(old(Contents()), rows)
      ensures fits ==> tables[..tableCount] == AppendAll(old(Contents()), rows)
    {
      ghost var ts := Contents();
      assert rows[..0] == [];
      for i := 0 to |rows|
        invariant BatchFor(ts, rows[..i]) && Fits(ts, rows[..i])
        invariant tables[..tableCount] == AppendAll(ts, rows[..i])
      {
        var t := rows[i].table;
        CountSplit(rows, i, t);
        assert tables[t] == AppendAll(ts, rows[..i])[t];
        if |tables[t].rows| >= MAX_ROWS { return false; }
        NextFits(ts, rows, i);
        assert rows[..i + 1][..i] == rows[..i];
        tables[t] := tables[t].(rows := tables[t].rows + [rows[i].row]);
        assert tables[..tableCount] == Append(AppendAll(ts, rows[..i]), rows[i]);
      }
      assert rows[..|rows|] == rows;
      return true;
    }
  }

  lemma LoadedShape(ts: seq<Table>)
    requires LoadedSchema(ts)
    ensures Shape(ts)
  {
    forall t | 0 <= t < |ts|
      ensures TableShape(ts[t])
    {
      assert LoadedTable(ts[t]);
    }
  }

  lemma RelationKeepsShape(ts: seq<Table>, j: Json)
    requires Shape(ts)
    ensures Shape(ApplyRelation(ts, j))
  {
    hide RelationSource, RelationTarget;
    var us := ApplyRelation(ts, j);
    forall t | 0 <= t < |us|
      ensures TableShape(us[t])
    {
      assert TableShape(ts[t]);
    }
  }

  method FindRelationSource(ts: seq<Table>, j: Json) returns (at: Option<(nat, nat)>)
    ensures at == RelationSource(ts, j)
  {
    hide SplitQualified, CopyString;
    var from := CopyString(j, "from", MAX_NAME * 2);
    var to := CopyString(j, "to", MAX_NAME * 2);
    if from.None? || to.None? { return None; }
    var qualified := SplitQualified(from.value);
    var t := FindTable(ts, qualified.0);
    if t < 0 { return None; }
    var c := FindColumn(ts[t].columns, qualified.1);
    if c < 0 { return None; }
    return Some((t, c));
  }

  /** One table entry, with the loop over its columns. */
  method ReadTable(j: Json) returns (r: Loaded<Table>)
    ensures r == LoadTable(j)
  {
    hide LoadColumn, CopyString;
    var name := CopyString(j, "name", MAX_NAME);
    var t := Table(if name.Some? then name.value else "", [], []);
    if !j.JObject? { return Loaded(t, Some(TableNotObject)); }
    if name.None? { return Loaded(t, Some(TableWithoutName)); }
    var items := Items(j, "columns");
    if items.None? { return Loaded(t, Some(TableWithoutColumns)); }
    var cols := [];
    var i := 0;
    while i < |items.value|
      invariant i <= |items.value| && |cols| <= MAX_COLUMNS
      invariant LoadColumns(items.value, []) == LoadColumns(items.value[i..], cols)
    {
      if |cols| >= MAX_COLUMNS { break; }
      var item := items.value[i];
      assert items.value[i..][0] == item && items.value[i..][1..] == items.value[i + 1..];
      if !item.JObject? { return Loaded(t, Some(ColumnNotObject)); }
      var c := LoadColumn(item);
      if c.None? { return Loaded(t, Some(ColumnWithoutName)); }
      cols := cols + [c.value];
      i := i + 1;
    }
    if cols == [] { return Loaded(t, Some(TableHasNoColumns)); }
    return Loaded(t.(columns := cols), None);
  }
}
