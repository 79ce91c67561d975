/** The INSERT reader as functions from text to the rows it denotes. The loops that compute it are in
    `InsertLoops`; what it does to printed rows is in `InsertRoundTrip`. */
module InsertSyntax {
  import opened Schema
  import opened Text

  const MAX_STATEMENT: nat := 16384

  datatype ParseError =
    | NotInsert
    | ExpectedInto
    | ExpectedTableName
    | UnknownTable
    | ExpectedColumnName
    | UnknownColumn
    | ColumnMapOverrun  // the C code writes past `column_map[MAX_COLUMNS]` here
    | ExpectedCommaInColumns
    | UnterminatedColumns
    | ExpectedValues
    | ExpectedTuple
    | TooManyRows
    | TooManyValues
    | ExpectedCommaInTuple
    | UnterminatedTuple
    | CountsDiffer
    | StatementTooLarge
    | EmptyBatch

  datatype Result<+T> = Ok(value: T) | Err(error: ParseError)

  // ---- Identifiers ----

  /** How many leading word characters, up to `limit`. */
  function WordRun(s: string, limit: nat): (n: nat)
    ensures n <= |s| && n <= limit
    ensures forall i :: 0 <= i < n ==> IsWord(s[i])
  {
    if limit == 0 || s == "" || !IsWord(s[0]) then 0 else 1 + WordRun(s[1..], limit - 1)
  }

  /** How many leading characters other than `quote`, up to `limit`. */
  function QuotedRun(s: string, quote: char, limit: nat): (n: nat)
    ensures n <= |s| && n <= limit
    ensures forall i :: 0 <= i < n ==> s[i] != quote
  {
    if limit == 0 || s == "" || s[0] == quote then 0 else 1 + QuotedRun(s[1..], quote, limit - 1)
  }

  /** A delimited identifier, after its opening quote. */
  function Delimited(s: string, quote: char): (r: Option<Parsed<string>>)
    ensures r.Some? ==> 1 <= |r.value.value| < MAX_NAME && |r.value.rest| < |s|
  {
    var n := QuotedRun(s, quote, MAX_NAME - 1);
    if 0 < n < |s| && s[n] == quote then Some(Parsed(s[..n], s[n + 1..])) else None
  }

  function Bare(s: string): (r: Option<Parsed<string>>)
    ensures r.Some? ==> 1 <= |r.value.value| < MAX_NAME && |r.value.rest| < |s|
  {
    var n := WordRun(s, MAX_NAME - 1);
    if n > 0 then Some(Parsed(s[..n], s[n..])) else None
  }

  function Identifier(text: string): (r: Option<Parsed<string>>)
    ensures r.Some? ==> 1 <= |r.value.value| < MAX_NAME && |r.value.rest| < |text|
  {
    var s := SkipWs(text);
    if s != "" && (s[0] == '"' || s[0] == '`') then Delimited(s[1..], s[0]) else Bare(s)
  }

  // ---- Values ----

  /** The rest of a quoted literal: `''` stands for a quote, a lone quote ends it. An unterminated
      literal runs to the end of the text. */
  function LiteralBody(s: string): (r: Parsed<string>)
    ensures |r.rest| <= |s|
    ensures s != "" ==> |r.rest| < |s|
  {
    if s == "" then Parsed("", "")
    else if s[0] == '\'' then
      if |s| > 1 && s[1] == '\'' then
        var tail := LiteralBody(s[2..]);
        Parsed("'" + tail.value, tail.rest)
      else Parsed("", s[1..])
    else
      var tail := LiteralBody(s[1..]);
      Parsed([s[0]] + tail.value, tail.rest)
  }

  function BareRun(s: string): (n: nat)
    ensures n <= |s|
    ensures n < |s| ==> s[n] == ',' || s[n] == ')'
    ensures n == 0 && s != "" ==> s[0] == ',' || s[0] == ')'
  {
    if s == "" || s[0] == ',' || s[0] == ')' then 0 else 1 + BareRun(s[1..])
  }

  /** A value's text as stored: cut to the buffer, trimmed, and NULL when it reads NULL. */
  function CellOf(raw: string): (c: Cell)
    ensures c.Text? ==> |c.text| < MAX_VALUE && Trimmed(c.text) && c.text != "NULL"
  {
    var v := Trim(Cap(raw, MAX_VALUE));
    if v == "NULL" then Null else Text(v)
  }

  function Value(text: string): (r: Parsed<Cell>)
    ensures |r.rest| <= |text|
    ensures |r.rest| == |text| && text != "" ==> text[0] == ',' || text[0] == ')'
    ensures r.value.Text? ==> |r.value.text| < MAX_VALUE
  {
    var s := SkipWs(text);
    if s != "" && s[0] == '\'' then
      var lit := LiteralBody(s[1..]);
      Parsed(CellOf(lit.value), lit.rest)
    else
      var n := BareRun(s);
      Parsed(CellOf(s[..n]), s[n..])
  }

  // ---- Lists ----

  /** The column list after its opening parenthesis; `acc` holds the columns listed so far. */
  function ColumnList(cols: seq<Column>, text: string, acc: seq<nat>): (r: Result<Parsed<seq<nat>>>)
    requires MapFor(acc, |cols|)
    ensures r.Ok? ==> |r.value.rest| < |text| && MapFor(r.value.value, |cols|)
    decreases |text|
  {
    if text == "" then Err(UnterminatedColumns)
    else if text[0] == ')' then Ok(Parsed(acc, text[1..]))
    else
      match Identifier(text)
      case None => Err(ExpectedColumnName)
      case Some(name) =>
        var c := ColumnIndex(cols, name.value);
        if c < 0 then Err(UnknownColumn)
        else if |acc| >= MAX_COLUMNS then Err(ColumnMapOverrun)
        else
          var s := SkipWs(name.rest);
          if s != "" && s[0] == ',' then ColumnList(cols, s[1..], acc + [c])
          else if s != "" && s[0] == ')' then Ok(Parsed(acc + [c], s[1..]))
          else Err(ExpectedCommaInColumns)
  }

  /** One tuple after its opening parenthesis; `k` values are already placed in `row`. */
  function Tuple(listed: seq<nat>, text: string, k: nat, row: Row): (r: Result<Parsed<Row>>)
    requires k <= |listed| && forall j :: 0 <= j < |listed| ==> listed[j] < |row|
    ensures r.Ok? ==> |r.value.rest| < |text| && |r.value.value| == |row|
    decreases |text|
  {
    if text == "" then Err(UnterminatedTuple)
    else if text[0] == ')' then if k == |listed| then Ok(Parsed(row, text[1..])) else Err(CountsDiffer)
    else if k == |listed| then Err(TooManyValues)
    else
      var v := Value(text);
      var placed := row[listed[k] := v.value];
      var s := SkipWs(v.rest);
      if s == "" then Err(ExpectedCommaInTuple)
      else if s[0] == ',' then Tuple(listed, s[1..], k + 1, placed)
      else if s[0] == ')' then if k + 1 == |listed| then Ok(Parsed(placed, s[1..])) else Err(CountsDiffer)
      else Err(ExpectedCommaInTuple)
  }

  function NullRow(n: nat): (r: Row)
    ensures |r| == n && forall i :: 0 <= i < n ==> r[i] == Null
  {
    seq(n, _ => Null)
  }

  predicate MapFor(listed: seq<nat>, width: nat) {
    |listed| <= MAX_COLUMNS && forall j :: 0 <= j < |listed| ==> listed[j] < width
  }

  /** The tuples after VALUES, added to the rows already in the batch. */
  function Tuples(t: nat, width: nat, listed: seq<nat>, text: string, batch: seq<InsertRow>): Result<seq<InsertRow>>
    requires MapFor(listed, width)
    decreases |text|
  {
    var s := SkipWs(text);
    if s == "" then Ok(batch)
    else if s[0] == ',' then Tuples(t, width, listed, s[1..], batch)
    else if s[0] != '(' then Err(ExpectedTuple)
    else if |batch| >= MAX_BATCH_ROWS then Err(TooManyRows)
    else
      match Tuple(listed, s[1..], 0, NullRow(width))
      case Err(e) => Err(e)
      case Ok(p) =>
        Tuples(t, width, listed, p.rest, batch + [InsertRow(t, p.value)])
  }

  // ---- Statements ----

  /** From the end of the column list to the end of the statement: everything up to the first
      `values`, whatever it is, is skipped. */
  function Rows(t: nat, width: nat, listed: seq<nat>, text: string, batch: seq<InsertRow>): Result<seq<InsertRow>>
    requires MapFor(listed, width)
  {
    var v := FindCI(text, "values");
    if v == "" then Err(ExpectedValues)
    else
      StartsCILength(v, "values");
      Tuples(t, width, listed, v[6..], batch)
  }

  function AllColumns(width: nat): (r: seq<nat>)
    ensures |r| == width && forall i :: 0 <= i < width ==> r[i] == i
  {
    seq(width, i requires 0 <= i < width => i)
  }

  /** One INSERT statement: its rows after those of the statements before it. */
  function Statement(ts: seq<Table>, stmt: string, batch: seq<InsertRow>): Result<seq<InsertRow>>
    requires Shape(ts)
  {
    var s := SkipWs(stmt);
    if s == "" then Ok(batch)
    else if !StartsCI(s, "insert") then Err(NotInsert)
    else
      StartsCILength(s, "insert");
      AfterInsert(ts, SkipWs(s[6..]), batch)
  }

  function AfterInsert(ts: seq<Table>, s: string, batch: seq<InsertRow>): Result<seq<InsertRow>>
    requires Shape(ts)
  {
    if !StartsCI(s, "into") then Err(ExpectedInto)
    else
      StartsCILength(s, "into");
      match Identifier(s[4..])
      case None => Err(ExpectedTableName)
      case Some(name) =>
        var t := TableIndex(ts, name.value);
        if t < 0 then Err(UnknownTable) else AfterTable(ts, t, SkipWs(name.rest), batch)
  }

  function AfterTable(ts: seq<Table>, t: nat, s: string, batch: seq<InsertRow>): Result<seq<InsertRow>>
    requires Shape(ts) && t < |ts|
  {
    var cols := ts[t].columns;
    if s != "" && s[0] == '(' then
      match ColumnList(cols, s[1..], [])
      case Err(e) => Err(e)
      case Ok(list) => Rows(t, |cols|, list.value, list.rest, batch)
    else Rows(t, |cols|, AllColumns(|cols|), s, batch)
  }

  // ---- The batch ----

  /** The raw statements: a `;` separates them unless the quote flag is up. The flag flips at every
      quote that does not follow a backslash. `cur` is the statement read so far. */
  function SplitFrom(s: string, afterBackslash: bool, inString: bool, cur: string): (r: seq<string>)
    ensures r != []
  {
    if s == "" then [cur]
    else
      var quoted := if s[0] == '\'' && !afterBackslash then !inString else inString;
      if s[0] == ';' && !quoted then [cur] + SplitFrom(s[1..], false, quoted, "")
      else SplitFrom(s[1..], s[0] == '\\', quoted, cur + [s[0]])
  }

  function Split(sql: string): seq<string> {
    SplitFrom(sql, false, false, "")
  }

  function Statements(ts: seq<Table>, slices: seq<string>, batch: seq<InsertRow>): Result<seq<InsertRow>>
    requires Shape(ts)
  {
    if slices == [] then Ok(batch)
    else if |slices[0]| >= MAX_STATEMENT then Err(StatementTooLarge)
    else
      match Statement(ts, Trim(slices[0]), batch)
      case Err(e) => Err(e)
      case Ok(b) => Statements(ts, slices[1..], b)
  }

  function Batch(ts: seq<Table>, sql: string): Result<seq<InsertRow>>
    requires Shape(ts)
  {
    match Statements(ts, Split(sql), [])
    case Err(e) => Err(e)
    case Ok(b) => if b == [] then Err(EmptyBatch) else Ok(b)
  }
}
