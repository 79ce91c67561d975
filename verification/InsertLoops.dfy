/** The INSERT reader as the C code runs it: an index moves over the text, values pass through a fixed
    buffer, and rows are appended to the batch in place. Each method computes the function of
    `InsertSyntax` of the same purpose. */
module InsertLoops {
  import opened Schema
  import opened Text
  import opened InsertSyntax

  class InsertBatch {
    const rows: array<InsertRow>
    var count: nat

    predicate Valid()
      reads this
    {
      rows.Length == MAX_BATCH_ROWS && count <= MAX_BATCH_ROWS
    }

    function Rows(): seq<InsertRow>
      requires Valid()
      reads this, rows
    {
      rows[..count]
    }

    constructor ()
      ensures Valid() && Rows() == [] && fresh(rows)
    {
      rows := new InsertRow[MAX_BATCH_ROWS](_ => InsertRow(0, []));
      count := 0;
    }

    method Add(ir: InsertRow)
      requires Valid() && count < MAX_BATCH_ROWS
      modifies this, rows
      ensures Valid() && Rows() == old(Rows()) + [ir]
    {
      rows[count] := ir;
      count := count + 1;
    }
  }

  lemma WordStep(s: string, q: nat, limit: nat)
    requires q <= |s|
    ensures WordRun(s[q..], limit) == if q < |s| && IsWord(s[q]) && limit > 0 then 1 + WordRun(s[q + 1..], limit - 1) else 0
  {
    if q < |s| { Suffix(s, q); }
  }

  method WordRunAt(s: string, p: nat, limit: nat) returns (n: nat)
    requires p <= |s|
    ensures n == WordRun(s[p..], limit)
  {
    hide WordRun, IsWord;
    n := 0;
    while p + n < |s| && IsWord(s[p + n]) && n < limit
      invariant p + n <= |s| && n <= limit
      invariant WordRun(s[p..], limit) == n + WordRun(s[p + n..], limit - n)
    {
      WordStep(s, p + n, limit - n);
      n := n + 1;
    }
    WordStep(s, p + n, limit - n);
  }

  lemma QuotedStep(s: string, q: nat, quote: char, limit: nat)
    requires q <= |s|
    ensures QuotedRun(s[q..], quote, limit) ==
            if q < |s| && s[q] != quote && limit > 0 then 1 + QuotedRun(s[q + 1..], quote, limit - 1) else 0
  {
    if q < |s| { Suffix(s, q); }
  }

  method QuotedRunAt(s: string, p: nat, quote: char, limit: nat) returns (n: nat)
    requires p <= |s|
    ensures n == QuotedRun(s[p..], quote, limit)
  {
    hide QuotedRun;
    n := 0;
    while p + n < |s| && s[p + n] != quote && n < limit
      invariant p + n <= |s| && n <= limit
      invariant QuotedRun(s[p..], quote, limit) == n + QuotedRun(s[p + n..], quote, limit - n)
    {
      QuotedStep(s, p + n, quote, limit - n);
      n := n + 1;
    }
    QuotedStep(s, p + n, quote, limit - n);
  }

  lemma Slice(s: string, p: nat, i: nat, j: nat)
    requires p <= |s| && i <= j <= |s| - p
    ensures s[p..][i..j] == s[p + i..p + j] && s[p..][i..] == s[p + i..]
    ensures i < |s| - p ==> s[p..][i] == s[p + i]
  {
  }

  method ReadDelimited(s: string, p: nat, quote: char) returns (name: Option<string>, q: nat)
    requires p <= |s|
    ensures q <= |s|
    ensures match Delimited(s[p..], quote)
            case None => name == None && q == p
            case Some(found) => name == Some(found.value) && s[q..] == found.rest
  {
    hide QuotedRun;
    var n := QuotedRunAt(s, p, quote, MAX_NAME - 1);
    if n == 0 || p + n >= |s| || s[p + n] != quote { return None, p; }
    Slice(s, p, 0, n);
    Slice(s, p, n, n);
    Slice(s, p, n + 1, n + 1);
    return Some(s[p..p + n]), p + n + 1;
  }

  method ReadBareName(s: string, p: nat) returns (name: Option<string>, q: nat)
    requires p <= |s|
    ensures q <= |s|
    ensures match Bare(s[p..])
            case None => name == None && q == p
            case Some(found) => name == Some(found.value) && s[q..] == found.rest
  {
    hide WordRun;
    var n := WordRunAt(s, p, MAX_NAME - 1);
    if n == 0 { return None, p; }
    Slice(s, p, 0, n);
    Slice(s, p, n, n);
    return Some(s[p..p + n]), p + n;
  }

  method ReadIdentifier(s: string, p: nat) returns (name: Option<string>, q: nat)
    requires p <= |s|
    ensures q <= |s|
    ensures match Identifier(s[p..])
            case None => name == None && q == p
            case Some(found) => name == Some(found.value) && s[q..] == found.rest
  {
    hide Delimited, Bare, SkipWs;
    var start := SkipWsAt(s, p);
    if start < |s| { Suffix(s, start); }
    if start < |s| && (s[start] == '"' || s[start] == '`') {
      name, q := ReadDelimited(s, start + 1, s[start]);
    } else {
      name, q := ReadBareName(s, start);
    }
    if name.None? { q := p; }
  }

  /** The buffer holds as much of `text` as fits. */
  predicate Copied(buf: array<char>, n: nat, text: string)
    reads buf
  {
    n < MAX_VALUE == buf.Length && buf[..n] == Cap(text, MAX_VALUE)
  }

  /** `if (n + 1 < value_len) value[n++] = c;` */
  method Keep(buf: array<char>, n: nat, c: char, ghost text: string) returns (m: nat)
    requires Copied(buf, n, text)
    modifies buf
    ensures Copied(buf, m, text + [c])
  {
    m := n;
    assert |Cap(text, MAX_VALUE)| == n;
    if n + 1 < MAX_VALUE {
      buf[n] := c;
      m := n + 1;
      assert buf[..m] == buf[..n] + [c];
    } else {
      assert Cap(text + [c], MAX_VALUE) == Cap(text, MAX_VALUE);
    }
  }

  lemma LiteralStep(s: string, q: nat)
    requires q < |s|
    ensures var pair := s[q] == '\'' && q + 1 < |s| && s[q + 1] == '\'';
            LiteralBody(s[q..]) ==
            if s[q] == '\'' && !pair then Parsed("", s[q + 1..])
            else
              var tail := LiteralBody(s[if pair then q + 2 else q + 1..]);
              Parsed([s[q]] + tail.value, tail.rest)
  {
    Suffix(s, q);
  }

  lemma Regroup(text: string, c: char, more: string)
    ensures text + ([c] + more) == (text + [c]) + more
  {
  }

  lemma NoText(text: string)
    ensures text + "" == text && "" + text == text
    ensures LiteralBody("") == Parsed("", "")
  {
  }

  /** Copies a literal's characters, as far as they fit, until its closing quote or the end. */
  method ReadLiteral(s: string, p: nat, buf: array<char>) returns (n: nat, q: nat)
    requires p <= |s| && buf.Length == MAX_VALUE
    modifies buf
    ensures p <= q <= |s|
    ensures Copied(buf, n, LiteralBody(s[p..]).value) && s[q..] == LiteralBody(s[p..]).rest
  {
    n, q := 0, p;
    ghost var text := "";
    ghost var body := LiteralBody(s[p..]);
    NoText(body.value);
    assert Copied(buf, 0, "");
    hide LiteralBody, Copied, Cap;
    while q < |s|
      invariant p <= q <= |s|
      invariant Copied(buf, n, text)
      invariant body.rest == LiteralBody(s[q..]).rest && body.value == text + LiteralBody(s[q..]).value
    {
      LiteralStep(s, q);
      var pair := s[q] == '\'' && q + 1 < |s| && s[q + 1] == '\'';
      if s[q] == '\'' && !pair {
        q := q + 1;
        NoText(text);
        return;
      }
      n := Keep(buf, n, s[q], text);
      ghost var c := s[q];
      q := if pair then q + 2 else q + 1;
      Regroup(text, c, LiteralBody(s[q..]).value);
      text := text + [c];
    }
    NoText(text);
    assert s[q..] == "";
  }

  lemma NoSlice(s: string, p: nat)
    requires p <= |s|
    ensures s[p..p] == ""
  {
  }

  lemma LongerSlice(s: string, p: nat, q: nat)
    requires p <= q < |s|
    ensures s[p..q + 1] == s[p..q] + [s[q]]
  {
  }

  lemma BareStep(s: string, q: nat)
    requires q <= |s|
    ensures BareRun(s[q..]) == if q < |s| && s[q] != ',' && s[q] != ')' then 1 + BareRun(s[q + 1..]) else 0
  {
    if q < |s| { Suffix(s, q); }
  }

  /** Copies a bare value's characters, as far as they fit, up to a comma or parenthesis. */
  method ReadBare(s: string, p: nat, buf: array<char>) returns (n: nat, q: nat)
    requires p <= |s| && buf.Length == MAX_VALUE
    modifies buf
    ensures p <= q <= |s| && q == p + BareRun(s[p..]) && Copied(buf, n, s[p..q])
  {
    n, q := 0, p;
    assert Copied(buf, 0, "");
    hide Copied, BareRun, Cap;
    NoSlice(s, p);
    while q < |s| && s[q] != ',' && s[q] != ')'
      invariant p <= q <= |s|
      invariant Copied(buf, n, s[p..q])
      invariant BareRun(s[p..]) == q - p + BareRun(s[q..])
    {
      BareStep(s, q);
      LongerSlice(s, p, q);
      n := Keep(buf, n, s[q], s[p..q]);
      q := q + 1;
    }
    BareStep(s, q);
  }

  /** `Value` at position `p`, whose first visible character is at `start`. */
  lemma ValueAt(s: string, p: nat, start: nat)
    requires p <= start <= |s| && s[start..] == SkipWs(s[p..])
    ensures Value(s[p..]) ==
            if start < |s| && s[start] == '\'' then
              var lit := LiteralBody(s[start + 1..]);
              Parsed(CellOf(lit.value), lit.rest)
            else
              var q := start + BareRun(s[start..]);
              Parsed(CellOf(s[start..q]), s[q..])
  {
    hide SkipWs, LiteralBody, BareRun, CellOf;
    if start < |s| && s[start] == '\'' {
      Suffix(s, start);
    } else {
      var n := BareRun(s[start..]);
      Slice(s, start, 0, n);
      Slice(s, start, n, n);
    }
  }

  method ReadValue(s: string, p: nat) returns (cell: Cell, q: nat)
    requires p <= |s|
    ensures p <= q <= |s| && Value(s[p..]) == Parsed(cell, s[q..])
  {
    hide SkipWs, LiteralBody, BareRun, Trim, Cap, Value;
    var buf := new char[MAX_VALUE];
    var start := SkipWsAt(s, p);
    ValueAt(s, p, start);
    var n;
    ghost var raw;
    if start < |s| && s[start] == '\'' {
      raw := LiteralBody(s[start + 1..]).value;
      n, q := ReadLiteral(s, start + 1, buf);
    } else {
      n, q := ReadBare(s, start, buf);
      raw := s[start..q];
    }
    n := TrimInPlace(buf, n);
    cell := if buf[..n] == "NULL" then Null else Text(buf[..n]);
    assert cell == CellOf(raw);
  }

  method ReadColumnList(cols: seq<Column>, s: string, p: nat) returns (r: Result<seq<nat>>, q: nat)
    requires p <= |s|
    ensures q <= |s|
    ensures match ColumnList(cols, s[p..], [])
            case Err(e) => r == Err(e)
            case Ok(list) => r == Ok(list.value) && s[q..] == list.rest
  {
    hide Identifier, SkipWs, ColumnIndex, ColumnList, MapFor;
    var columnMap := new nat[MAX_COLUMNS];
    var count := 0;
    q := p;
    assert columnMap[..0] == [];
    MapGrows([], |cols|, 0);
    while q < |s| && s[q] != ')'
      invariant q <= |s| && count <= MAX_COLUMNS
      invariant MapFor(columnMap[..count], |cols|)
      invariant ColumnList(cols, s[p..], []) == ColumnList(cols, s[q..], columnMap[..count])
      decreases |s| - q
    {
      ghost var before := columnMap[..count];
      var name, after := ReadIdentifier(s, q);
      if name.None? {
        ColumnListStep(cols, s[q..], before);
        return Err(ExpectedColumnName), q;
      }
      var c := FindColumn(cols, name.value);
      var here := q;
      q := SkipWsAt(s, after);
      ColumnListStep(cols, s[here..], before);
      if c < 0 { return Err(UnknownColumn), q; }
      if count == MAX_COLUMNS { return Err(ColumnMapOverrun), q; }
      columnMap[count] := c;
      count := count + 1;
      assert columnMap[..count] == before + [c];
      MapGrows(before, |cols|, c);
      if q < |s| { Suffix(s, q); }
      if q < |s| && s[q] == ',' {
        q := q + 1;
      } else if q == |s| || s[q] != ')' {
        return Err(ExpectedCommaInColumns), q;
      }
    }
    ColumnListEnd(cols, s, q, columnMap[..count]);
    if q == |s| { return Err(UnterminatedColumns), q; }
    return Ok(columnMap[..count]), q + 1;
  }

  lemma MapGrows(acc: seq<nat>, width: nat, c: nat)
    ensures MapFor([], width)
    ensures MapFor(acc, width) && |acc| < MAX_COLUMNS && c < width ==> MapFor(acc + [c], width)
  {
  }

  /** One turn of the column loop. */
  lemma ColumnListStep(cols: seq<Column>, text: string, acc: seq<nat>)
    requires MapFor(acc, |cols|) && text != "" && text[0] != ')'
    ensures match Identifier(text)
            case None => ColumnList(cols, text, acc) == Err(ExpectedColumnName)
            case Some(name) =>
              var c := ColumnIndex(cols, name.value);
              if c < 0 then ColumnList(cols, text, acc) == Err(UnknownColumn)
              else if |acc| >= MAX_COLUMNS then ColumnList(cols, text, acc) == Err(ColumnMapOverrun)
              else
                var s := SkipWs(name.rest);
                ColumnList(cols, text, acc) ==
                if s != "" && s[0] == ',' then ColumnList(cols, s[1..], acc + [c])
                else if s != "" && s[0] == ')' then ColumnList(cols, s, acc + [c])
                else Err(ExpectedCommaInColumns)
  {
    hide Identifier, SkipWs, ColumnIndex;
  }

  lemma ColumnListEnd(cols: seq<Column>, s: string, q: nat, acc: seq<nat>)
    requires MapFor(acc, |cols|) && q <= |s| && (q < |s| ==> s[q] == ')')
    ensures ColumnList(cols, s[q..], acc) ==
            if q == |s| then Err(UnterminatedColumns) else Ok(Parsed(acc, s[q + 1..]))
  {
    if q < |s| { Suffix(s, q); }
  }

  method ReadTuple(listed: seq<nat>, width: nat, s: string, p: nat) returns (r: Result<Row>, q: nat)
    requires p <= |s| && MapFor(listed, width)
    ensures q <= |s|
    ensures match Tuple(listed, s[p..], 0, NullRow(width))
            case Err(e) => r == Err(e)
            case Ok(t) => r == Ok(t.value) && s[q..] == t.rest
  {
    hide Tuple, Value, SkipWs;
    var row := NullRow(width);
    var k := 0;
    q := p;
    while q < |s| && s[q] != ')'
      invariant p <= q <= |s| && k <= |listed| && |row| == width
      invariant Tuple(listed, s[p..], 0, NullRow(width)) == Tuple(listed, s[q..], k, row)
      decreases |s| - q
    {
      TupleStep(listed, s[q..], k, row);
      if k >= |listed| { return Err(TooManyValues), q; }
      var cell, after := ReadValue(s, q);
      row := row[listed[k] := cell];
      k := k + 1;
      ghost var here := q;
      q := SkipWsAt(s, after);
      if q < |s| { Suffix(s, q); }
      if q < |s| && s[q] == ',' {
        q := q + 1;
      } else if q == |s| || s[q] != ')' {
        return Err(ExpectedCommaInTuple), q;
      } else {
        Progress(s, here, after, q);
      }
    }
    TupleEnd(listed, s, q, k, row);
    if q == |s| { return Err(UnterminatedTuple), q; }
    if k != |listed| { return Err(CountsDiffer), q; }
    return Ok(row), q + 1;
  }

  /** Reading a value and the blanks after it moves on unless the value is followed by a comma. */
  lemma Progress(s: string, here: nat, after: nat, q: nat)
    requires here < |s| && s[here] != ')' && here <= after <= q < |s| && s[q] == ')'
    ensures here < q
  {
  }

  lemma TupleStep(listed: seq<nat>, text: string, k: nat, row: Row)
    requires k <= |listed| && forall j :: 0 <= j < |listed| ==> listed[j] < |row|
    requires text != "" && text[0] != ')'
    ensures if k == |listed| then Tuple(listed, text, k, row) == Err(TooManyValues)
            else
              var placed := row[listed[k] := Value(text).value];
              var s := SkipWs(Value(text).rest);
              Tuple(listed, text, k, row) ==
              if s != "" && s[0] == ',' then Tuple(listed, s[1..], k + 1, placed)
              else if s != "" && s[0] == ')' then Tuple(listed, s, k + 1, placed)
              else Err(ExpectedCommaInTuple)
  {
    hide Value, SkipWs;
  }

  lemma TupleEnd(listed: seq<nat>, s: string, q: nat, k: nat, row: Row)
    requires k <= |listed| && forall j :: 0 <= j < |listed| ==> listed[j] < |row|
    requires q <= |s| && (q < |s| ==> s[q] == ')')
    ensures Tuple(listed, s[q..], k, row) ==
            if q == |s| then Err(UnterminatedTuple)
            else if k == |listed| then Ok(Parsed(row, s[q + 1..])) else Err(CountsDiffer)
  {
    if q < |s| { Suffix(s, q); }
  }

  method ReadTuples(t: nat, width: nat, listed: seq<nat>, s: string, p: nat, batch: InsertBatch) returns (r: Result<()>)
    requires p <= |s| && MapFor(listed, width) && batch.Valid()
    modifies batch, batch.rows
    ensures batch.Valid()
    ensures match Tuples(t, width, listed, s[p..], old(batch.Rows()))
            case Err(e) => r == Err(e)
            case Ok(rows) => r == Ok(()) && batch.Rows() == rows
  {
    hide Tuples, Tuple, SkipWs, NullRow;
    var q := p;
    ghost var start := batch.Rows();
    while true
      invariant p <= q <= |s| && batch.Valid()
      invariant Tuples(t, width, listed, s[p..], start) == Tuples(t, width, listed, s[q..], batch.Rows())
      decreases |s| - q
    {
      TuplesStep(t, width, listed, s[q..], batch.Rows());
      q := SkipWsAt(s, q);
      if q == |s| { return Ok(()); }
      Suffix(s, q);
      if s[q] == ',' {
        q := q + 1;
        continue;
      }
      if s[q] != '(' { return Err(ExpectedTuple); }
      if batch.count >= MAX_BATCH_ROWS { return Err(TooManyRows); }
      var row, after := ReadTuple(listed, width, s, q + 1);
      if row.Err? { return Err(row.error); }
      batch.Add(InsertRow(t, row.value));
      assert |s[after..]| < |s[q + 1..]|;
      q := after;
    }
  }

  lemma TuplesStep(t: nat, width: nat, listed: seq<nat>, text: string, batch: seq<InsertRow>)
    requires MapFor(listed, width)
    ensures var s := SkipWs(text);
            Tuples(t, width, listed, text, batch) ==
            if s == "" then Ok(batch)
            else if s[0] == ',' then Tuples(t, width, listed, s[1..], batch)
            else if s[0] != '(' then Err(ExpectedTuple)
            else if |batch| >= MAX_BATCH_ROWS then Err(TooManyRows)
            else
              var r := Tuple(listed, s[1..], 0, NullRow(width));
              if r.Err? then Err(r.error)
              else Tuples(t, width, listed, r.value.rest, batch + [InsertRow(t, r.value.value)])
  {
    hide Tuple, SkipWs, NullRow;
  }

  method ReadStatement(ts: seq<Table>, stmt: string, batch: InsertBatch) returns (r: Result<()>)
    requires Shape(ts) && batch.Valid()
    modifies batch, batch.rows
    ensures batch.Valid()
    ensures match Statement(ts, stmt, old(batch.Rows()))
            case Err(e) => r == Err(e)
            case Ok(rows) => r == Ok(()) && batch.Rows() == rows
  {
    var p := SkipWsAt(stmt, 0);
    assert stmt[0..] == stmt;
    if p == |stmt| { return Ok(()); }
    var insert := StartsCIAt(stmt, p, "insert");
    if !insert { return Err(NotInsert); }
    StartsCILength(stmt[p..], "insert");
    assert stmt[p..][6..] == stmt[p + 6..];
    p := SkipWsAt(stmt, p + 6);
    r := ReadAfterInsert(ts, stmt, p, batch);
  }

  method ReadAfterInsert(ts: seq<Table>, s: string, p: nat, batch: InsertBatch) returns (r: Result<()>)
    requires Shape(ts) && batch.Valid() && p <= |s|
    modifies batch, batch.rows
    ensures batch.Valid()
    ensures match AfterInsert(ts, s[p..], old(batch.Rows()))
            case Err(e) => r == Err(e)
            case Ok(rows) => r == Ok(()) && batch.Rows() == rows
  {
    var into := StartsCIAt(s, p, "into");
    if !into { return Err(ExpectedInto); }
    StartsCILength(s[p..], "into");
    assert s[p..][4..] == s[p + 4..];
    var name, q := ReadIdentifier(s, p + 4);
    if name.None? { return Err(ExpectedTableName); }
    var t := FindTable(ts, name.value);
    if t < 0 { return Err(UnknownTable); }
    q := SkipWsAt(s, q);
    r := ReadAfterTable(ts, t, s, q, batch);
  }

  method ReadAfterTable(ts: seq<Table>, t: nat, s: string, p: nat, batch: InsertBatch) returns (r: Result<()>)
    requires Shape(ts) && batch.Valid() && p <= |s| && t < |ts|
    modifies batch, batch.rows
    ensures batch.Valid()
    ensures match AfterTable(ts, t, s[p..], old(batch.Rows()))
            case Err(e) => r == Err(e)
            case Ok(rows) => r == Ok(()) && batch.Rows() == rows
  {
    hide Rows, ColumnList;
    var cols := ts[t].columns;
    var listed := AllColumns(|cols|);
    var q := p;
    if p < |s| && s[p] == '(' {
      Suffix(s, p);
      var list, after := ReadColumnList(cols, s, p + 1);
      if list.Err? { return Err(list.error); }
      listed, q := list.value, after;
    }
    r := ReadRows(t, |cols|, listed, s, q, batch);
  }

  method ReadRows(t: nat, width: nat, listed: seq<nat>, s: string, p: nat, batch: InsertBatch) returns (r: Result<()>)
    requires p <= |s| && MapFor(listed, width) && batch.Valid()
    modifies batch, batch.rows
    ensures batch.Valid()
    ensures match Rows(t, width, listed, s[p..], old(batch.Rows()))
            case Err(e) => r == Err(e)
            case Ok(rows) => r == Ok(()) && batch.Rows() == rows
  {
    hide Tuples, FindCI;
    var v := FindCIAt(s, p, "values");
    if v == |s| { return Err(ExpectedValues); }
    StartsCILength(s[v..], "values");
    assert s[v..][6..] == s[v + 6..];
    r := ReadTuples(t, width, listed, s, v + 6, batch);
  }

  method ReadBatch(ts: seq<Table>, sql: string, batch: InsertBatch) returns (r: Result<()>)
    requires Shape(ts) && batch.Valid() && batch.Rows() == []
    modifies batch, batch.rows
    ensures batch.Valid()
    ensures match Batch(ts, sql)
            case Err(e) => r == Err(e)
            case Ok(rows) => r == Ok(()) && batch.Rows() == rows
  {
    hide Statements, Statement, SplitFrom, Trim, AfterBackslash, Shape;
    var start, p := 0, 0;
    var inString := false;
    assert sql[0..] == sql && sql[0..0] == "" && !AfterBackslash(sql, 0) by { NothingBefore(sql); }
    while true
      invariant start <= p <= |sql| && batch.Valid()
      invariant Statements(ts, Split(sql), []) ==
                Statements(ts, SplitFrom(sql[p..], AfterBackslash(sql, p), inString, sql[start..p]), batch.Rows())
      decreases |sql| - p
    {
      SplitStep(sql, start, p, inString);
      if p < |sql| && sql[p] == '\'' && (p == 0 || sql[p - 1] != '\\') { inString := !inString; }
      if p == |sql| || (sql[p] == ';' && !inString) {
        ghost var more := if p == |sql| then []
                          else SplitFrom(sql[p + 1..], AfterBackslash(sql, p + 1), inString, sql[p + 1..p + 1]);
        StatementsStep(ts, sql[start..p], more, batch.Rows());
        if p - start >= MAX_STATEMENT { return Err(StatementTooLarge); }
        var one := ReadSlice(ts, sql[start..p], batch);
        if one.Err? { return Err(one.error); }
        if p == |sql| {
          StatementsEnd(ts, batch.Rows());
          break;
        }
        start := p + 1;
      }
      p := p + 1;
    }
    if batch.count == 0 { return Err(EmptyBatch); }
    return Ok(());
  }

  predicate AfterBackslash(sql: string, p: nat)
    requires p <= |sql|
  {
    p > 0 && sql[p - 1] == '\\'
  }

  lemma NothingBefore(sql: string)
    ensures sql[0..] == sql && sql[0..0] == "" && !AfterBackslash(sql, 0)
  {
  }

  /** One turn of the splitting loop. */
  lemma SplitStep(sql: string, start: nat, p: nat, inString: bool)
    requires start <= p <= |sql|
    ensures SplitFrom(sql[p..], AfterBackslash(sql, p), inString, sql[start..p]) ==
            if p == |sql| then [sql[start..p]] + []
            else
              var quoted := if sql[p] == '\'' && (p == 0 || sql[p - 1] != '\\') then !inString else inString;
              if sql[p] == ';' && !quoted then
                [sql[start..p]] + SplitFrom(sql[p + 1..], AfterBackslash(sql, p + 1), quoted, sql[p + 1..p + 1])
              else SplitFrom(sql[p + 1..], AfterBackslash(sql, p + 1), quoted, sql[start..p + 1])
  {
    if p < |sql| {
      Suffix(sql, p);
      assert sql[start..p + 1] == sql[start..p] + [sql[p]];
      assert sql[p + 1..p + 1] == "";
    } else {
      assert sql[p..] == "";
    }
  }

  lemma StatementsStep(ts: seq<Table>, slice: string, more: seq<string>, batch: seq<InsertRow>)
    requires Shape(ts)
    ensures Statements(ts, [slice] + more, batch) ==
            if |slice| >= MAX_STATEMENT then Err(StatementTooLarge)
            else
              var r := Statement(ts, Trim(slice), batch);
              if r.Err? then Err(r.error) else Statements(ts, more, r.value)
  {
    hide Statement, Trim;
    assert ([slice] + more)[1..] == more;
  }

  lemma StatementsEnd(ts: seq<Table>, batch: seq<InsertRow>)
    requires Shape(ts)
    ensures Statements(ts, [], batch) == Ok(batch)
  {
  }

  /** One raw slice: trimmed, and read as a statement unless nothing is left of it. */
  method ReadSlice(ts: seq<Table>, slice: string, batch: InsertBatch) returns (r: Result<()>)
    requires Shape(ts) && batch.Valid()
    modifies batch, batch.rows
    ensures batch.Valid()
    ensures match Statement(ts, Trim(slice), old(batch.Rows()))
            case Err(e) => r == Err(e)
            case Ok(rows) => r == Ok(()) && batch.Rows() == rows
  {
    var stmt := new char[|slice|](i requires 0 <= i < |slice| => slice[i]);
    assert stmt[..|slice|] == slice;
    var n := TrimInPlace(stmt, |slice|);
    if n == 0 {
      assert Trim(slice) == "";
      return Ok(());
    }
    r := ReadStatement(ts, stmt[..n], batch);
  }
}
