/** Printing rows as INSERT statements and reading them back. Quotes inside a value are doubled, as
    section 5.3 of ISO/IEC 9075-2 prescribes for character string literals. */
module InsertRoundTrip {
  import opened Schema
  import opened Text
  import opened InsertSyntax
  import opened InsertTotality

  /** `INSERT INTO table (listed columns) VALUES tuples`. */
  datatype Insert = Insert(table: nat, listed: seq<nat>, tuples: seq<seq<Cell>>)

  function Doubled(v: string): string {
    if v == "" then "" else (if v[0] == '\'' then "''" else [v[0]]) + Doubled(v[1..])
  }

  function PrintCell(c: Cell): string {
    match c
    case Null => "NULL"
    case Text(v) => "'" + Doubled(v) + "'"
  }

  function PrintCells(cells: seq<Cell>): string {
    if cells == [] then ""
    else if |cells| == 1 then PrintCell(cells[0])
    else PrintCell(cells[0]) + ", " + PrintCells(cells[1..])
  }

  function PrintTuples(tuples: seq<seq<Cell>>): string {
    if tuples == [] then ""
    else if |tuples| == 1 then "(" + PrintCells(tuples[0]) + ")"
    else "(" + PrintCells(tuples[0]) + "), " + PrintTuples(tuples[1..])
  }

  function PrintNames(cols: seq<Column>, listed: seq<nat>): string
    requires forall j :: 0 <= j < |listed| ==> listed[j] < |cols|
  {
    if listed == [] then ""
    else if |listed| == 1 then cols[listed[0]].name
    else cols[listed[0]].name + ", " + PrintNames(cols, listed[1..])
  }

  function PrintInsert(ts: seq<Table>, st: Insert): string
    requires Printable(ts, st)
  {
    InsertHead(ts, st) + PrintTuples(st.tuples)
  }

  function InsertHead(ts: seq<Table>, st: Insert): string
    requires Printable(ts, st)
  {
    "INSERT INTO " + ts[st.table].name + " (" + PrintNames(ts[st.table].columns, st.listed) + ") VALUES "
  }

  function PrintBatch(ts: seq<Table>, sts: seq<Insert>): string
    requires forall i :: 0 <= i < |sts| ==> Printable(ts, sts[i])
  {
    if sts == [] then ""
    else if |sts| == 1 then PrintInsert(ts, sts[0])
    else PrintInsert(ts, sts[0]) + ";\n" + PrintBatch(ts, sts[1..])
  }

  predicate WordName(name: string) {
    1 <= |name| < MAX_NAME && forall i :: 0 <= i < |name| ==> IsWord(name[i])
  }

  /** The statement names an existing table and columns by bare names, and every tuple has one value
      for each listed column. */
  predicate Printable(ts: seq<Table>, st: Insert) {
    && st.table < |ts|
    && WordName(ts[st.table].name) && TableIndex(ts, ts[st.table].name) == st.table
    && NamesFor(ts[st.table].columns, st.listed)
    && st.tuples != []
    && forall i :: 0 <= i < |st.tuples| ==> |st.tuples[i]| == |st.listed|
  }

  predicate NamesFor(cols: seq<Column>, listed: seq<nat>) {
    forall j :: 0 <= j < |listed| ==>
      listed[j] < |cols| && WordName(cols[listed[j]].name) && ColumnIndex(cols, cols[listed[j]].name) == listed[j]
  }

  // ---- One value ----

  lemma {:induction false} LiteralRead(v: string, rest: string)
    requires rest == "" || rest[0] != '\''
    ensures LiteralBody(Doubled(v) + "'" + rest) == Parsed(v, rest)
    decreases |v|
  {
    var s := Doubled(v) + "'" + rest;
    if v == "" {
      assert s == "'" + rest && s[1..] == rest;
    } else {
      LiteralRead(v[1..], rest);
      var tail := Doubled(v[1..]) + "'" + rest;
      if v[0] == '\'' {
        assert s == "''" + tail && s[2..] == tail;
      } else {
        assert s == [v[0]] + tail && s[1..] == tail;
      }
      assert v == [v[0]] + v[1..];
    }
  }

  lemma BareRead(word: string, rest: string)
    requires forall i :: 0 <= i < |word| ==> word[i] != ',' && word[i] != ')'
    requires rest != "" && (rest[0] == ',' || rest[0] == ')')
    ensures BareRun(word + rest) == |word|
  {
    if word == "" {
      assert word + rest == rest;
    } else {
      assert (word + rest)[1..] == word[1..] + rest;
      BareRead(word[1..], rest);
    }
  }

  /** What the store keeps of a value that is printed and read back. */
  function Stored(c: Cell): Cell {
    match c
    case Null => Null
    case Text(v) => CellOf(v)
  }

  lemma QuotedRead(v: string, rest: string)
    requires rest == "" || rest[0] != '\''
    ensures Value("'" + (Doubled(v) + "'" + rest)) == Parsed(CellOf(v), rest)
  {
    var body := Doubled(v) + "'" + rest;
    LiteralRead(v, rest);
    var s := "'" + body;
    assert s[1..] == body;
    assert SkipWs(s) == s;
  }

  lemma NullRead(rest: string)
    requires rest != "" && (rest[0] == ',' || rest[0] == ')')
    ensures Value("NULL" + rest) == Parsed(Null, rest)
  {
    var s := "NULL" + rest;
    BareRead("NULL", rest);
    assert s[..4] == "NULL" && s[4..] == rest;
    assert SkipWs(s) == s;
    assert CellOf("NULL") == Null by {
      TrimMeans("", "NULL", "");
      assert "" + "NULL" + "" == "NULL";
    }
  }

  lemma ValueRead(c: Cell, rest: string)
    requires rest != "" && (rest[0] == ',' || rest[0] == ')')
    ensures Value(PrintCell(c) + rest) == Parsed(Stored(c), rest)
  {
    hide Value, Doubled, CellOf;
    match c
    case Null => NullRead(rest);
    case Text(v) =>
      QuotedRead(v, rest);
      assert "'" + Doubled(v) + "'" + rest == "'" + (Doubled(v) + "'" + rest);
  }

  /** A value survives exactly when it fits its buffer, has no outer blanks and is not the text NULL. */
  predicate Survives(c: Cell) {
    c.Text? ==> |c.text| < MAX_VALUE && Trimmed(c.text) && c.text != "NULL"
  }

  lemma SurvivesExactly(c: Cell)
    ensures Stored(c) == c <==> Survives(c)
  {
    if c.Text? && |c.text| < MAX_VALUE && Trimmed(c.text) {
      TrimMeans("", c.text, "");
      assert "" + c.text + "" == c.text;
    }
  }

  lemma ValueRoundTrip(v: string, rest: string)
    requires rest != "" && (rest[0] == ',' || rest[0] == ')')
    ensures Value(PrintCell(Text(v)) + rest) == Parsed(Text(v), rest) <==>
            |v| < MAX_VALUE && Trimmed(v) && v != "NULL"
  {
    ValueRead(Text(v), rest);
    SurvivesExactly(Text(v));
  }

  // ---- Names ----

  lemma {:induction false} WordRead(name: string, rest: string, limit: nat)
    requires forall i :: 0 <= i < |name| ==> IsWord(name[i])
    requires |name| <= limit && (rest == "" || !IsWord(rest[0]))
    ensures WordRun(name + rest, limit) == |name|
    decreases |name|
  {
    if name == "" {
      assert name + rest == rest;
    } else {
      assert (name + rest)[1..] == name[1..] + rest;
      WordRead(name[1..], rest, limit - 1);
    }
  }

  predicate Blank(lead: string) {
    forall c :: c in lead ==> IsSpace(c)
  }

  lemma LeadSkipped(lead: string, s: string)
    requires Blank(lead) && s != "" && !IsSpace(s[0]) && s[0] != ')'
    ensures SkipWs(lead + s) == s && SkipWs(s) == s && lead + s != "" && (lead + s)[0] != ')'
  {
    hide SkipWs;
    SkipWsMeans(lead, s);
    SkipWsMeans("", s);
    assert "" + s == s;
    if lead != "" { assert lead[0] in lead; }
  }

  lemma BareIdentifier(text: string, name: string, rest: string)
    requires WordName(name) && SkipWs(text) == name + rest && WordRun(name + rest, MAX_NAME - 1) == |name|
    ensures Identifier(text) == Some(Parsed(name, rest))
  {
    hide SkipWs, WordRun, QuotedRun;
    var s := name + rest;
    assert IsWord(s[0]);
    assert s[..|name|] == name && s[|name|..] == rest;
  }

  lemma IdentifierRead(lead: string, name: string, rest: string)
    requires Blank(lead) && WordName(name) && (rest == "" || !IsWord(rest[0]))
    ensures Identifier(lead + (name + rest)) == Some(Parsed(name, rest))
    ensures (lead + (name + rest))[0] != ')'
  {
    hide SkipWs, WordRun, Identifier, Blank;
    var s := name + rest;
    assert IsWord(s[0]);
    LeadSkipped(lead, s);
    WordRead(name, rest, MAX_NAME - 1);
    BareIdentifier(lead + s, name, rest);
  }

  lemma CommaText(lead: string, first: string, more: string, rest: string)
    ensures lead + ((first + ", " + more) + rest) == lead + (first + ("," + (" " + (more + rest))))
  {
  }

  lemma NoSkip(c: char, rest: string)
    requires !IsSpace(c)
    ensures SkipWs([c] + rest) == [c] + rest && ([c] + rest)[1..] == rest
  {
  }

  /** One turn of the column loop, on a name the table has. */
  lemma ColumnTurn(cols: seq<Column>, text: string, name: string, s: string, acc: seq<nat>)
    requires MapFor(acc, |cols|) && text != "" && text[0] != ')' && ColumnIndex(cols, name) >= 0
    requires Identifier(text) == Some(Parsed(name, s)) && s != "" && SkipWs(s) == s
    ensures |acc| >= MAX_COLUMNS ==> ColumnList(cols, text, acc) == Err(ColumnMapOverrun)
    ensures |acc| < MAX_COLUMNS ==>
              && MapFor(acc + [ColumnIndex(cols, name)], |cols|)
              && (s[0] == ',' ==> ColumnList(cols, text, acc) == ColumnList(cols, s[1..], acc + [ColumnIndex(cols, name)]))
              && (s[0] == ')' ==> ColumnList(cols, text, acc) == Ok(Parsed(acc + [ColumnIndex(cols, name)], s[1..])))
  {
    hide Identifier, ColumnIndex, SkipWs;
  }

  lemma LastName(cols: seq<Column>, text: string, name: string, rest: string, acc: seq<nat>)
    requires MapFor(acc, |cols|) && text != "" && text[0] != ')' && ColumnIndex(cols, name) >= 0
    requires Identifier(text) == Some(Parsed(name, ")" + rest))
    ensures ColumnList(cols, text, acc) ==
            if |acc| < MAX_COLUMNS then Ok(Parsed(acc + [ColumnIndex(cols, name)], rest)) else Err(ColumnMapOverrun)
  {
    hide Identifier, ColumnIndex, SkipWs, MapFor, ColumnList;
    NoSkip(')', rest);
    ColumnTurn(cols, text, name, ")" + rest, acc);
  }

  lemma NextName(cols: seq<Column>, text: string, name: string, rest: string, acc: seq<nat>)
    requires MapFor(acc, |cols|) && text != "" && text[0] != ')' && ColumnIndex(cols, name) >= 0
    requires Identifier(text) == Some(Parsed(name, "," + rest))
    ensures |acc| >= MAX_COLUMNS ==> ColumnList(cols, text, acc) == Err(ColumnMapOverrun)
    ensures |acc| < MAX_COLUMNS ==>
              && MapFor(acc + [ColumnIndex(cols, name)], |cols|)
              && ColumnList(cols, text, acc) == ColumnList(cols, rest, acc + [ColumnIndex(cols, name)])
  {
    hide Identifier, ColumnIndex, SkipWs, MapFor, ColumnList;
    NoSkip(',', rest);
    ColumnTurn(cols, text, name, "," + rest, acc);
  }

  /** The first of the printed names is read, and the reader stands before the next. */
  lemma NamesStep(cols: seq<Column>, lead: string, listed: seq<nat>, rest: string, acc: seq<nat>)
    requires Blank(lead) && listed != [] && NamesFor(cols, listed) && MapFor(acc, |cols|)
    ensures var text := lead + (PrintNames(cols, listed) + (")" + rest));
            if |acc| >= MAX_COLUMNS then ColumnList(cols, text, acc) == Err(ColumnMapOverrun)
            else
              && MapFor(acc + [listed[0]], |cols|)
              && ColumnList(cols, text, acc) ==
                 if |listed| == 1 then Ok(Parsed(acc + [listed[0]], rest))
                 else ColumnList(cols, " " + (PrintNames(cols, listed[1..]) + (")" + rest)), acc + [listed[0]])
  {
    hide Identifier, ColumnIndex, ColumnList, WordName, Blank, IsWord, MapFor, PrintNames, NamesFor;
    FirstName(cols, listed);
    Delimiters();
    var name := cols[listed[0]].name;
    NamesText(cols, lead, listed, rest);
    if |listed| == 1 {
      IdentifierRead(lead, name, ")" + rest);
      LastName(cols, lead + (name + (")" + rest)), name, rest, acc);
    } else {
      var more := " " + (PrintNames(cols, listed[1..]) + (")" + rest));
      IdentifierRead(lead, name, "," + more);
      NextName(cols, lead + (name + ("," + more)), name, more, acc);
    }
  }

  /** A printed column list is read back in full up to MAX_COLUMNS names; one name more and the C
      code writes outside its column map. */
  lemma {:induction false} NamesRead(cols: seq<Column>, lead: string, listed: seq<nat>, rest: string, acc: seq<nat>)
    requires Blank(lead) && listed != [] && NamesFor(cols, listed) && MapFor(acc, |cols|)
    ensures ColumnList(cols, lead + (PrintNames(cols, listed) + (")" + rest)), acc) ==
            if |acc| + |listed| <= MAX_COLUMNS then Ok(Parsed(acc + listed, rest)) else Err(ColumnMapOverrun)
    decreases |listed|
  {
    hide ColumnList, Blank, PrintNames, NamesFor, MapFor;
    NamesStep(cols, lead, listed, rest, acc);
    if |acc| < MAX_COLUMNS {
      FirstName(cols, listed);
      if |listed| > 1 {
        assert Blank(" ") by { OneBlank(); }
        NamesRead(cols, " ", listed[1..], rest, acc + [listed[0]]);
        assert acc + [listed[0]] + listed[1..] == acc + listed;
      } else {
        assert [listed[0]] == listed;
      }
    } else {
      MapFull(acc, |cols|);
    }
  }

  lemma MapFull(acc: seq<nat>, width: nat)
    requires MapFor(acc, width)
    ensures |acc| <= MAX_COLUMNS
  {
  }

  lemma FirstName(cols: seq<Column>, listed: seq<nat>)
    requires listed != [] && NamesFor(cols, listed)
    ensures listed[0] < |cols| && WordName(cols[listed[0]].name) && ColumnIndex(cols, cols[listed[0]].name) == listed[0]
    ensures NamesFor(cols, listed[1..])
    ensures forall j :: 0 <= j < |listed| ==> listed[j] < |cols|
  {
    hide WordName, ColumnIndex;
  }

  lemma Delimiters()
    ensures !IsWord(')') && !IsWord(',') && !IsWord(' ')
  {
  }

  lemma NamesText(cols: seq<Column>, lead: string, listed: seq<nat>, rest: string)
    requires listed != [] && forall j :: 0 <= j < |listed| ==> listed[j] < |cols|
    ensures lead + (PrintNames(cols, listed) + (")" + rest)) ==
            lead + (cols[listed[0]].name +
                    (if |listed| == 1 then ")" + rest else "," + (" " + (PrintNames(cols, listed[1..]) + (")" + rest)))))
  {
    if |listed| > 1 { CommaText(lead, cols[listed[0]].name, PrintNames(cols, listed[1..]), ")" + rest); }
  }

  // ---- Tuples ----

  function StoredCells(cells: seq<Cell>): (r: seq<Cell>)
    ensures |r| == |cells| && forall i :: 0 <= i < |cells| ==> r[i] == Stored(cells[i])
  {
    seq(|cells|, i requires 0 <= i < |cells| => Stored(cells[i]))
  }

  lemma LastValue(listed: seq<nat>, text: string, cell: Cell, rest: string, k: nat, row: Row)
    requires k + 1 == |listed| && forall j :: 0 <= j < |listed| ==> listed[j] < |row|
    requires text != "" && text[0] != ')' && Value(text) == Parsed(cell, ")" + rest)
    ensures Tuple(listed, text, k, row) == Ok(Parsed(row[listed[k] := cell], rest))
  {
    hide Value, SkipWs;
    NoSkip(')', rest);
  }

  lemma NextValue(listed: seq<nat>, text: string, cell: Cell, rest: string, k: nat, row: Row)
    requires k < |listed| && forall j :: 0 <= j < |listed| ==> listed[j] < |row|
    requires text != "" && text[0] != ')' && Value(text) == Parsed(cell, "," + rest)
    ensures Tuple(listed, text, k, row) == Tuple(listed, rest, k + 1, row[listed[k] := cell])
  {
    hide Value, SkipWs;
    NoSkip(',', rest);
  }

  lemma SameValue(a: string, b: string)
    requires SkipWs(a) == SkipWs(b)
    ensures Value(a) == Value(b)
  {
    hide SkipWs, CellOf, LiteralBody, BareRun;
  }

  lemma CellStarts(c: Cell)
    ensures PrintCell(c) != "" && (PrintCell(c)[0] == 'N' || PrintCell(c)[0] == '\'')
  {
  }

  lemma LedValueRead(lead: string, c: Cell, rest: string)
    requires Blank(lead) && rest != "" && (rest[0] == ',' || rest[0] == ')')
    ensures Value(lead + (PrintCell(c) + rest)) == Parsed(Stored(c), rest)
    ensures (lead + (PrintCell(c) + rest))[0] != ')'
  {
    hide Stored, Value, SkipWs, PrintCell, Blank;
    ValueRead(c, rest);
    CellStarts(c);
    var s := PrintCell(c) + rest;
    assert s[0] == 'N' || s[0] == '\'';
    LeadSkipped(lead, s);
    SameValue(lead + s, s);
  }

  lemma {:induction false} CellsRead(listed: seq<nat>, lead: string, cells: seq<Cell>, rest: string, k: nat, row: Row)
    requires Blank(lead) && cells != [] && k + |cells| == |listed|
    requires forall j :: 0 <= j < |listed| ==> listed[j] < |row|
    ensures Tuple(listed, lead + (PrintCells(cells) + (")" + rest)), k, row) ==
            Ok(Parsed(Place(row, listed[k..], StoredCells(cells)), rest))
    decreases |cells|
  {
    hide Value, Stored, PrintCell, Tuple, SkipWs;
    var text := lead + (PrintCells(cells) + (")" + rest));
    var placed := row[listed[k] := Stored(cells[0])];
    assert listed[k..][0] == listed[k] && listed[k..][1..] == listed[k + 1..];
    assert StoredCells(cells)[1..] == StoredCells(cells[1..]);
    if |cells| == 1 {
      LedValueRead(lead, cells[0], ")" + rest);
      LastValue(listed, text, Stored(cells[0]), rest, k, row);
      assert listed[k + 1..] == [];
    } else {
      var more := PrintCells(cells[1..]) + (")" + rest);
      CommaText(lead, PrintCell(cells[0]), PrintCells(cells[1..]), ")" + rest);
      LedValueRead(lead, cells[0], "," + (" " + more));
      NextValue(listed, text, Stored(cells[0]), " " + more, k, row);
      CellsRead(listed, " ", cells[1..], rest, k + 1, placed);
    }
  }

  /** The row a printed tuple denotes: its cells in the listed columns, NULL everywhere else. */
  function PlacedRow(width: nat, listed: seq<nat>, cells: seq<Cell>): Row
    requires |listed| == |cells| && forall j :: 0 <= j < |listed| ==> listed[j] < width
  {
    Place(NullRow(width), listed, cells)
  }

  lemma TupleRead(width: nat, listed: seq<nat>, cells: seq<Cell>, rest: string)
    requires |listed| == |cells| && forall j :: 0 <= j < |listed| ==> listed[j] < width
    ensures Tuple(listed, PrintCells(cells) + (")" + rest), 0, NullRow(width)) ==
            Ok(Parsed(PlacedRow(width, listed, StoredCells(cells)), rest))
  {
    hide Value, SkipWs;
    assert listed[0..] == listed;
    var text := PrintCells(cells) + (")" + rest);
    if cells == [] {
      assert text == ")" + rest && text[1..] == rest;
    } else {
      hide Tuple, StoredCells, PrintCells, NullRow;
      CellsRead(listed, "", cells, rest, 0, NullRow(width));
      assert "" + text == text;
    }
  }

  function TupleRows(t: nat, width: nat, listed: seq<nat>, tuples: seq<seq<Cell>>): (r: seq<InsertRow>)
    requires forall j :: 0 <= j < |listed| ==> listed[j] < width
    requires forall i :: 0 <= i < |tuples| ==> |tuples[i]| == |listed|
    ensures |r| == |tuples|
  {
    if tuples == [] then []
    else [InsertRow(t, PlacedRow(width, listed, tuples[0]))] + TupleRows(t, width, listed, tuples[1..])
  }

  function StoredTuples(tuples: seq<seq<Cell>>): (r: seq<seq<Cell>>)
    ensures |r| == |tuples| && forall i :: 0 <= i < |tuples| ==> r[i] == StoredCells(tuples[i])
  {
    seq(|tuples|, i requires 0 <= i < |tuples| => StoredCells(tuples[i]))
  }

  lemma OneTuple(t: nat, width: nat, listed: seq<nat>, lead: string, cells: seq<Cell>, rest: string, batch: seq<InsertRow>)
    requires Blank(lead) && MapFor(listed, width) && |cells| == |listed| && |batch| < MAX_BATCH_ROWS
    ensures Tuples(t, width, listed, lead + ("(" + (PrintCells(cells) + (")" + rest))), batch) ==
            Tuples(t, width, listed, rest, batch + [InsertRow(t, PlacedRow(width, listed, StoredCells(cells)))])
  {
    hide Tuple, PrintCells, StoredCells, PlacedRow, NullRow;
    var s := "(" + (PrintCells(cells) + (")" + rest));
    SkipWsMeans(lead, s);
    assert s[1..] == PrintCells(cells) + (")" + rest);
    TupleRead(width, listed, cells, rest);
  }

  lemma Comma(t: nat, width: nat, listed: seq<nat>, rest: string, batch: seq<InsertRow>)
    requires MapFor(listed, width)
    ensures Tuples(t, width, listed, "," + rest, batch) == Tuples(t, width, listed, rest, batch)
  {
    hide SkipWs, Tuple;
    NoSkip(',', rest);
  }

  lemma NoMoreTuples(t: nat, width: nat, listed: seq<nat>, batch: seq<InsertRow>)
    requires MapFor(listed, width)
    ensures Tuples(t, width, listed, "", batch) == Ok(batch)
  {
  }

  lemma NoRoom(t: nat, width: nat, listed: seq<nat>, lead: string, more: string, batch: seq<InsertRow>)
    requires Blank(lead) && MapFor(listed, width) && |batch| >= MAX_BATCH_ROWS
    ensures Tuples(t, width, listed, lead + ("(" + more), batch) == Err(TooManyRows)
  {
    hide Tuple;
    SkipWsMeans(lead, "(" + more);
  }

  /** Printed tuples become rows, in order, and what follows them is read next, unless the batch
      overflows. */
  lemma {:induction false} TuplesRead(
      t: nat, width: nat, listed: seq<nat>, lead: string, tuples: seq<seq<Cell>>, rest: string, batch: seq<InsertRow>)
    requires Blank(lead) && MapFor(listed, width) && tuples != [] && |batch| <= MAX_BATCH_ROWS
    requires forall i :: 0 <= i < |tuples| ==> |tuples[i]| == |listed|
    ensures Tuples(t, width, listed, lead + (PrintTuples(tuples) + rest), batch) ==
            if |batch| + |tuples| <= MAX_BATCH_ROWS
            then Tuples(t, width, listed, rest, batch + TupleRows(t, width, listed, StoredTuples(tuples)))
            else Err(TooManyRows)
    decreases |tuples|
  {
    hide Tuple, PrintCells, PrintTuples, StoredCells, StoredTuples, PlacedRow, Tuples, TupleRows, Blank;
    assert Blank(" ") by { OneBlank(); }
    var first, others := tuples[0], tuples[1..];
    var more := if |tuples| == 1 then rest else "," + (" " + (PrintTuples(others) + rest));
    TuplesText(tuples, rest);
    if |batch| == MAX_BATCH_ROWS {
      NoRoom(t, width, listed, lead, PrintCells(first) + (")" + more), batch);
    } else {
      var batch' := batch + [InsertRow(t, PlacedRow(width, listed, StoredCells(first)))];
      FirstRow(t, width, listed, tuples, batch);
      OneTuple(t, width, listed, lead, first, more, batch);
      if |tuples| > 1 {
        Comma(t, width, listed, " " + (PrintTuples(others) + rest), batch');
        TuplesRead(t, width, listed, " ", others, rest, batch');
      }
    }
  }

  lemma FirstRow(t: nat, width: nat, listed: seq<nat>, tuples: seq<seq<Cell>>, batch: seq<InsertRow>)
    requires tuples != [] && MapFor(listed, width) && forall i :: 0 <= i < |tuples| ==> |tuples[i]| == |listed|
    ensures var batch' := batch + [InsertRow(t, PlacedRow(width, listed, StoredCells(tuples[0])))];
            && batch + TupleRows(t, width, listed, StoredTuples(tuples)) ==
               batch' + TupleRows(t, width, listed, StoredTuples(tuples[1..]))
            && (|tuples| == 1 ==> batch + TupleRows(t, width, listed, StoredTuples(tuples)) == batch')
  {
    hide StoredCells, PlacedRow;
    assert StoredTuples(tuples)[1..] == StoredTuples(tuples[1..]);
  }

  lemma TuplesText(tuples: seq<seq<Cell>>, rest: string)
    requires tuples != []
    ensures PrintTuples(tuples) + rest ==
            "(" + (PrintCells(tuples[0]) +
                   (")" + (if |tuples| == 1 then rest else "," + (" " + (PrintTuples(tuples[1..]) + rest)))))
  {
    hide PrintCells;
    var cells := PrintCells(tuples[0]);
    if |tuples| == 1 { Closing(cells, ")", "", rest); } else { Closing(cells, "), ", PrintTuples(tuples[1..]), rest); }
  }

  lemma Closing(cells: string, end: string, others: string, rest: string)
    ensures "(" + cells + end + others + rest == "(" + (cells + (end + (others + rest)))
    ensures "(" + cells + ")" + rest == "(" + (cells + (")" + rest))
    ensures "), " + (others + rest) == ")" + ("," + (" " + (others + rest)))
  {
    var a := "(" + cells;
    assert a + end + others + rest == a + (end + (others + rest));
    assert a + (end + (others + rest)) == "(" + (cells + (end + (others + rest)));
    assert a + ")" + rest == a + (")" + rest);
    assert "), " == ")" + ("," + " ");
  }

  lemma OneBlank()
    ensures Blank("") && Blank(" ")
  {
  }

  // ---- Statements ----

  lemma {:induction false} KeywordRead(word: string, rest: string, prefix: string)
    requires |word| == |prefix| && forall i :: 0 <= i < |word| ==> Lower(word[i]) == Lower(prefix[i])
    ensures StartsCI(word + rest, prefix)
    decreases |word|
  {
    if word != "" {
      assert (word + rest)[1..] == word[1..] + rest;
      KeywordRead(word[1..], rest, prefix[1..]);
    }
  }

  predicate Placeable(ts: seq<Table>, st: Insert) {
    && st.table < |ts|
    && (forall j :: 0 <= j < |st.listed| ==> st.listed[j] < |ts[st.table].columns|)
    && (forall i :: 0 <= i < |st.tuples| ==> |st.tuples[i]| == |st.listed|)
  }

  /** The rows a statement means. */
  function InsertRows(ts: seq<Table>, st: Insert): (r: seq<InsertRow>)
    requires Placeable(ts, st)
    ensures |r| == |st.tuples|
  {
    TupleRows(st.table, |ts[st.table].columns|, st.listed, st.tuples)
  }

  /** The statement whose cells are those the store keeps. */
  function StoredInsert(st: Insert): Insert {
    st.(tuples := StoredTuples(st.tuples))
  }

  lemma ValuesRead(t: nat, width: nat, listed: seq<nat>, values: string, batch: seq<InsertRow>)
    requires MapFor(listed, width)
    ensures Rows(t, width, listed, " VALUES " + values, batch) == Tuples(t, width, listed, " " + values, batch)
  {
    hide Tuples;
    var found := "VALUES" + (" " + values);
    assert " VALUES " + values == " " + found;
    FoundAfterBlank(found);
    assert found[6..] == " " + values;
  }

  lemma FoundAfterBlank(found: string)
    requires "VALUES" <= found
    ensures FindCI(" " + found, "values") == found
  {
    var text := " " + found;
    assert text[1..] == found;
    KeywordRead(found[..6], found[6..], "values");
    assert found == found[..6] + found[6..];
    assert !StartsCI(text, "values");
  }

  lemma TableRead(ts: seq<Table>, st: Insert, values: string, batch: seq<InsertRow>)
    requires Shape(ts) && Printable(ts, st) && |st.listed| <= MAX_COLUMNS
    ensures AfterTable(ts, st.table, InsertTail(ts, st, values), batch) ==
            Tuples(st.table, |ts[st.table].columns|, st.listed, " " + values, batch)
  {
    hide Rows, Tuples, ColumnList, PrintNames, WordName, ColumnIndex, TableIndex;
    var cols := ts[st.table].columns;
    var rest := " VALUES " + values;
    var list := PrintNames(cols, st.listed) + (")" + rest);
    assert ("(" + list)[1..] == list;
    ListRead(cols, st.listed, rest);
    ValuesRead(st.table, |cols|, st.listed, values, batch);
  }

  lemma ListRead(cols: seq<Column>, listed: seq<nat>, rest: string)
    requires NamesFor(cols, listed) && |listed| <= MAX_COLUMNS
    ensures MapFor(listed, |cols|)
    ensures ColumnList(cols, PrintNames(cols, listed) + (")" + rest), []) == Ok(Parsed(listed, rest))
  {
    hide Identifier;
    var list := PrintNames(cols, listed) + (")" + rest);
    if listed == [] {
      assert list == ")" + rest && list[1..] == rest;
    } else {
      hide ColumnList, PrintNames;
      NamesRead(cols, "", listed, rest, []);
      assert "" + list == list;
      assert [] + listed == listed;
    }
  }

  lemma IntoRead(ts: seq<Table>, st: Insert, list: string, batch: seq<InsertRow>)
    requires Shape(ts) && Printable(ts, st) && "(" <= list
    ensures AfterInsert(ts, "INTO" + (" " + (ts[st.table].name + (" " + list))), batch) ==
            AfterTable(ts, st.table, list, batch)
  {
    hide AfterTable, Identifier;
    var name := ts[st.table].name;
    var rest := " " + (name + (" " + list));
    var s := "INTO" + rest;
    KeywordRead("INTO", rest, "into");
    assert s[4..] == rest;
    IdentifierRead(" ", name, " " + list);
    SkipWsMeans(" ", list);
  }

  /** The statement from its column list on, with any text after VALUES. */
  function InsertTail(ts: seq<Table>, st: Insert, values: string): string
    requires Printable(ts, st)
  {
    "(" + (PrintNames(ts[st.table].columns, st.listed) + (")" + (" VALUES " + values)))
  }

  lemma HeadText(ts: seq<Table>, st: Insert, values: string)
    requires Printable(ts, st)
    ensures InsertHead(ts, st) + values ==
            "INSERT" + (" " + ("INTO" + (" " + (ts[st.table].name + (" " + InsertTail(ts, st, values))))))
  {
    hide PrintNames;
    var name, names := ts[st.table].name, PrintNames(ts[st.table].columns, st.listed);
    assert "INSERT INTO " + name + " (" + names + ") VALUES " + values ==
           "INSERT INTO " + (name + (" (" + (names + (") VALUES " + values))));
    assert ") VALUES " + values == ")" + (" VALUES " + values);
  }

  lemma InsertRead(ts: seq<Table>, into: string, batch: seq<InsertRow>)
    requires Shape(ts) && "INTO" <= into
    ensures Statement(ts, "INSERT" + (" " + into), batch) == AfterInsert(ts, into, batch)
  {
    hide AfterInsert;
    var s := "INSERT" + (" " + into);
    KeywordRead("INSERT", " " + into, "insert");
    assert SkipWs(s) == s && s[6..] == " " + into;
    SkipWsMeans(" ", into);
  }

  /** The head of a printed statement leads the reader to its tuples, whatever follows. */
  lemma HeadRead(ts: seq<Table>, st: Insert, values: string, batch: seq<InsertRow>)
    requires Shape(ts) && Printable(ts, st) && |st.listed| <= MAX_COLUMNS
    ensures Statement(ts, InsertHead(ts, st) + values, batch) ==
            Tuples(st.table, |ts[st.table].columns|, st.listed, " " + values, batch)
  {
    hide Statement, AfterTable, AfterInsert, InsertHead, Tuples;
    HeadText(ts, st, values);
    var list := InsertTail(ts, st, values);
    InsertRead(ts, "INTO" + (" " + (ts[st.table].name + (" " + list))), batch);
    IntoRead(ts, st, list, batch);
    TableRead(ts, st, values, batch);
  }

  /** A printed statement adds exactly its rows, and what follows it is read as more tuples, unless
      the batch overflows. */
  lemma StatementRead(ts: seq<Table>, st: Insert, rest: string, batch: seq<InsertRow>)
    requires Shape(ts) && Printable(ts, st) && |st.listed| <= MAX_COLUMNS && |batch| <= MAX_BATCH_ROWS
    ensures Statement(ts, PrintInsert(ts, st) + rest, batch) ==
            if |batch| + |st.tuples| <= MAX_BATCH_ROWS
            then Tuples(st.table, |ts[st.table].columns|, st.listed, rest, batch + InsertRows(ts, StoredInsert(st)))
            else Err(TooManyRows)
  {
    hide Statement, InsertHead, Tuples, PrintTuples, TupleRows, StoredTuples;
    var values := PrintTuples(st.tuples) + rest;
    assert PrintInsert(ts, st) + rest == InsertHead(ts, st) + values;
    HeadRead(ts, st, values, batch);
    assert Blank(" ") by { OneBlank(); }
    TuplesRead(st.table, |ts[st.table].columns|, st.listed, " ", st.tuples, rest, batch);
  }
}
