/** Printing whole batches of INSERT statements and reading them back through the splitter: exactly when
    the batch is read, and exactly when what is read is what was printed. */
module BatchRoundTrip {
  import opened Schema
  import opened Text
  import opened InsertSyntax
  import opened InsertTotality
  import opened InsertRoundTrip
  import opened StatementSplit

  // ---- Quotes in printed text ----

  function Quotes(s: string): nat {
    if s == "" then 0 else (if s[0] == '\'' then 1 else 0) + Quotes(s[1..])
  }

  predicate Odd(s: string) {
    Quotes(s) % 2 == 1
  }

  lemma {:induction false} QuotesJoin(a: string, b: string)
    ensures Quotes(a + b) == Quotes(a) + Quotes(b)
    decreases |a|
  {
    if a == "" {
      assert a + b == b;
    } else {
      assert (a + b)[1..] == a[1..] + b;
      QuotesJoin(a[1..], b);
    }
  }

  lemma {:induction false} NoQuotes(s: string)
    requires forall i :: 0 <= i < |s| ==> s[i] != '\''
    ensures Quotes(s) == 0
    decreases |s|
  {
    if s != "" { NoQuotes(s[1..]); }
  }

  /** Every `;` stands inside a literal, and the text ends outside one. */
  predicate Closed(t: string) {
    !Odd(t) && forall i :: 0 <= i < |t| && t[i] == ';' ==> Odd(t[..i])
  }

  predicate Plain(t: string) {
    forall i :: 0 <= i < |t| ==> t[i] != '\'' && t[i] != ';'
  }

  lemma PlainClosed(t: string)
    requires Plain(t)
    ensures Closed(t)
  {
    NoQuotes(t);
  }

  lemma ClosedJoin(a: string, b: string)
    requires Closed(a) && Closed(b)
    ensures Closed(a + b)
  {
    hide Quotes;
    var t := a + b;
    QuotesJoin(a, b);
    forall i | 0 <= i < |t| && t[i] == ';'
      ensures Odd(t[..i])
    {
      if i < |a| {
        assert t[..i] == a[..i];
      } else {
        assert t[..i] == a + b[..i - |a|];
        QuotesJoin(a, b[..i - |a|]);
      }
    }
  }

  /** Quotes come in pairs, and no `;` splits a pair. */
  predicate Paired(t: string) {
    !Odd(t) && forall i :: 0 <= i < |t| && t[i] == ';' ==> !Odd(t[..i])
  }

  lemma PairedJoin(a: string, b: string)
    requires Paired(a) && Paired(b)
    ensures Paired(a + b)
  {
    hide Quotes;
    var t := a + b;
    QuotesJoin(a, b);
    forall i | 0 <= i < |t| && t[i] == ';'
      ensures !Odd(t[..i])
    {
      if i < |a| {
        assert t[..i] == a[..i];
      } else {
        assert t[..i] == a + b[..i - |a|];
        QuotesJoin(a, b[..i - |a|]);
      }
    }
  }

  function DoubledChar(c: char): string {
    if c == '\'' then "''" else [c]
  }

  lemma CharPaired(c: char)
    ensures Paired(DoubledChar(c))
  {
    if c == '\'' {
      assert "''"[1..] == "'" && "'"[1..] == "" && Quotes("'") == 1;
    } else {
      NoQuotes([c]);
      assert [c][..0] == "";
    }
  }

  lemma {:induction false} BodyPaired(v: string)
    ensures Paired(Doubled(v))
    decreases |v|
  {
    hide Paired, DoubledChar;
    if v == "" {
      NothingPaired();
    } else {
      CharPaired(v[0]);
      BodyPaired(v[1..]);
      PairedJoin(DoubledChar(v[0]), Doubled(v[1..]));
      assert Doubled(v) == DoubledChar(v[0]) + Doubled(v[1..]) by { DoubledStep(v); }
    }
  }

  lemma NothingPaired()
    ensures Paired("")
  {
  }

  lemma DoubledStep(v: string)
    requires v != ""
    ensures Doubled(v) == DoubledChar(v[0]) + Doubled(v[1..])
  {
  }

  lemma QuoteAlone()
    ensures Quotes("'") == 1
  {
    assert "'"[1..] == "";
  }

  lemma QuotedClosed(body: string)
    requires Paired(body)
    ensures Closed("'" + body + "'")
  {
    hide Quotes;
    var s := "'" + body + "'";
    QuoteAlone();
    QuotesJoin("'", body);
    QuotesJoin("'" + body, "'");
    forall i | 0 <= i < |s| && s[i] == ';'
      ensures Odd(s[..i])
    {
      assert s[..i] == "'" + body[..i - 1];
      QuotesJoin("'", body[..i - 1]);
    }
  }

  lemma CellClosed(c: Cell)
    ensures Closed(PrintCell(c))
  {
    hide Quotes, Closed, Doubled, Paired;
    match c
    case Null => PlainClosed("NULL");
    case Text(v) =>
      BodyPaired(v);
      QuotedClosed(Doubled(v));
  }

  lemma {:induction false} CellsClosed(cells: seq<Cell>)
    ensures Closed(PrintCells(cells))
    decreases |cells|
  {
    hide PrintCell, Closed;
    if cells == [] {
      PlainClosed("");
    } else {
      CellClosed(cells[0]);
      if |cells| > 1 {
        CellsClosed(cells[1..]);
        PlainClosed(", ");
        ClosedJoin(PrintCell(cells[0]), ", ");
        ClosedJoin(PrintCell(cells[0]) + ", ", PrintCells(cells[1..]));
      }
    }
  }

  lemma {:induction false} TuplesClosed(tuples: seq<seq<Cell>>)
    ensures Closed(PrintTuples(tuples))
    decreases |tuples|
  {
    hide PrintCells, Closed;
    if tuples == [] {
      PlainClosed("");
    } else {
      CellsClosed(tuples[0]);
      PlainClosed("(");
      ClosedJoin("(", PrintCells(tuples[0]));
      if |tuples| == 1 {
        PlainClosed(")");
        ClosedJoin("(" + PrintCells(tuples[0]), ")");
      } else {
        PlainClosed("), ");
        ClosedJoin("(" + PrintCells(tuples[0]), "), ");
        TuplesClosed(tuples[1..]);
        ClosedJoin("(" + PrintCells(tuples[0]) + "), ", PrintTuples(tuples[1..]));
      }
    }
  }

  lemma {:induction false} NamesPlain(cols: seq<Column>, listed: seq<nat>)
    requires NamesFor(cols, listed)
    ensures Plain(PrintNames(cols, listed))
    decreases |listed|
  {
    if |listed| > 1 { NamesPlain(cols, listed[1..]); }
  }

  lemma HeadPlain(ts: seq<Table>, st: Insert)
    requires Printable(ts, st)
    ensures Plain(InsertHead(ts, st))
  {
    NamesPlain(ts[st.table].columns, st.listed);
  }

  lemma InsertClosed(ts: seq<Table>, st: Insert)
    requires Printable(ts, st)
    ensures Closed(PrintInsert(ts, st))
  {
    hide Plain, Closed, PrintTuples;
    HeadPlain(ts, st);
    PlainClosed(InsertHead(ts, st));
    TuplesClosed(st.tuples);
    ClosedJoin(InsertHead(ts, st), PrintTuples(st.tuples));
  }

  // ---- A statement cut inside a literal ----

  /** A literal cut in its body has no end. */
  lemma {:induction false} CutLiteral(v: string, j: nat)
    requires j <= |Doubled(v)| + 1 && !Odd((Doubled(v) + "'")[..j])
    ensures LiteralBody((Doubled(v) + "'")[..j]).rest == ""
    decreases |v|
  {
    hide Quotes, Doubled, LiteralBody;
    QuoteAlone();
    if v == "" || j == 0 {
      CutEmpty(v, j);
    } else {
      var tail := Doubled(v[1..]) + "'";
      DoubledStep(v);
      assert Doubled(v) + "'" == DoubledChar(v[0]) + tail;
      if v[0] != '\'' {
        CutPlain(v[0], tail, j);
        CutLiteral(v[1..], j - 1);
      } else {
        CutPair(tail, j);
        CutLiteral(v[1..], j - 2);
      }
    }
  }

  lemma CutEmpty(v: string, j: nat)
    requires (v == "" || j == 0) && j <= |Doubled(v)| + 1 && !Odd((Doubled(v) + "'")[..j])
    ensures LiteralBody((Doubled(v) + "'")[..j]).rest == ""
  {
    QuoteAlone();
    var b := (Doubled(v) + "'")[..j];
    assert b == if j == 0 then "" else "'";
  }

  lemma CutPlain(c: char, tail: string, j: nat)
    requires c != '\'' && 0 < j <= |tail| + 1
    ensures Odd(([c] + tail)[..j]) == Odd(tail[..j - 1])
    ensures LiteralBody(([c] + tail)[..j]).rest == LiteralBody(tail[..j - 1]).rest
  {
    var b := ([c] + tail)[..j];
    assert b == [c] + tail[..j - 1] && b[1..] == tail[..j - 1];
  }

  lemma CutPair(tail: string, j: nat)
    requires 0 < j <= |tail| + 2 && !Odd(("''" + tail)[..j])
    ensures j >= 2 && !Odd(tail[..j - 2])
    ensures LiteralBody(("''" + tail)[..j]).rest == LiteralBody(tail[..j - 2]).rest
  {
    QuoteAlone();
    var b := ("''" + tail)[..j];
    assert ("''" + tail)[..1] == "'";
    assert j >= 2;
    assert b == "''" + tail[..j - 2] && b[2..] == tail[..j - 2];
    QuotesJoin("''", tail[..j - 2]);
    CharPaired('\'');
  }

  lemma CutQuoted(lead: string, v: string, j: nat)
    requires Blank(lead) && 0 < j <= |Doubled(v)| + 2 && Odd(("'" + (Doubled(v) + "'"))[..j])
    ensures var cut := lead + ("'" + (Doubled(v) + "'"))[..j];
            Value(cut).rest == "" && cut != "" && cut[0] != ')'
  {
    hide SkipWs, Blank, LiteralBody, CellOf, Doubled, Quotes, BareRun;
    var body := Doubled(v) + "'";
    var b := body[..j - 1];
    var cut := "'" + b;
    assert ("'" + body)[..j] == cut;
    QuoteAlone();
    QuotesJoin("'", b);
    CutLiteral(v, j - 1);
    LeadSkipped(lead, cut);
    assert cut[1..] == b;
    SameValue(lead + cut, cut);
  }

  lemma CutValue(lead: string, c: Cell, j: nat)
    requires Blank(lead) && j <= |PrintCell(c)| && Odd(PrintCell(c)[..j])
    ensures Value(lead + PrintCell(c)[..j]).rest == ""
    ensures lead + PrintCell(c)[..j] != "" && (lead + PrintCell(c)[..j])[0] != ')'
  {
    hide Blank, Value, Doubled, Quotes;
    if c.Null? {
      NoQuotes("NULL"[..j]);
    } else {
      assert PrintCell(c) == "'" + (Doubled(c.text) + "'");
      NoQuotes("");
      assert PrintCell(c)[..0] == "";
      CutQuoted(lead, c.text, j);
    }
  }

  lemma BadTuple(listed: seq<nat>, text: string, k: nat, row: Row)
    requires k < |listed| && forall j :: 0 <= j < |listed| ==> listed[j] < |row|
    requires text != "" && text[0] != ')' && Value(text).rest == ""
    ensures Tuple(listed, text, k, row) == Err(ExpectedCommaInTuple)
  {
    hide Value;
  }

  lemma CellsText(cells: seq<Cell>)
    requires |cells| > 1
    ensures PrintCells(cells) == PrintCell(cells[0]) + ("," + (" " + PrintCells(cells[1..])))
  {
    hide PrintCell;
  }

  /** Cutting `first + ("," + (" " + more))` after `first`, at a place with odd quotes. */
  lemma CutAfterComma(first: string, more: string, j: nat)
    requires |first| <= j <= |first| + 2 + |more| && !Odd(first)
    requires Odd((first + ("," + (" " + more)))[..j])
    ensures j >= |first| + 2 && Odd(more[..j - |first| - 2])
    ensures (first + ("," + (" " + more)))[..j] == first + ("," + (" " + more[..j - |first| - 2]))
  {
    hide Quotes;
    var rest := "," + (" " + more);
    assert (first + rest)[..j] == first + rest[..j - |first|];
    QuotesJoin(first, rest[..j - |first|]);
    var m := j - |first|;
    if m < 2 {
      NoQuotes(rest[..m]);
    } else {
      assert rest[..m] == ", " + more[..m - 2];
      QuotesJoin(", ", more[..m - 2]);
      NoQuotes(", ");
      assert rest[..m] == "," + (" " + more[..m - 2]);
    }
  }

  lemma {:induction false} CutCells(listed: seq<nat>, lead: string, cells: seq<Cell>, j: nat, k: nat, row: Row)
    requires Blank(lead) && k + |cells| == |listed| && j <= |PrintCells(cells)| && Odd(PrintCells(cells)[..j])
    requires forall i :: 0 <= i < |listed| ==> listed[i] < |row|
    ensures Tuple(listed, lead + PrintCells(cells)[..j], k, row).Err?
    decreases |cells|
  {
    hide Value, Stored, PrintCell, Tuple, Quotes, Blank;
    NoCells(j);
    if cells != [] {
      var first := PrintCell(cells[0]);
      if j <= |first| {
        assert PrintCells(cells)[..j] == first[..j] by { PrefixOfCells(cells, j); }
        CutValue(lead, cells[0], j);
        BadTuple(listed, lead + first[..j], k, row);
      } else {
        var more := PrintCells(cells[1..]);
        CellsText(cells);
        CellClosed(cells[0]);
        CutAfterComma(first, more, j);
        var rest := " " + more[..j - |first| - 2];
        LedValueRead(lead, cells[0], "," + rest);
        assert lead + (first + ("," + rest)) == lead + PrintCells(cells)[..j];
        NextValue(listed, lead + (first + ("," + rest)), Stored(cells[0]), rest, k, row);
        assert Blank(" ") by { OneBlank(); }
        CutCells(listed, " ", cells[1..], j - |first| - 2, k + 1, row[listed[k] := Stored(cells[0])]);
      }
    }
  }

  lemma NoCells(j: nat)
    ensures j <= |PrintCells([])| ==> !Odd(PrintCells([])[..j])
    ensures j <= |PrintTuples([])| ==> !Odd(PrintTuples([])[..j])
  {
  }

  lemma PrefixOfCells(cells: seq<Cell>, j: nat)
    requires cells != [] && j <= |PrintCell(cells[0])|
    ensures j <= |PrintCells(cells)| && PrintCells(cells)[..j] == PrintCell(cells[0])[..j]
  {
    hide PrintCell;
  }

  lemma BadFirstTuple(t: nat, width: nat, listed: seq<nat>, lead: string, text: string, batch: seq<InsertRow>)
    requires Blank(lead) && MapFor(listed, width) && Tuple(listed, text, 0, NullRow(width)).Err?
    ensures Tuples(t, width, listed, lead + ("(" + text), batch).Err?
  {
    hide Tuple;
    SkipWsMeans(lead, "(" + text);
    assert ("(" + text)[1..] == text;
  }

  lemma {:induction false} CutTuples(
      t: nat, width: nat, listed: seq<nat>, lead: string, tuples: seq<seq<Cell>>, j: nat, batch: seq<InsertRow>)
    requires Blank(lead) && MapFor(listed, width) && forall i :: 0 <= i < |tuples| ==> |tuples[i]| == |listed|
    requires j <= |PrintTuples(tuples)| && Odd(PrintTuples(tuples)[..j])
    ensures Tuples(t, width, listed, lead + PrintTuples(tuples)[..j], batch).Err?
    decreases |tuples|
  {
    hide Tuple, PrintCells, StoredCells, PlacedRow, Tuples, Quotes, Blank, NullRow;
    NoCells(j);
    if tuples != [] {
      var cells := PrintCells(tuples[0]);
      if j <= |cells| + 1 {
        CutFirstTuple(tuples, j);
        assert Blank("") by { OneBlank(); }
        CutCells(listed, "", tuples[0], j - 1, 0, NullRow(width));
        assert "" + cells[..j - 1] == cells[..j - 1];
        BadFirstTuple(t, width, listed, lead, cells[..j - 1], batch);
      } else {
        var more := CutLaterTuple(tuples, j);
        if |batch| >= MAX_BATCH_ROWS {
          NoRoom(t, width, listed, lead, cells + (")" + ("," + (" " + more))), batch);
        } else {
          var batch' := batch + [InsertRow(t, PlacedRow(width, listed, StoredCells(tuples[0])))];
          OneTuple(t, width, listed, lead, tuples[0], "," + (" " + more), batch);
          Comma(t, width, listed, " " + more, batch');
          assert Blank(" ") by { OneBlank(); }
          CutTuples(t, width, listed, " ", tuples[1..], |more|, batch');
        }
      }
    }
  }

  lemma CutFirstTuple(tuples: seq<seq<Cell>>, j: nat)
    requires tuples != [] && j <= |PrintCells(tuples[0])| + 1 && j <= |PrintTuples(tuples)| && Odd(PrintTuples(tuples)[..j])
    ensures j > 0 && PrintTuples(tuples)[..j] == "(" + PrintCells(tuples[0])[..j - 1] && Odd(PrintCells(tuples[0])[..j - 1])
  {
    hide Quotes, PrintCells;
    var cells := PrintCells(tuples[0]);
    NoQuotes("");
    assert PrintTuples(tuples)[..0] == "";
    assert PrintTuples(tuples)[..|cells| + 1] == "(" + cells;
    assert PrintTuples(tuples)[..j] == "(" + cells[..j - 1];
    QuotesJoin("(", cells[..j - 1]);
    NoQuotes("(");
  }

  /** What is left of the later tuples when the cut comes after the first. */
  lemma CutLaterTuple(tuples: seq<seq<Cell>>, j: nat) returns (more: string)
    requires tuples != [] && |PrintCells(tuples[0])| + 1 < j <= |PrintTuples(tuples)| && Odd(PrintTuples(tuples)[..j])
    ensures |more| <= |PrintTuples(tuples[1..])| && more == PrintTuples(tuples[1..])[..|more|] && Odd(more)
    ensures PrintTuples(tuples)[..j] == "(" + (PrintCells(tuples[0]) + (")" + ("," + (" " + more))))
  {
    hide Quotes, PrintCells;
    var cells := PrintCells(tuples[0]);
    var first := "(" + (cells + ")");
    CellsClosed(tuples[0]);
    FirstEven(cells);
    TuplesText(tuples, "");
    assert PrintTuples(tuples) + "" == PrintTuples(tuples);
    assert |tuples| > 1 by {
      assert PrintTuples(tuples)[..|first|] == first;
    }
    var others := PrintTuples(tuples[1..]);
    assert others + "" == others;
    assert PrintTuples(tuples) == first + ("," + (" " + others));
    CutAfterComma(first, others, j);
    more := others[..j - |first| - 2];
    assert first + ("," + (" " + more)) == "(" + (cells + (")" + ("," + (" " + more))));
  }

  lemma FirstEven(cells: string)
    requires !Odd(cells)
    ensures !Odd("(" + (cells + ")"))
  {
    QuotesJoin(cells, ")");
    NoQuotes(")");
    QuotesJoin("(", cells + ")");
    NoQuotes("(");
  }

  /** A printed statement cut inside a literal is refused. */
  lemma CutStatement(ts: seq<Table>, st: Insert, j: nat, batch: seq<InsertRow>)
    requires Shape(ts) && Printable(ts, st) && |st.listed| <= MAX_COLUMNS
    requires j <= |PrintInsert(ts, st)| && Odd(PrintInsert(ts, st)[..j])
    ensures Statement(ts, PrintInsert(ts, st)[..j], batch).Err?
  {
    hide Statement, InsertHead, Tuples, PrintTuples, Quotes;
    var head, tuples := InsertHead(ts, st), PrintTuples(st.tuples);
    HeadPlain(ts, st);
    if j < |head| {
      assert PrintInsert(ts, st)[..j] == head[..j];
      NoQuotes(head[..j]);
    } else {
      var values := tuples[..j - |head|];
      assert PrintInsert(ts, st)[..j] == head + values;
      QuotesJoin(head, values);
      NoQuotes(head);
      HeadRead(ts, st, values, batch);
      assert Blank(" ") by { OneBlank(); }
      CutTuples(st.table, |ts[st.table].columns|, st.listed, " ", st.tuples, j - |head|, batch);
    }
  }

  /** A printed statement that runs on past its `;` is refused. */
  lemma OverrunStatement(ts: seq<Table>, st: Insert, more: string, batch: seq<InsertRow>)
    requires Shape(ts) && Printable(ts, st) && |st.listed| <= MAX_COLUMNS && |batch| <= MAX_BATCH_ROWS
    ensures Statement(ts, PrintInsert(ts, st) + (";" + more), batch).Err?
  {
    hide Statement, PrintInsert, InsertRows;
    StatementRead(ts, st, ";" + more, batch);
    NoSkip(';', more);
  }

  // ---- Trimming a slice ----

  lemma {:induction false} TrimmedOff(s: string)
    ensures forall i :: |TrimRight(s)| <= i < |s| ==> IsSpace(s[i])
    decreases |s|
  {
    if s != [] && IsSpace(s[|s| - 1]) { TrimmedOff(s[..|s| - 1]); }
  }

  predicate Lead(lead: string) {
    lead == "" || lead == "\n"
  }

  /** Trimming a slice takes off its line end and the blanks at its own end. */
  lemma TrimSlice(lead: string, x: string) returns (n: nat)
    requires Lead(lead) && x != "" && !IsSpace(x[0])
    ensures n <= |x| && Trim(lead + x) == x[..n]
    ensures forall i :: n <= i < |x| ==> IsSpace(x[i])
  {
    hide TrimRight, Trim;
    var core := TrimRight(x);
    n := |core|;
    TrimmedOff(x);
    assert core == x[..n];
    TrimMeans(lead, core, x[n..]);
    assert lead + core + x[n..] == lead + x;
  }

  lemma InsertStarts(ts: seq<Table>, st: Insert)
    requires Printable(ts, st)
    ensures PrintInsert(ts, st) != "" && PrintInsert(ts, st)[0] == 'I'
  {
    hide PrintNames, PrintTuples;
  }

  lemma {:induction false} TuplesEnd(tuples: seq<seq<Cell>>)
    requires tuples != []
    ensures PrintTuples(tuples) != "" && PrintTuples(tuples)[|PrintTuples(tuples)| - 1] == ')'
    decreases |tuples|
  {
    if |tuples| > 1 { TuplesEnd(tuples[1..]); }
  }

  lemma PrintedTrim(ts: seq<Table>, lead: string, st: Insert)
    requires Printable(ts, st) && Lead(lead)
    ensures Trim(lead + PrintInsert(ts, st)) == PrintInsert(ts, st)
  {
    hide PrintTuples, InsertHead, Trim;
    var p := PrintInsert(ts, st);
    TuplesEnd(st.tuples);
    InsertStarts(ts, st);
    var n := TrimSlice(lead, p);
    assert p[|p| - 1] == ')';
    assert n == |p| && p[..n] == p;
  }

  /** A slice that ends at a `;` inside a printed statement is refused. */
  lemma CutSlice(ts: seq<Table>, lead: string, st: Insert, i: nat, batch: seq<InsertRow>)
    requires Shape(ts) && Printable(ts, st) && |st.listed| <= MAX_COLUMNS && Lead(lead)
    requires i < |PrintInsert(ts, st)| && PrintInsert(ts, st)[i] == ';'
    ensures Statement(ts, Trim(lead + PrintInsert(ts, st)[..i]), batch).Err?
  {
    hide Statement, PrintInsert, Trim, Quotes;
    var p := PrintInsert(ts, st);
    InsertStarts(ts, st);
    InsertClosed(ts, st);
    var n := TrimSlice(lead, p[..i]);
    assert p[..i] == p[..n] + p[n..i] && p[..i][..n] == p[..n];
    forall k | 0 <= k < |p[n..i]|
      ensures p[n..i][k] != '\''
    {
      assert IsSpace(p[..i][n + k]);
    }
    NoQuotes(p[n..i]);
    QuotesJoin(p[..n], p[n..i]);
    CutStatement(ts, st, n, batch);
  }

  /** A slice that runs on past the `;` of a printed statement is refused. */
  lemma RunOnSlice(ts: seq<Table>, lead: string, st: Insert, slice: string, batch: seq<InsertRow>)
    requires Shape(ts) && Printable(ts, st) && |st.listed| <= MAX_COLUMNS && |batch| <= MAX_BATCH_ROWS && Lead(lead)
    requires lead + PrintInsert(ts, st) + ";" <= slice
    ensures Statement(ts, Trim(slice), batch).Err?
  {
    hide Statement, PrintInsert, Trim;
    var p := PrintInsert(ts, st);
    InsertStarts(ts, st);
    var x := AfterLead(lead, p, slice);
    var n := TrimSlice(lead, x);
    assert !IsSpace(x[|p|]);
    assert x[..n] == p + (";" + x[|p| + 1..n]) by { RunOn(p, x, n); }
    OverrunStatement(ts, st, x[|p| + 1..n], batch);
  }

  lemma AfterLead(lead: string, p: string, slice: string) returns (x: string)
    requires lead + p + ";" <= slice && p != ""
    ensures slice == lead + x && |x| > |p| && p == x[..|p|] && x[|p|] == ';' && x[0] == p[0]
  {
    x := slice[|lead|..];
    assert slice[..|lead + p + ";"|] == lead + p + ";";
    assert x[..|p| + 1] == p + ";";
    assert p == x[..|p| + 1][..|p|];
  }

  lemma RunOn(p: string, x: string, n: nat)
    requires |p| < n <= |x| && p == x[..|p|] && x[|p|] == ';'
    ensures x[..n] == p + (";" + x[|p| + 1..n])
  {
  }

  // ---- Splitting a printed batch ----

  predicate PrintableBatch(ts: seq<Table>, sts: seq<Insert>) {
    forall i :: 0 <= i < |sts| ==> Printable(ts, sts[i]) && |sts[i].listed| <= MAX_COLUMNS
  }

  /** The slices a printed batch should be split into. */
  function Slices(ts: seq<Table>, lead: string, sts: seq<Insert>): (r: seq<string>)
    requires PrintableBatch(ts, sts)
    ensures |r| == |sts|
    decreases |sts|
  {
    if sts == [] then [] else [lead + PrintInsert(ts, sts[0])] + Slices(ts, "\n", sts[1..])
  }

  lemma {:induction false} FirstExtends(s: string, e: bool, q: bool, cur: string)
    ensures cur <= SplitFrom(s, e, q, cur)[0]
    decreases |s|
  {
    if s != "" {
      var quoted := if s[0] == '\'' && !e then !q else q;
      FirstExtends(s[1..], s[0] == '\\', quoted, cur + [s[0]]);
    }
  }

  /** Either the splitter cuts inside `a`, or it goes on behind it. */
  lemma {:induction false} SplitPast(a: string, b: string, e: bool, q: bool, cur: string)
    returns (cut: bool, i: nat, e': bool, q': bool)
    ensures cut ==> i < |a| && a[i] == ';' && SplitFrom(a + b, e, q, cur)[0] == cur + a[..i]
    ensures !cut ==> SplitFrom(a + b, e, q, cur) == SplitFrom(b, e', q', cur + a)
    decreases |a|
  {
    cut, i, e', q' := false, 0, e, q;
    if a == "" {
      assert a + b == b && cur + a == cur;
    } else {
      var quoted := if a[0] == '\'' && !e then !q else q;
      assert (a + b)[0] == a[0] && (a + b)[1..] == a[1..] + b;
      if a[0] == ';' && !quoted {
        cut := true;
        assert cur + a[..0] == cur;
      } else {
        cut, i, e', q' := SplitPast(a[1..], b, a[0] == '\\', quoted, cur + [a[0]]);
        if cut {
          assert cur + [a[0]] + a[1..][..i] == cur + a[..i + 1];
          i := i + 1;
        } else {
          assert cur + [a[0]] + a[1..] == cur + a;
        }
      }
    }
  }

  lemma NextSlice(more: string, e: bool, cur: string)
    ensures SplitFrom(";\n" + more, e, false, cur) == [cur] + SplitFrom(more, false, false, "\n")
    ensures SplitFrom(";\n" + more, e, true, cur) == SplitFrom("\n" + more, false, true, cur + ";")
  {
    assert (";\n" + more)[1..] == "\n" + more;
    assert ("\n" + more)[1..] == more;
    assert "" + ['\n'] == "\n";
  }

  lemma BadFirst(ts: seq<Table>, slices: seq<string>, batch: seq<InsertRow>)
    requires Shape(ts) && slices != [] && Statement(ts, Trim(slices[0]), batch).Err?
    ensures Statements(ts, slices, batch).Err?
  {
    hide Statement, Trim;
  }

  /** A printed batch is split as it was printed, or it is refused. */
  lemma {:induction false} SplitOrRefused(ts: seq<Table>, lead: string, sts: seq<Insert>, batch: seq<InsertRow>)
    requires Shape(ts) && PrintableBatch(ts, sts) && sts != [] && Lead(lead) && |batch| <= MAX_BATCH_ROWS
    ensures var slices := SplitFrom(PrintBatch(ts, sts), false, false, lead);
            slices == Slices(ts, lead, sts) || Statements(ts, slices, batch).Err?
    decreases |sts|
  {
    hide SplitFrom, PrintInsert, Printable, Statement, Statements, Trim, Shape;
    var p := PrintInsert(ts, sts[0]);
    var more := if |sts| == 1 then "" else PrintBatch(ts, sts[1..]);
    var rest := if |sts| == 1 then "" else ";\n" + more;
    var slices := SplitFrom(PrintBatch(ts, sts), false, false, lead);
    assert PrintBatch(ts, sts) == p + rest by { FirstPrinted(ts, sts); }
    var cut, i, e, q := SplitPast(p, rest, false, false, lead);
    if cut {
      CutSlice(ts, lead, sts[0], i, batch);
      BadFirst(ts, slices, batch);
    } else if |sts| == 1 {
      LastSlice(e, q, lead + p);
      assert sts[1..] == [];
    } else {
      NextSlice(more, e, lead + p);
      if q {
        FirstExtends("\n" + more, false, true, lead + p + ";");
        RunOnSlice(ts, lead, sts[0], slices[0], batch);
        BadFirst(ts, slices, batch);
      } else {
        var others := SplitFrom(more, false, false, "\n");
        PrintedTrim(ts, lead, sts[0]);
        AfterFirst(ts, lead + p, others, p, sts[0], batch);
        if Statements(ts, slices, batch).Ok? {
          SplitOrRefused(ts, "\n", sts[1..], Statement(ts, p, batch).value);
        }
      }
    }
  }

  lemma FirstPrinted(ts: seq<Table>, sts: seq<Insert>)
    requires PrintableBatch(ts, sts) && sts != []
    ensures PrintBatch(ts, sts) ==
            PrintInsert(ts, sts[0]) + if |sts| == 1 then "" else ";\n" + PrintBatch(ts, sts[1..])
  {
    hide PrintInsert, Printable;
    assert PrintInsert(ts, sts[0]) + "" == PrintInsert(ts, sts[0]);
  }

  lemma LastSlice(e: bool, q: bool, cur: string)
    ensures SplitFrom("", e, q, cur) == [cur]
  {
  }

  lemma AfterFirst(ts: seq<Table>, slice: string, others: seq<string>, p: string, st: Insert, batch: seq<InsertRow>)
    requires Shape(ts) && Printable(ts, st) && |st.listed| <= MAX_COLUMNS && |batch| <= MAX_BATCH_ROWS
    requires p == PrintInsert(ts, st) && Trim(slice) == p
    ensures Statements(ts, [slice] + others, batch) ==
            if |slice| >= MAX_STATEMENT then Err(StatementTooLarge)
            else if |batch| + |st.tuples| > MAX_BATCH_ROWS then Err(TooManyRows)
            else Statements(ts, others, batch + InsertRows(ts, StoredInsert(st)))
    ensures |batch| + |st.tuples| <= MAX_BATCH_ROWS ==>
              Statement(ts, p, batch) == Ok(batch + InsertRows(ts, StoredInsert(st)))
  {
    hide Statement, PrintInsert, Trim, InsertRows, StoredInsert, Tuples;
    StatementRead(ts, st, "", batch);
    assert p + "" == p;
    NamesFit(ts, st);
    if |batch| + |st.tuples| <= MAX_BATCH_ROWS {
      NoMoreTuples(st.table, |ts[st.table].columns|, st.listed, batch + InsertRows(ts, StoredInsert(st)));
    }
    assert ([slice] + others)[1..] == others;
  }

  lemma NamesFit(ts: seq<Table>, st: Insert)
    requires Printable(ts, st) && |st.listed| <= MAX_COLUMNS
    ensures MapFor(st.listed, |ts[st.table].columns|) && Placeable(ts, st) && Placeable(ts, StoredInsert(st))
    ensures |InsertRows(ts, StoredInsert(st))| == |InsertRows(ts, st)| == |st.tuples|
  {
    hide WordName, ColumnIndex;
  }

  // ---- The same by literals ----

  /** With every `;` of `a` inside a literal, counting quotes does not cut in `a`. */
  lemma {:induction false} ParityPast(a: string, b: string, r: bool, cur: string)
    requires forall i :: 0 <= i < |a| && a[i] == ';' ==> (Odd(a[..i]) != r)
    ensures SplitAtParity(a + b, r, cur) == SplitAtParity(b, Odd(a) != r, cur + a)
    decreases |a|
  {
    if a == "" {
      assert a + b == b && cur + a == cur;
    } else {
      var tail := a[1..];
      var r' := if a[0] == '\'' then !r else r;
      assert (a + b)[0] == a[0] && (a + b)[1..] == tail + b;
      assert a[..0] == "";
      forall i | 0 <= i < |tail| && tail[i] == ';'
        ensures Odd(tail[..i]) != r'
      {
        assert a[i + 1] == ';' && a[..i + 1][1..] == tail[..i];
      }
      ParityPast(tail, b, r', cur + [a[0]]);
      assert cur + [a[0]] + tail == cur + a;
    }
  }

  lemma NextLiteralSlice(more: string, cur: string)
    ensures SplitAtParity(";\n" + more, false, cur) == [cur] + SplitAtParity(more, false, "\n")
    ensures SplitAtParity("", false, cur) == [cur]
  {
    assert (";\n" + more)[1..] == "\n" + more;
    assert ("\n" + more)[1..] == more;
    assert "" + ['\n'] == "\n";
  }

  /** Split by its literals, a printed batch falls into the printed statements. */
  lemma {:induction false} LiteralSlices(ts: seq<Table>, lead: string, sts: seq<Insert>)
    requires PrintableBatch(ts, sts) && sts != []
    ensures SplitAtParity(PrintBatch(ts, sts), false, lead) == Slices(ts, lead, sts)
    decreases |sts|
  {
    hide SplitAtParity, PrintInsert, Printable, Quotes;
    var p := PrintInsert(ts, sts[0]);
    var more := if |sts| == 1 then "" else PrintBatch(ts, sts[1..]);
    var rest := if |sts| == 1 then "" else ";\n" + more;
    assert PrintBatch(ts, sts) == p + rest by { FirstPrinted(ts, sts); }
    InsertClosed(ts, sts[0]);
    ParityPast(p, rest, false, lead);
    NextLiteralSlice(more, lead + p);
    if |sts| == 1 { assert sts[1..] == []; } else { LiteralSlices(ts, "\n", sts[1..]); }
  }

  // ---- The batch ----

  predicate PlaceableBatch(ts: seq<Table>, sts: seq<Insert>) {
    forall i :: 0 <= i < |sts| ==> Placeable(ts, sts[i])
  }

  function BatchRows(ts: seq<Table>, sts: seq<Insert>): seq<InsertRow>
    requires PlaceableBatch(ts, sts)
    decreases |sts|
  {
    if sts == [] then [] else InsertRows(ts, sts[0]) + BatchRows(ts, sts[1..])
  }

  function StoredBatch(sts: seq<Insert>): (r: seq<Insert>)
    ensures |r| == |sts| && forall i :: 0 <= i < |sts| ==> r[i] == StoredInsert(sts[i])
  {
    seq(|sts|, i requires 0 <= i < |sts| => StoredInsert(sts[i]))
  }

  lemma {:induction false} StoredCount(ts: seq<Table>, sts: seq<Insert>)
    requires PlaceableBatch(ts, sts)
    ensures PlaceableBatch(ts, StoredBatch(sts))
    ensures |BatchRows(ts, StoredBatch(sts))| == |BatchRows(ts, sts)|
    decreases |sts|
  {
    if sts != [] {
      assert StoredBatch(sts)[1..] == StoredBatch(sts[1..]);
      StoredCount(ts, sts[1..]);
    }
  }

  lemma {:induction false} SlicesRead(ts: seq<Table>, lead: string, sts: seq<Insert>, batch: seq<InsertRow>)
    requires Shape(ts) && PrintableBatch(ts, sts) && Lead(lead) && |batch| <= MAX_BATCH_ROWS
    requires PlaceableBatch(ts, sts) && PlaceableBatch(ts, StoredBatch(sts))
    ensures (forall i :: 0 <= i < |sts| ==> |Slices(ts, lead, sts)[i]| < MAX_STATEMENT) ==>
              Statements(ts, Slices(ts, lead, sts), batch) ==
              if |batch| + |BatchRows(ts, sts)| <= MAX_BATCH_ROWS then Ok(batch + BatchRows(ts, StoredBatch(sts)))
              else Err(TooManyRows)
    decreases |sts|
  {
    hide Statement, PrintInsert, Trim, InsertRows, Printable, StoredInsert, Placeable, Shape;
    if sts == [] {
      assert batch + [] == batch;
    } else {
      var st := sts[0];
      var p := PrintInsert(ts, st);
      var others := Slices(ts, "\n", sts[1..]);
      PrintedTrim(ts, lead, st);
      AfterFirst(ts, lead + p, others, p, st, batch);
      NamesFit(ts, st);
      assert StoredBatch(sts)[0] == StoredInsert(st) && StoredBatch(sts)[1..] == StoredBatch(sts[1..]);
      assert forall i :: 0 <= i < |others| ==> Slices(ts, lead, sts)[i + 1] == others[i];
      assert |Slices(ts, lead, sts)[0]| == |lead + p|;
      if |batch| + |st.tuples| <= MAX_BATCH_ROWS {
        var batch' := batch + InsertRows(ts, StoredInsert(st));
        SlicesRead(ts, "\n", sts[1..], batch');
        assert batch' + BatchRows(ts, StoredBatch(sts[1..])) == batch + BatchRows(ts, StoredBatch(sts));
      }
    }
  }

  lemma StoredSize(ts: seq<Table>, st: Insert)
    requires Placeable(ts, st)
    ensures Placeable(ts, StoredInsert(st)) && |InsertRows(ts, StoredInsert(st))| == |InsertRows(ts, st)|
  {
  }

  lemma {:induction false} FitNeeded(ts: seq<Table>, slices: seq<string>, batch: seq<InsertRow>)
    requires Shape(ts) && Statements(ts, slices, batch).Ok?
    ensures forall i :: 0 <= i < |slices| ==> |slices[i]| < MAX_STATEMENT
    decreases |slices|
  {
    hide Statement, Trim;
    if slices != [] {
      var r := Statement(ts, Trim(slices[0]), batch);
      FitNeeded(ts, slices[1..], r.value);
      assert forall i :: 0 < i < |slices| ==> slices[i] == slices[1..][i - 1];
    }
  }

  /** Every `;` has an even number of backslash-preceded quotes before it. */
  predicate Unmisled(sql: string) {
    forall p :: 0 <= p < |sql| && sql[p] == ';' ==> EscapedQuotes(sql[..p], false) % 2 == 0
  }

  /** What can be read at all: no `;` is misjudged, every statement fits its buffer, and the rows fit
      the batch. */
  predicate Readable(ts: seq<Table>, sts: seq<Insert>)
    requires PrintableBatch(ts, sts)
  {
    && Unmisled(PrintBatch(ts, sts))
    && (forall i :: 0 <= i < |sts| ==> |Slices(ts, "", sts)[i]| < MAX_STATEMENT)
    && PlaceableBatch(ts, sts) && |BatchRows(ts, sts)| <= MAX_BATCH_ROWS
  }

  lemma PrintableIsPlaceable(ts: seq<Table>, sts: seq<Insert>)
    requires PrintableBatch(ts, sts)
    ensures PlaceableBatch(ts, sts) && (sts != [] ==> BatchRows(ts, sts) != [])
  {
    hide WordName, ColumnIndex, TableIndex;
    if sts != [] { NamesFit(ts, sts[0]); }
  }

  lemma SplitAsPrinted(ts: seq<Table>, sts: seq<Insert>)
    requires PrintableBatch(ts, sts) && sts != []
    ensures Split(PrintBatch(ts, sts)) == Slices(ts, "", sts) <==> Unmisled(PrintBatch(ts, sts))
  {
    hide SplitAtParity, SplitFrom, Slices, PrintBatch, EscapedQuotes;
    LiteralSlices(ts, "", sts);
    LiteralsHaveParity(PrintBatch(ts, sts), "");
    SplitAgreesExactly(PrintBatch(ts, sts));
  }

  /** A printed batch is accepted exactly when it is readable, and then it is read as the rows it
      means, each value as the store keeps it. */
  lemma PrintedBatchRead(ts: seq<Table>, sts: seq<Insert>)
    requires Shape(ts) && PrintableBatch(ts, sts) && sts != []
    ensures PlaceableBatch(ts, sts) && PlaceableBatch(ts, StoredBatch(sts))
    ensures Batch(ts, PrintBatch(ts, sts)).Ok? <==> Readable(ts, sts)
    ensures Readable(ts, sts) ==> Batch(ts, PrintBatch(ts, sts)) == Ok(BatchRows(ts, StoredBatch(sts)))
  {
    hide SplitFrom, Statements, PrintBatch, Printable, Slices, StoredBatch, Unmisled, BatchRows, PlaceableBatch;
    PrintableIsPlaceable(ts, sts);
    StoredCount(ts, sts);
    SplitAsPrinted(ts, sts);
    SplitOrRefused(ts, "", sts, []);
    SlicesRead(ts, "", sts, []);
    var sql := PrintBatch(ts, sts);
    var rows := BatchRows(ts, StoredBatch(sts));
    assert [] + rows == rows;
    if Statements(ts, Split(sql), []).Ok? { FitNeeded(ts, Split(sql), []); }
  }

  // ---- The round trip, exactly ----

  predicate AllSurvive(tuples: seq<seq<Cell>>) {
    forall i, j :: 0 <= i < |tuples| && 0 <= j < |tuples[i]| ==> Survives(tuples[i][j])
  }

  predicate NoRepeats(listed: seq<nat>) {
    forall i, j :: 0 <= i < j < |listed| ==> listed[i] != listed[j]
  }

  /** Laying out cells over distinct columns forgets nothing. */
  lemma PlacedRowsDiffer(width: nat, listed: seq<nat>, a: seq<Cell>, b: seq<Cell>)
    requires |listed| == |a| == |b| && NoRepeats(listed)
    requires forall j :: 0 <= j < |listed| ==> listed[j] < width
    ensures PlacedRow(width, listed, a) == PlacedRow(width, listed, b) <==> a == b
  {
    if PlacedRow(width, listed, a) == PlacedRow(width, listed, b) {
      forall j | 0 <= j < |a|
        ensures a[j] == b[j]
      {
        PlaceMeans(NullRow(width), listed, a, listed[j]);
        PlaceMeans(NullRow(width), listed, b, listed[j]);
      }
    }
  }

  lemma StoredCellsSame(cells: seq<Cell>)
    ensures StoredCells(cells) == cells <==> forall j :: 0 <= j < |cells| ==> Survives(cells[j])
  {
    forall j | 0 <= j < |cells|
      ensures StoredCells(cells)[j] == cells[j] <==> Survives(cells[j])
    {
      SurvivesExactly(cells[j]);
    }
  }

  lemma {:induction false} TupleRowsSame(t: nat, width: nat, listed: seq<nat>, tuples: seq<seq<Cell>>)
    requires NoRepeats(listed) && forall j :: 0 <= j < |listed| ==> listed[j] < width
    requires forall i :: 0 <= i < |tuples| ==> |tuples[i]| == |listed|
    ensures TupleRows(t, width, listed, StoredTuples(tuples)) == TupleRows(t, width, listed, tuples) <==>
            AllSurvive(tuples)
    decreases |tuples|
  {
    hide StoredCells, PlacedRow, Survives;
    if tuples != [] {
      var stored := StoredTuples(tuples);
      assert stored[1..] == StoredTuples(tuples[1..]);
      TupleRowsSame(t, width, listed, tuples[1..]);
      PlacedRowsDiffer(width, listed, stored[0], tuples[0]);
      StoredCellsSame(tuples[0]);
      var x, y := TupleRows(t, width, listed, stored), TupleRows(t, width, listed, tuples);
      assert x == y <==> x[0] == y[0] && x[1..] == y[1..];
      SurviveSplit(tuples);
    }
  }

  lemma SurviveSplit(tuples: seq<seq<Cell>>)
    requires tuples != []
    ensures AllSurvive(tuples) <==>
            AllSurvive(tuples[1..]) && forall j :: 0 <= j < |tuples[0]| ==> Survives(tuples[0][j])
  {
    hide Survives;
    assert forall i :: 0 < i < |tuples| ==> tuples[i] == tuples[1..][i - 1];
  }

  lemma {:induction false} BatchRowsSame(ts: seq<Table>, sts: seq<Insert>)
    requires PlaceableBatch(ts, sts) && PlaceableBatch(ts, StoredBatch(sts))
    requires forall i :: 0 <= i < |sts| ==> NoRepeats(sts[i].listed)
    ensures BatchRows(ts, StoredBatch(sts)) == BatchRows(ts, sts) <==>
            forall i :: 0 <= i < |sts| ==> AllSurvive(sts[i].tuples)
    decreases |sts|
  {
    hide TupleRows, AllSurvive, NoRepeats, StoredTuples;
    if sts != [] {
      assert StoredBatch(sts)[1..] == StoredBatch(sts[1..]);
      BatchRowsSame(ts, sts[1..]);
      TupleRowsSame(sts[0].table, |ts[sts[0].table].columns|, sts[0].listed, sts[0].tuples);
      var a, b := InsertRows(ts, StoredInsert(sts[0])), InsertRows(ts, sts[0]);
      var c, d := BatchRows(ts, StoredBatch(sts[1..])), BatchRows(ts, sts[1..]);
      StoredSize(ts, sts[0]);
      JoinSame(a, b, c, d);
      assert (forall i :: 0 <= i < |sts| ==> AllSurvive(sts[i].tuples)) <==>
             AllSurvive(sts[0].tuples) && forall i :: 0 <= i < |sts[1..]| ==> AllSurvive(sts[1..][i].tuples) by {
        assert forall i :: 0 < i < |sts| ==> sts[i] == sts[1..][i - 1];
      }
    }
  }

  lemma JoinSame<T>(a: seq<T>, b: seq<T>, c: seq<T>, d: seq<T>)
    requires |a| == |b|
    ensures a + c == b + d <==> a == b && c == d
  {
    if a + c == b + d {
      assert a == (a + c)[..|a|] && b == (b + d)[..|a|];
      assert c == (a + c)[|a|..] && d == (b + d)[|a|..];
    }
  }

  /** The round trip, exactly. Rows printed as INSERT statements are read back unchanged and in order
      exactly when the batch is readable and every value fits its buffer, has no outer blanks and is
      not the text NULL. */
  lemma RoundTrip(ts: seq<Table>, sts: seq<Insert>)
    requires Shape(ts) && PrintableBatch(ts, sts) && sts != []
    requires forall i :: 0 <= i < |sts| ==> NoRepeats(sts[i].listed)
    ensures PlaceableBatch(ts, sts)
    ensures Batch(ts, PrintBatch(ts, sts)) == Ok(BatchRows(ts, sts)) <==>
            Readable(ts, sts) && forall i :: 0 <= i < |sts| ==> AllSurvive(sts[i].tuples)
  {
    hide AllSurvive, NoRepeats, PrintableBatch, BatchRows, StoredBatch, PrintBatch, Readable;
    PrintedBatchRead(ts, sts);
    BatchRowsSame(ts, sts);
  }
}
