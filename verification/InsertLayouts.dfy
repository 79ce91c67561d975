/** Reading INSERT statements in any layout: values bare or quoted, with blanks around them, names bare or
    delimited, keywords in any case, column lists present or not. */
module InsertLayouts {
  import opened Schema
  import opened Text
  import opened InsertSyntax
  import opened InsertTotality
  import opened InsertRoundTrip

  // ---- What one value is stored as ----

  /** A value's text: blanks, a core without outer blanks, blanks, and what does not fit the buffer. */
  predicate Layout(a: string, core: string, b: string, cut: string) {
    && Blank(a) && Blank(b) && Trimmed(core)
    && |a + core + b| < MAX_VALUE && (cut != "" ==> |a + core + b| == MAX_VALUE - 1)
  }

  function Meant(core: string): Cell {
    if core == "NULL" then Null else Text(core)
  }

  lemma CellMeant(a: string, core: string, b: string, cut: string)
    requires Layout(a, core, b, cut)
    ensures CellOf(a + core + b + cut) == Meant(core)
  {
    hide Trim;
    var kept := a + core + b;
    assert Cap(kept + cut, MAX_VALUE) == kept by {
      if cut == "" { assert kept + cut == kept; } else { assert (kept + cut)[..MAX_VALUE - 1] == kept; }
    }
    TrimMeans(a, core, b);
  }

  /** A quoted value is stored as its first 127 characters without the blanks around them, and as NULL
      when they read NULL. */
  lemma QuotedValue(lead: string, a: string, core: string, b: string, cut: string, rest: string)
    requires Blank(lead) && Layout(a, core, b, cut) && (rest == "" || rest[0] != '\'')
    ensures Value(lead + ("'" + (Doubled(a + core + b + cut) + "'" + rest))) == Parsed(Meant(core), rest)
  {
    hide Value, Doubled, CellOf, Layout, Blank;
    var v := a + core + b + cut;
    var s := "'" + (Doubled(v) + "'" + rest);
    QuotedRead(v, rest);
    CellMeant(a, core, b, cut);
    LeadSkipped(lead, s);
    SameValue(lead + s, s);
  }

  /** So is one whose closing quote is missing. */
  lemma UnclosedValue(lead: string, a: string, core: string, b: string, cut: string)
    requires Blank(lead) && Layout(a, core, b, cut)
    ensures Value(lead + ("'" + Doubled(a + core + b + cut))) == Parsed(Meant(core), "")
  {
    hide Layout, Blank, CellOf, LiteralBody, Doubled, SkipWs;
    var v := a + core + b + cut;
    var s := "'" + Doubled(v);
    UnclosedRead(v);
    CellMeant(a, core, b, cut);
    LeadSkipped(lead, s);
    SameValue(lead + s, s);
    assert s[1..] == Doubled(v);
  }

  lemma {:induction false} UnclosedRead(v: string)
    ensures LiteralBody(Doubled(v)) == Parsed(v, "")
    decreases |v|
  {
    if v != "" {
      UnclosedRead(v[1..]);
      var tail := Doubled(v[1..]);
      if v[0] == '\'' {
        assert Doubled(v) == "''" + tail && Doubled(v)[2..] == tail;
      } else {
        assert Doubled(v) == [v[0]] + tail && Doubled(v)[1..] == tail;
      }
      assert v == [v[0]] + v[1..];
    }
  }

  /** A bare value: no quote at its start and no delimiter in it. */
  predicate BareCore(core: string) {
    && core != "" && Trimmed(core) && core[0] != '\''
    && forall i :: 0 <= i < |core| ==> core[i] != ',' && core[i] != ')'
  }

  predicate NoDelimiter(s: string) {
    forall i :: 0 <= i < |s| ==> s[i] != ',' && s[i] != ')'
  }

  /** A bare value runs to the next comma or parenthesis; it too is stored without the blanks around it,
      cut to 127 characters, and as NULL when it reads NULL. */
  lemma BareValue(lead: string, core: string, b: string, cut: string, rest: string)
    requires Blank(lead) && BareCore(core) && Layout("", core, b, cut) && NoDelimiter(cut)
    requires rest == "" || rest[0] == ',' || rest[0] == ')'
    ensures Value(lead + (core + b + cut + rest)) == Parsed(Meant(core), rest)
  {
    hide CellOf, SkipWs;
    var word := core + b + cut;
    var s := word + rest;
    assert "" + core == core;
    forall i | 0 <= i < |word|
      ensures word[i] != ',' && word[i] != ')'
    {
      if i >= |core| && i < |core + b| { assert b[i - |core|] in b; }
    }
    if rest == "" { RunToEnd(word); assert s == word; } else { BareRead(word, rest); }
    CellMeant("", core, b, cut);
    assert s[0] == core[0];
    LeadSkipped(lead, s);
    assert s[..|word|] == word && s[|word|..] == rest;
  }

  lemma {:induction false} RunToEnd(word: string)
    requires NoDelimiter(word)
    ensures BareRun(word) == |word|
    decreases |word|
  {
    if word != "" { RunToEnd(word[1..]); }
  }

  /** An empty place between delimiters is the empty text. */
  lemma EmptyValue(lead: string, rest: string)
    requires Blank(lead) && (rest == "" || rest[0] == ',' || rest[0] == ')')
    ensures Value(lead + rest) == Parsed(Text(""), rest)
  {
    hide SkipWs;
    SkipWsMeans(lead, rest);
    CellMeant("", "", "", "");
    assert "" + "" + "" + "" == "" && rest[..0] == "" && rest[0..] == rest;
  }

  /** Every text has such a layout, so these laws settle what any value is stored as. */
  lemma EveryLayout(v: string) returns (a: string, core: string, b: string, cut: string)
    ensures Layout(a, core, b, cut) && v == a + core + b + cut
  {
    var kept := Cap(v, MAX_VALUE);
    cut := v[|kept|..];
    a, core, b := Blanks(kept);
  }

  lemma {:induction false} Blanks(s: string) returns (a: string, core: string, b: string)
    ensures Blank(a) && Blank(b) && Trimmed(core) && s == a + core + b
    decreases |s|
  {
    if s == "" {
      a, core, b := "", "", "";
    } else if IsSpace(s[0]) {
      a, core, b := Blanks(s[1..]);
      a := [s[0]] + a;
    } else if IsSpace(s[|s| - 1]) {
      a, core, b := Blanks(s[..|s| - 1]);
      b := b + [s[|s| - 1]];
    } else {
      a, core, b := "", s, "";
    }
  }

  // ---- Values and tuples ----

  /** A value as it is written between two delimiters. */
  datatype Written = Written(lead: string, quoted: bool, a: string, core: string, b: string, cut: string, after: string)

  predicate LegalValue(w: Written) {
    && Blank(w.lead) && Blank(w.after) && Layout(w.a, w.core, w.b, w.cut)
    && (!w.quoted ==> w.a == "" && w.after == "" && BareCore(w.core) && NoDelimiter(w.cut))
  }

  function ValueText(w: Written): string {
    if w.quoted then w.lead + ("'" + (Doubled(w.a + w.core + w.b + w.cut) + "'" + w.after))
    else w.lead + (w.core + w.b + w.cut)
  }

  predicate Delimits(rest: string) {
    rest != "" && (rest[0] == ',' || rest[0] == ')')
  }

  lemma BlankThen(after: string, rest: string)
    requires Blank(after) && Delimits(rest)
    ensures SkipWs(after + rest) == rest && after + rest != "" && (after + rest)[0] != '\''
  {
    hide SkipWs;
    SkipWsMeans(after, rest);
    if after != "" { assert after[0] in after; }
  }

  lemma WrittenRead(w: Written, rest: string)
    requires LegalValue(w) && Delimits(rest)
    ensures Value(ValueText(w) + rest).value == Meant(w.core) && SkipWs(Value(ValueText(w) + rest).rest) == rest
    ensures ValueText(w) + rest != "" && (ValueText(w) + rest)[0] != ')'
  {
    hide Value, Doubled, Layout, Blank, SkipWs, BareCore, NoDelimiter, Trimmed;
    if w.quoted {
      var v := w.a + w.core + w.b + w.cut;
      BlankThen(w.after, rest);
      QuotedValue(w.lead, w.a, w.core, w.b, w.cut, w.after + rest);
      QuotedText(w.lead, Doubled(v), w.after, rest);
      LeadSkipped(w.lead, "'" + (Doubled(v) + "'" + (w.after + rest)));
    } else {
      BareValue(w.lead, w.core, w.b, w.cut, rest);
      var word := w.core + w.b + w.cut + rest;
      assert w.lead + (w.core + w.b + w.cut) + rest == w.lead + word;
      BareStarts(w.core);
      assert word[0] == w.core[0];
      LeadSkipped(w.lead, word);
      NothingSkipped(rest);
    }
  }

  lemma BareStarts(core: string)
    requires BareCore(core)
    ensures core != "" && !IsSpace(core[0]) && core[0] != ')'
  {
  }

  lemma NothingSkipped(rest: string)
    requires Delimits(rest)
    ensures SkipWs(rest) == rest
  {
  }

  lemma QuotedText(lead: string, body: string, after: string, rest: string)
    ensures lead + ("'" + (body + "'" + after)) + rest == lead + ("'" + (body + "'" + (after + rest)))
  {
    assert body + "'" + after + rest == body + "'" + (after + rest);
    assert "'" + (body + "'" + after) + rest == "'" + (body + "'" + after + rest);
  }

  /** One turn of the value loop. */
  lemma ValueTurn(listed: seq<nat>, text: string, cell: Cell, s: string, k: nat, row: Row)
    requires k < |listed| && forall j :: 0 <= j < |listed| ==> listed[j] < |row|
    requires text != "" && text[0] != ')' && Value(text).value == cell && SkipWs(Value(text).rest) == s && Delimits(s)
    ensures s[0] == ',' ==> Tuple(listed, text, k, row) == Tuple(listed, s[1..], k + 1, row[listed[k] := cell])
    ensures s[0] == ')' && k + 1 == |listed| ==> Tuple(listed, text, k, row) == Ok(Parsed(row[listed[k] := cell], s[1..]))
  {
    hide Value, SkipWs;
  }

  function ValuesText(ws: seq<Written>): string {
    if ws == [] then "" else if |ws| == 1 then ValueText(ws[0]) else ValueText(ws[0]) + "," + ValuesText(ws[1..])
  }

  function Cells(ws: seq<Written>): (r: seq<Cell>)
    ensures |r| == |ws| && forall i :: 0 <= i < |ws| ==> r[i] == Meant(ws[i].core)
  {
    seq(|ws|, i requires 0 <= i < |ws| => Meant(ws[i].core))
  }

  /** A comma may stand before the closing parenthesis. */
  function Close(trailing: bool, rest: string): string {
    (if trailing then "," else "") + (")" + rest)
  }

  lemma CloseText(trailing: bool, rest: string)
    ensures Delimits(Close(trailing, rest))
    ensures trailing ==> Close(trailing, rest)[1..] == ")" + rest && Close(trailing, rest)[0] == ','
    ensures !trailing ==> Close(trailing, rest) == ")" + rest && Close(trailing, rest)[1..] == rest
  {
    assert "" + (")" + rest) == ")" + rest;
  }

  lemma {:induction false} ValuesRead(listed: seq<nat>, ws: seq<Written>, trailing: bool, rest: string, k: nat, row: Row)
    requires ws != [] && k + |ws| == |listed| && forall j :: 0 <= j < |listed| ==> listed[j] < |row|
    requires forall i :: 0 <= i < |ws| ==> LegalValue(ws[i])
    ensures Tuple(listed, ValuesText(ws) + Close(trailing, rest), k, row) ==
            Ok(Parsed(Place(row, listed[k..], Cells(ws)), rest))
    decreases |ws|
  {
    hide Value, ValueText, Tuple, SkipWs, LegalValue, Meant, Close;
    var w, placed := ws[0], row[listed[k] := Meant(ws[0].core)];
    assert listed[k..][0] == listed[k] && listed[k..][1..] == listed[k + 1..];
    assert Cells(ws)[1..] == Cells(ws[1..]);
    CloseText(trailing, rest);
    if |ws| == 1 {
      var close := Close(trailing, rest);
      WrittenRead(w, close);
      ValueTurn(listed, ValueText(w) + close, Meant(w.core), close, k, row);
      assert listed[k + 1..] == [];
      if trailing { TupleCloses(listed, rest, placed); }
    } else {
      var more := ValuesText(ws[1..]) + Close(trailing, rest);
      assert ValuesText(ws) + Close(trailing, rest) == ValueText(w) + ("," + more);
      WrittenRead(w, "," + more);
      ValueTurn(listed, ValueText(w) + ("," + more), Meant(w.core), "," + more, k, row);
      assert ("," + more)[1..] == more;
      ValuesRead(listed, ws[1..], trailing, rest, k + 1, placed);
    }
  }

  lemma TupleCloses(listed: seq<nat>, rest: string, row: Row)
    requires forall j :: 0 <= j < |listed| ==> listed[j] < |row|
    ensures Tuple(listed, ")" + rest, |listed|, row) == Ok(Parsed(row, rest))
  {
    assert (")" + rest)[1..] == rest;
  }

  // ---- Tuples ----

  predicate Separator(s: string) {
    forall c :: c in s ==> c == ',' || IsSpace(c)
  }

  datatype WrittenTuple = WrittenTuple(lead: string, values: seq<Written>, trailing: bool)

  predicate LegalTuple(t: WrittenTuple, width: nat) {
    && Separator(t.lead) && |t.values| == width && (t.values == [] ==> !t.trailing)
    && forall i :: 0 <= i < |t.values| ==> LegalValue(t.values[i])
  }

  function TuplesText(tuples: seq<WrittenTuple>, end: string): string {
    if tuples == [] then end
    else
      tuples[0].lead +
      ("(" + (ValuesText(tuples[0].values) + Close(tuples[0].trailing, TuplesText(tuples[1..], end))))
  }

  lemma {:induction false} SeparatorSkipped(
      t: nat, width: nat, listed: seq<nat>, lead: string, s: string, batch: seq<InsertRow>)
    requires MapFor(listed, width) && Separator(lead)
    ensures Tuples(t, width, listed, lead + s, batch) == Tuples(t, width, listed, s, batch)
    decreases |lead|
  {
    hide Tuple;
    if lead == "" {
      assert lead + s == s;
    } else {
      assert lead[0] in lead;
      forall c | c in lead[1..]
        ensures c == ',' || IsSpace(c)
      {
        assert c in lead;
      }
      assert (lead + s)[1..] == lead[1..] + s;
      SeparatorSkipped(t, width, listed, lead[1..], s, batch);
    }
  }

  lemma OpenTuple(t: nat, width: nat, listed: seq<nat>, text: string, batch: seq<InsertRow>)
    requires MapFor(listed, width) && |batch| < MAX_BATCH_ROWS && Tuple(listed, text, 0, NullRow(width)).Ok?
    ensures var p := Tuple(listed, text, 0, NullRow(width)).value;
            Tuples(t, width, listed, "(" + text, batch) == Tuples(t, width, listed, p.rest, batch + [InsertRow(t, p.value)])
  {
    hide Tuple;
    assert ("(" + text)[1..] == text && SkipWs("(" + text) == "(" + text;
  }

  function WrittenRows(t: nat, width: nat, listed: seq<nat>, tuples: seq<WrittenTuple>): (r: seq<InsertRow>)
    requires forall j :: 0 <= j < |listed| ==> listed[j] < width
    requires forall i :: 0 <= i < |tuples| ==> |tuples[i].values| == |listed|
    ensures |r| == |tuples|
    ensures forall i :: 0 <= i < |tuples| ==> r[i] == InsertRow(t, PlacedRow(width, listed, Cells(tuples[i].values)))
  {
    if tuples == [] then []
    else [InsertRow(t, PlacedRow(width, listed, Cells(tuples[0].values)))] + WrittenRows(t, width, listed, tuples[1..])
  }

  lemma {:induction false} WrittenTuplesRead(
      t: nat, width: nat, listed: seq<nat>, tuples: seq<WrittenTuple>, end: string, batch: seq<InsertRow>)
    requires MapFor(listed, width) && Separator(end) && |batch| + |tuples| <= MAX_BATCH_ROWS
    requires forall i :: 0 <= i < |tuples| ==> |tuples[i].values| == |listed| && LegalTuple(tuples[i], |listed|)
    ensures Tuples(t, width, listed, TuplesText(tuples, end), batch) ==
            Ok(batch + WrittenRows(t, width, listed, tuples))
    decreases |tuples|
  {
    hide Tuple, Tuples, ValuesText, LegalTuple, Cells, PlacedRow, Separator, Close, NullRow, WrittenRows;
    if tuples == [] {
      SeparatorSkipped(t, width, listed, end, "", batch);
      NoMoreTuples(t, width, listed, batch);
      assert end + "" == end && batch + [] == batch;
    } else {
      var ir := InsertRow(t, PlacedRow(width, listed, Cells(tuples[0].values)));
      FirstTupleRead(t, width, listed, tuples[0], TuplesText(tuples[1..], end), batch);
      WrittenTuplesRead(t, width, listed, tuples[1..], end, batch + [ir]);
      FirstWritten(t, width, listed, tuples, batch);
    }
  }

  lemma FirstWritten(t: nat, width: nat, listed: seq<nat>, tuples: seq<WrittenTuple>, batch: seq<InsertRow>)
    requires tuples != [] && forall j :: 0 <= j < |listed| ==> listed[j] < width
    requires forall i :: 0 <= i < |tuples| ==> |tuples[i].values| == |listed|
    ensures batch + [InsertRow(t, PlacedRow(width, listed, Cells(tuples[0].values)))] +
              WrittenRows(t, width, listed, tuples[1..]) ==
            batch + WrittenRows(t, width, listed, tuples)
  {
    hide PlacedRow, Cells;
    var first := [InsertRow(t, PlacedRow(width, listed, Cells(tuples[0].values)))];
    assert WrittenRows(t, width, listed, tuples) == first + WrittenRows(t, width, listed, tuples[1..]);
  }

  lemma FirstTupleRead(
      t: nat, width: nat, listed: seq<nat>, first: WrittenTuple, others: string, batch: seq<InsertRow>)
    requires MapFor(listed, width) && |batch| < MAX_BATCH_ROWS
    requires |first.values| == |listed| && LegalTuple(first, |listed|)
    ensures Tuples(t, width, listed,
              first.lead + ("(" + (ValuesText(first.values) + Close(first.trailing, others))), batch) ==
            Tuples(t, width, listed, others, batch + [InsertRow(t, PlacedRow(width, listed, Cells(first.values)))])
  {
    hide Tuple, Tuples, ValuesText, LegalValue, Cells, PlacedRow, Separator, Close, NullRow;
    var text := ValuesText(first.values) + Close(first.trailing, others);
    SeparatorSkipped(t, width, listed, first.lead, "(" + text, batch);
    WrittenTupleRead(width, listed, first, others);
    OpenTuple(t, width, listed, text, batch);
  }

  lemma WrittenTupleRead(width: nat, listed: seq<nat>, t: WrittenTuple, rest: string)
    requires MapFor(listed, width) && LegalTuple(t, |listed|)
    ensures Tuple(listed, ValuesText(t.values) + Close(t.trailing, rest), 0, NullRow(width)) ==
            Ok(Parsed(PlacedRow(width, listed, Cells(t.values)), rest))
  {
    hide Tuple, LegalValue, Cells;
    assert listed[0..] == listed;
    if t.values == [] {
      TupleCloses(listed, rest, NullRow(width));
      assert ValuesText(t.values) + Close(t.trailing, rest) == ")" + rest;
    } else {
      ValuesRead(listed, t.values, t.trailing, rest, 0, NullRow(width));
    }
  }

  // ---- Names ----

  /** A name, bare or between double quotes or backticks, with blanks around it. */
  datatype WrittenName = WrittenName(lead: string, quote: Option<char>, name: string, after: string)

  predicate LegalName(w: WrittenName) {
    && Blank(w.lead) && Blank(w.after)
    && if w.quote.None? then WordName(w.name)
       else
         && (w.quote.value == '"' || w.quote.value == '`') && 1 <= |w.name| < MAX_NAME
         && forall i :: 0 <= i < |w.name| ==> w.name[i] != w.quote.value
  }

  function Spelled(w: WrittenName): string {
    if w.quote.None? then w.name else [w.quote.value] + (w.name + [w.quote.value])
  }

  function NameText(w: WrittenName): string {
    w.lead + (Spelled(w) + w.after)
  }

  lemma {:induction false} QuotedRunRead(name: string, quote: char, rest: string, limit: nat)
    requires |name| <= limit && (forall i :: 0 <= i < |name| ==> name[i] != quote)
    requires rest != "" && rest[0] == quote
    ensures QuotedRun(name + rest, quote, limit) == |name|
    decreases |name|
  {
    if name == "" {
      assert name + rest == rest;
    } else {
      assert (name + rest)[1..] == name[1..] + rest;
      QuotedRunRead(name[1..], quote, rest, limit - 1);
    }
  }

  lemma NameRead(w: WrittenName, rest: string)
    requires LegalName(w) && (w.quote.None? ==> w.after + rest == "" || !IsWord((w.after + rest)[0]))
    ensures Identifier(NameText(w) + rest) == Some(Parsed(w.name, w.after + rest))
    ensures NameText(w) + rest != "" && (NameText(w) + rest)[0] != ')'
  {
    hide SkipWs, WordRun, QuotedRun, Blank, Identifier;
    var more := w.after + rest;
    if w.quote.None? {
      assert NameText(w) + rest == w.lead + (w.name + more);
      IdentifierRead(w.lead, w.name, more);
    } else {
      var q := w.quote.value;
      var s := [q] + (w.name + ([q] + more));
      assert NameText(w) + rest == w.lead + s;
      LeadSkipped(w.lead, s);
      QuotedRunRead(w.name, q, [q] + more, MAX_NAME - 1);
      DelimitedName(w.lead + s, q, w.name, more);
    }
  }

  lemma DelimitedName(text: string, q: char, name: string, more: string)
    requires (q == '"' || q == '`') && 1 <= |name| && SkipWs(text) == [q] + (name + ([q] + more))
    requires QuotedRun(name + ([q] + more), q, MAX_NAME - 1) == |name|
    ensures Identifier(text) == Some(Parsed(name, more))
  {
    hide SkipWs, QuotedRun, WordRun;
    var s := name + ([q] + more);
    assert SkipWs(text)[1..] == s;
    assert s[|name|] == q && s[..|name|] == name && s[|name| + 1..] == more;
  }

  function NamesText(ws: seq<WrittenName>): string {
    if ws == [] then "" else if |ws| == 1 then NameText(ws[0]) else NameText(ws[0]) + "," + NamesText(ws[1..])
  }

  /** The names are those of the listed columns. */
  predicate NamesOf(cols: seq<Column>, ws: seq<WrittenName>, listed: seq<nat>) {
    && |ws| == |listed| <= MAX_COLUMNS
    && forall i :: 0 <= i < |ws| ==>
         LegalName(ws[i]) && listed[i] < |cols| && ColumnIndex(cols, ws[i].name) == listed[i]
  }

  /** One turn of the column loop. */
  lemma NameTurn(cols: seq<Column>, text: string, name: string, r: string, s: string, acc: seq<nat>)
    requires MapFor(acc, |cols|) && |acc| < MAX_COLUMNS && text != "" && text[0] != ')' && ColumnIndex(cols, name) >= 0
    requires Identifier(text) == Some(Parsed(name, r)) && SkipWs(r) == s && Delimits(s)
    ensures MapFor(acc + [ColumnIndex(cols, name)], |cols|)
    ensures s[0] == ',' ==> ColumnList(cols, text, acc) == ColumnList(cols, s[1..], acc + [ColumnIndex(cols, name)])
    ensures s[0] == ')' ==> ColumnList(cols, text, acc) == Ok(Parsed(acc + [ColumnIndex(cols, name)], s[1..]))
  {
    hide Identifier, ColumnIndex, SkipWs;
  }

  lemma OneNameRead(cols: seq<Column>, w: WrittenName, s: string, acc: seq<nat>)
    requires MapFor(acc, |cols|) && |acc| < MAX_COLUMNS && LegalName(w) && ColumnIndex(cols, w.name) >= 0 && Delimits(s)
    ensures MapFor(acc + [ColumnIndex(cols, w.name)], |cols|)
    ensures s[0] == ',' ==>
              ColumnList(cols, NameText(w) + s, acc) == ColumnList(cols, s[1..], acc + [ColumnIndex(cols, w.name)])
    ensures s[0] == ')' ==>
              ColumnList(cols, NameText(w) + s, acc) == Ok(Parsed(acc + [ColumnIndex(cols, w.name)], s[1..]))
  {
    hide Identifier, ColumnIndex, SkipWs, ColumnList, NameText, MapFor;
    BlankThen(w.after, s);
    NotWord(w.after, s);
    NameRead(w, s);
    NameTurn(cols, NameText(w) + s, w.name, w.after + s, s, acc);
  }

  lemma NotWord(after: string, s: string)
    requires Blank(after) && Delimits(s)
    ensures !IsWord((after + s)[0])
  {
    if after != "" { assert after[0] in after; }
  }

  lemma {:induction false} WrittenNamesRead(
      cols: seq<Column>, ws: seq<WrittenName>, listed: seq<nat>, trailing: bool, rest: string, acc: seq<nat>)
    requires ws != [] && NamesOf(cols, ws, listed) && MapFor(acc, |cols|) && |acc| + |ws| <= MAX_COLUMNS
    ensures ColumnList(cols, NamesText(ws) + Close(trailing, rest), acc) == Ok(Parsed(acc + listed, rest))
    decreases |ws|
  {
    hide ColumnList, NameText, NamesText, NamesOf, LegalName, ColumnIndex, MapFor, Close;
    CloseText(trailing, rest);
    SplitNames(cols, ws, listed);
    NamesFirst(ws, Close(trailing, rest));
    if |ws| == 1 {
      OneNameRead(cols, ws[0], Close(trailing, rest), acc);
      if trailing { ListCloses(cols, rest, acc + listed); }
    } else {
      var more := NamesText(ws[1..]) + Close(trailing, rest);
      OneNameRead(cols, ws[0], "," + more, acc);
      assert ("," + more)[1..] == more;
      WrittenNamesRead(cols, ws[1..], listed[1..], trailing, rest, acc + [listed[0]]);
      assert acc + [listed[0]] + listed[1..] == acc + listed;
    }
  }

  lemma SplitNames(cols: seq<Column>, ws: seq<WrittenName>, listed: seq<nat>)
    requires ws != [] && NamesOf(cols, ws, listed)
    ensures |listed| == |ws| && LegalName(ws[0]) && ColumnIndex(cols, ws[0].name) == listed[0]
    ensures NamesOf(cols, ws[1..], listed[1..]) && (|ws| == 1 ==> listed == [listed[0]])
  {
    hide LegalName, ColumnIndex;
  }

  lemma NamesFirst(ws: seq<WrittenName>, rest: string)
    requires ws != []
    ensures NamesText(ws) + rest ==
            NameText(ws[0]) + (if |ws| == 1 then rest else "," + (NamesText(ws[1..]) + rest))
  {
    hide NameText;
  }

  lemma ListCloses(cols: seq<Column>, rest: string, acc: seq<nat>)
    requires MapFor(acc, |cols|)
    ensures ColumnList(cols, ")" + rest, acc) == Ok(Parsed(acc, rest))
  {
    assert (")" + rest)[1..] == rest;
  }

  // ---- Statements ----

  datatype WrittenInsert = WrittenInsert(
    insert: string, gap: string, into: string, table: WrittenName,
    columns: Option<(seq<WrittenName>, bool)>,  // the bool: a trailing comma
    space: string, values: string, tuples: seq<WrittenTuple>, end: string)

  predicate Keyword(word: string, prefix: string) {
    |word| == |prefix| && forall i :: 0 <= i < |word| ==> Lower(word[i]) == Lower(prefix[i])
  }

  /** The columns a statement lists, or all of them. */
  predicate ListsColumns(cols: seq<Column>, st: WrittenInsert, listed: seq<nat>) {
    match st.columns
    case None => listed == AllColumns(|cols|)
    case Some(c) => NamesOf(cols, c.0, listed) && (c.0 == [] ==> !c.1)
  }

  predicate LegalInsert(ts: seq<Table>, st: WrittenInsert, t: nat, listed: seq<nat>) {
    && Keyword(st.insert, "insert") && Keyword(st.into, "into") && Keyword(st.values, "values")
    && Blank(st.gap) && Blank(st.space) && LegalName(st.table) && Separator(st.end)
    && (st.columns.None? && st.table.quote.None? ==> st.table.after + st.space != "")
    && t < |ts| && TableIndex(ts, st.table.name) == t && ListsColumns(ts[t].columns, st, listed)
    && forall i :: 0 <= i < |st.tuples| ==> |st.tuples[i].values| == |listed| && LegalTuple(st.tuples[i], |listed|)
  }

  /** The statement from `VALUES` on. */
  function ValuesPart(st: WrittenInsert): string {
    st.space + (st.values + TuplesText(st.tuples, st.end))
  }

  function ColumnsPart(st: WrittenInsert): string {
    match st.columns
    case None => ValuesPart(st)
    case Some(c) => "(" + (NamesText(c.0) + Close(c.1, ValuesPart(st)))
  }

  function InsertText(st: WrittenInsert): string {
    st.insert + (st.gap + (st.into + (NameText(st.table) + ColumnsPart(st))))
  }

  lemma KeywordFound(word: string, rest: string, prefix: string)
    requires Keyword(word, prefix)
    ensures StartsCI(word + rest, prefix) && (word + rest)[|prefix|..] == rest
  {
    KeywordRead(word, rest, prefix);
  }

  lemma {:induction false} BlankNoValues(space: string, found: string)
    requires Blank(space) && StartsCI(found, "values")
    ensures FindCI(space + found, "values") == found
    decreases |space|
  {
    if space == "" {
      assert space + found == found;
      assert found != "";
    } else {
      assert space[0] in space;
      assert Lower(space[0]) != 'v';
      assert (space + found)[1..] == space[1..] + found;
      forall c | c in space[1..]
        ensures IsSpace(c)
      {
        assert c in space;
      }
      BlankNoValues(space[1..], found);
    }
  }

  lemma ValuesPartRead(t: nat, width: nat, listed: seq<nat>, st: WrittenInsert, batch: seq<InsertRow>)
    requires MapFor(listed, width) && Keyword(st.values, "values") && Blank(st.space)
    ensures Rows(t, width, listed, ValuesPart(st), batch) ==
            Tuples(t, width, listed, TuplesText(st.tuples, st.end), batch)
  {
    hide Tuples, TuplesText, FindCI, StartsCI, Blank, Keyword;
    var rest := TuplesText(st.tuples, st.end);
    KeywordFound(st.values, rest, "values");
    BlankNoValues(st.space, st.values + rest);
    assert |"values"| == 6;
    StartsCILength(st.values + rest, "values");
  }

  lemma ColumnsPartRead(ts: seq<Table>, st: WrittenInsert, t: nat, listed: seq<nat>, batch: seq<InsertRow>)
    requires Shape(ts) && LegalInsert(ts, st, t, listed)
    ensures MapFor(listed, |ts[t].columns|)
    ensures AfterTable(ts, t, SkipWs(ColumnsPart(st)), batch) ==
            Tuples(t, |ts[t].columns|, listed, TuplesText(st.tuples, st.end), batch)
  {
    hide Tuples, TuplesText, Rows, NamesText, Close, LegalTuple, LegalName, Keyword, Blank, Separator, TableIndex,
         ColumnIndex, FindCI;
    var cols := ts[t].columns;
    var values := ValuesPart(st);
    assert TableShape(ts[t]);
    if st.columns.Some? {
      var (ws, trailing) := st.columns.value;
      var list := NamesText(ws) + Close(trailing, values);
      assert ("(" + list)[1..] == list && SkipWs("(" + list) == "(" + list;
      WholeList(cols, ws, listed, trailing, values);
      ValuesPartRead(t, |cols|, listed, st, batch);
    } else {
      NoListSkipped(st);
      ValuesPartRead(t, |cols|, listed, st.(space := ""), batch);
      assert "" + (st.values + TuplesText(st.tuples, st.end)) == st.values + TuplesText(st.tuples, st.end);
    }
  }

  lemma NoListSkipped(st: WrittenInsert)
    requires Keyword(st.values, "values") && Blank(st.space)
    ensures SkipWs(ValuesPart(st)) == st.values + TuplesText(st.tuples, st.end)
    ensures st.values != "" && st.values[0] != '(' && Blank("")
  {
    hide TuplesText;
    assert Lower(st.values[0]) == 'v';
    SkipWsMeans(st.space, st.values + TuplesText(st.tuples, st.end));
  }

  lemma WholeList(cols: seq<Column>, ws: seq<WrittenName>, listed: seq<nat>, trailing: bool, rest: string)
    requires NamesOf(cols, ws, listed) && (ws == [] ==> !trailing)
    ensures MapFor(listed, |cols|)
    ensures ColumnList(cols, NamesText(ws) + Close(trailing, rest), []) == Ok(Parsed(listed, rest))
  {
    hide LegalName, ColumnIndex, ColumnList;
    if ws == [] {
      ListCloses(cols, rest, []);
      assert NamesText(ws) + Close(trailing, rest) == ")" + rest && listed == [];
    } else {
      WrittenNamesRead(cols, ws, listed, trailing, rest, []);
      assert [] + listed == listed;
    }
  }

  lemma WordsStart(st: WrittenInsert, name: string)
    requires Keyword(st.insert, "insert") && Keyword(st.into, "into") && Blank(st.gap)
    ensures var s := st.insert + (st.gap + (st.into + name));
            SkipWs(s) == s && s != "" && s[6..] == st.gap + (st.into + name)
    ensures SkipWs(st.gap + (st.into + name)) == st.into + name && (st.into + name)[4..] == name
  {
    hide SkipWs;
    var s := st.insert + (st.gap + (st.into + name));
    assert Lower(s[0]) == 'i' && Lower((st.into + name)[0]) == 'i';
    SkipWsMeans("", s);
    assert "" + s == s;
    SkipWsMeans(st.gap, st.into + name);
  }

  lemma {:induction false} BlankSkipped(after: string, part: string)
    requires Blank(after)
    ensures SkipWs(after + part) == SkipWs(part)
    decreases |after|
  {
    if after == "" {
      assert after + part == part;
    } else {
      assert after[0] in after && (after + part)[1..] == after[1..] + part;
      forall c | c in after[1..]
        ensures IsSpace(c)
      {
        assert c in after;
      }
      BlankSkipped(after[1..], part);
    }
  }

  lemma AfterName(ts: seq<Table>, st: WrittenInsert, t: nat, listed: seq<nat>)
    requires LegalInsert(ts, st, t, listed) && st.table.quote.None?
    ensures var rest := st.table.after + ColumnsPart(st); rest != "" && !IsWord(rest[0])
  {
    hide LegalTuple, TuplesText, NamesText, Close, TableIndex, ColumnIndex, Keyword, Separator;
    var after := st.table.after;
    if after != "" {
      assert after[0] in after;
      assert (after + ColumnsPart(st))[0] == after[0];
    } else if st.columns.None? {
      assert st.space[0] in st.space;
      assert ColumnsPart(st)[0] == st.space[0];
    }
  }

  /** A statement in any layout adds exactly the rows it spells, in order: keywords in any case, names
      bare or delimited, the column list present or not, values bare or quoted, blanks and commas
      wherever the reader passes over them. */
  lemma AnyLayoutRead(ts: seq<Table>, st: WrittenInsert, t: nat, listed: seq<nat>, batch: seq<InsertRow>)
    requires Shape(ts) && LegalInsert(ts, st, t, listed) && |batch| + |st.tuples| <= MAX_BATCH_ROWS
    ensures MapFor(listed, |ts[t].columns|)
    ensures Statement(ts, InsertText(st), batch) ==
            Ok(batch + WrittenRows(t, |ts[t].columns|, listed, st.tuples))
  {
    hide AfterTable, Tuples, TuplesText, ColumnsPart, NameText, LegalTuple, TableIndex, Identifier, StartsCI, SkipWs, FindCI;
    var name := NameText(st.table) + ColumnsPart(st);
    var s := InsertText(st);
    KeywordFound(st.insert, st.gap + (st.into + name), "insert");
    KeywordFound(st.into, name, "into");
    WordsStart(st, name);
    StartsCILength(s, "insert");
    StartsCILength(st.into + name, "into");
    if st.table.quote.None? { AfterName(ts, st, t, listed); }
    NameRead(st.table, ColumnsPart(st));
    BlankSkipped(st.table.after, ColumnsPart(st));
    ColumnsPartRead(ts, st, t, listed, batch);
    WrittenTuplesRead(t, |ts[t].columns|, listed, st.tuples, st.end, batch);
  }
}
