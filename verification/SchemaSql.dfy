/** Printing the schema as CREATE TABLE statements into a bounded buffer, and a decoder that shows what
    the text still says. */
module SchemaSql {
  import opened Schema
  import opened Text

  const NO_SCHEMA: string := "-- No ER diagram loaded.\n"

  function If(b: bool, s: string): string {
    if b then s else ""
  }

  function ReferenceText(c: Column): string {
    " REFERENCES " + (c.refTable + ("(" + (c.refColumn + ")")))
  }

  function LineEnd(last: bool): string {
    if last then "\n" else ",\n"
  }

  /** Everything of a column's line after its type. */
  function Constraints(c: Column, last: bool): string {
    If(c.primaryKey, " PRIMARY KEY") +
    (If(c.notNull && !c.primaryKey, " NOT NULL") +
     (If(c.unique && !c.primaryKey, " UNIQUE") + (If(c.refTable != "", ReferenceText(c)) + LineEnd(last))))
  }

  function RenderColumn(c: Column, last: bool): string {
    "    " + (c.name + (" " + (c.typ + Constraints(c, last))))
  }

  function RenderColumns(cols: seq<Column>): string {
    if cols == [] then "" else RenderColumn(cols[0], |cols| == 1) + RenderColumns(cols[1..])
  }

  function RenderTable(t: Table): string {
    "CREATE TABLE " + (t.name + (" (\n" + (RenderColumns(t.columns) + ");\n\n")))
  }

  function RenderTables(ts: seq<Table>): string {
    if ts == [] then "" else RenderTable(ts[0]) + RenderTables(ts[1..])
  }

  /** The whole text, without any limit. */
  function Render(ts: seq<Table>): string {
    if ts == [] then NO_SCHEMA else RenderTables(ts)
  }

  // ---- The bounded buffer ----

  /** Cutting piece by piece is cutting the whole. */
  lemma CapJoin(done: string, text: string, size: nat)
    requires size > 0
    ensures Cap(done, size) + Cap(text, size - |Cap(done, size)|) == Cap(done + text, size)
  {
    if |done| >= size - 1 {
      assert Cap(text, size - |Cap(done, size)|) == "";
    }
  }

  /** `appendf`: as much of the text as fits before the terminator. */
  method AppendF(out: array<char>, used: nat, text: string, ghost done: string) returns (now: nat)
    requires out.Length > 0 && used < out.Length && out[..used] == Cap(done, out.Length)
    modifies out
    ensures now < out.Length && out[..now] == Cap(done + text, out.Length)
  {
    var kept := Cap(text, out.Length - used);
    forall i | 0 <= i < |kept| {
      out[used + i] := kept[i];
    }
    now := used + |kept|;
    CapJoin(done, text, out.Length);
    assert out[..now] == Cap(done, out.Length) + kept;
  }

  /** The column loop of `generate_sql`. */
  method AppendColumns(cols: seq<Column>, out: array<char>, used: nat, ghost done: string) returns (now: nat)
    requires out.Length > 0 && used < out.Length && out[..used] == Cap(done, out.Length)
    modifies out
    ensures now < out.Length && out[..now] == Cap(done + RenderColumns(cols), out.Length)
  {
    hide Cap;
    ghost var d := done;
    now := used;
    for j := 0 to |cols|
      invariant now < out.Length && out[..now] == Cap(d, out.Length)
      invariant done + RenderColumns(cols) == d + RenderColumns(cols[j..])
    {
      var c := cols[j];
      assert cols[j..][0] == c && cols[j..][1..] == cols[j + 1..];
      Regroup(d, c, j + 1 == |cols|, RenderColumns(cols[j + 1..]));
      now, d := AppendColumn(c, j + 1 == |cols|, out, now, d);
    }
    assert d + "" == d;
  }

  lemma Regroup(d: string, c: Column, last: bool, more: string)
    ensures d + (RenderColumn(c, last) + more) == d + RenderColumn(c, last) + more
  {
  }

  /** A column flag that is printed only when it is set. */
  method AppendIf(b: bool, word: string, out: array<char>, used: nat, ghost done: string) returns (now: nat)
    requires out.Length > 0 && used < out.Length && out[..used] == Cap(done, out.Length)
    modifies out
    ensures now < out.Length && out[..now] == Cap(done + If(b, word), out.Length)
  {
    hide Cap;
    now := used;
    if b {
      now := AppendF(out, used, word, done);
    } else {
      assert done + "" == done;
    }
  }

  method AppendColumn(c: Column, last: bool, out: array<char>, used: nat, ghost done: string)
    returns (now: nat, ghost d: string)
    requires out.Length > 0 && used < out.Length && out[..used] == Cap(done, out.Length)
    modifies out
    ensures now < out.Length && d == done + RenderColumn(c, last) && out[..now] == Cap(d, out.Length)
  {
    hide Cap, If, RenderColumn;
    d := done + ("    " + c.name + " " + c.typ);
    now := AppendF(out, used, "    " + c.name + " " + c.typ, done);
    now := AppendIf(c.primaryKey, " PRIMARY KEY", out, now, d);
    d := d + If(c.primaryKey, " PRIMARY KEY");
    now := AppendIf(c.notNull && !c.primaryKey, " NOT NULL", out, now, d);
    d := d + If(c.notNull && !c.primaryKey, " NOT NULL");
    now := AppendIf(c.unique && !c.primaryKey, " UNIQUE", out, now, d);
    d := d + If(c.unique && !c.primaryKey, " UNIQUE");
    now := AppendIf(c.refTable != "", ReferenceText(c), out, now, d);
    d := d + If(c.refTable != "", ReferenceText(c));
    now := AppendF(out, now, LineEnd(last), d);
    d := d + LineEnd(last);
    Line(c, last, done);
  }

  lemma Line(c: Column, last: bool, done: string)
    ensures done + RenderColumn(c, last) ==
            done + ("    " + c.name + " " + c.typ) + If(c.primaryKey, " PRIMARY KEY") +
            If(c.notNull && !c.primaryKey, " NOT NULL") + If(c.unique && !c.primaryKey, " UNIQUE") +
            If(c.refTable != "", ReferenceText(c)) + LineEnd(last)
  {
    hide If, ReferenceText, LineEnd;
    Chain(done, c.name, c.typ, If(c.primaryKey, " PRIMARY KEY"), If(c.notNull && !c.primaryKey, " NOT NULL"),
          If(c.unique && !c.primaryKey, " UNIQUE"), If(c.refTable != "", ReferenceText(c)), LineEnd(last));
  }

  lemma Chain(done: string, name: string, typ: string, p: string, n: string, u: string, r: string, e: string)
    ensures done + ("    " + (name + (" " + (typ + (p + (n + (u + (r + e)))))))) ==
            done + ("    " + name + " " + typ) + p + n + u + r + e
  {
    var x := p + (n + (u + (r + e)));
    assert "    " + (name + (" " + (typ + x))) == ("    " + name + " " + typ) + x;
    var h := done + ("    " + name + " " + typ);
    assert done + (("    " + name + " " + typ) + x) == h + x;
    Chain5(h, p, n, u, r, e);
  }

  lemma Chain5(h: string, p: string, n: string, u: string, r: string, e: string)
    ensures h + (p + (n + (u + (r + e)))) == h + p + n + u + r + e
  {
    var y := u + (r + e);
    assert h + (p + (n + y)) == (h + p + n) + y;
    assert (h + p + n) + (u + (r + e)) == h + p + n + u + r + e;
  }

  /** `generate_sql`: for every schema and buffer the output is the untruncated text, cut to the
      buffer's size less one. */
  method GenerateSql(ts: seq<Table>, out: array<char>) returns (now: nat)
    requires out.Length > 0
    modifies out
    ensures now < out.Length && out[..now] == Cap(Render(ts), out.Length)
  {
    hide Cap;
    now := 0;
    assert out[..0] == Cap("", out.Length) by { CapEmpty(out.Length); }
    if ts == [] {
      now := AppendF(out, 0, NO_SCHEMA, "");
      assert "" + NO_SCHEMA == NO_SCHEMA;
      return;
    }
    ghost var d := "";
    for i := 0 to |ts|
      invariant now < out.Length && out[..now] == Cap(d, out.Length)
      invariant RenderTables(ts) == d + RenderTables(ts[i..])
    {
      var t := ts[i];
      assert ts[i..][0] == t && ts[i..][1..] == ts[i + 1..];
      TableText(d, t, RenderTables(ts[i + 1..]));
      var head := "CREATE TABLE " + t.name + " (\n";
      now := AppendF(out, now, head, d);
      now := AppendColumns(t.columns, out, now, d + head);
      now := AppendF(out, now, ");\n\n", d + head + RenderColumns(t.columns));
      d := d + head + RenderColumns(t.columns) + ");\n\n";
    }
    assert d + "" == d;
  }

  lemma CapEmpty(size: nat)
    requires size > 0
    ensures Cap("", size) == ""
  {
  }

  lemma TableText(d: string, t: Table, more: string)
    ensures d + (RenderTable(t) + more) ==
            d + ("CREATE TABLE " + t.name + " (\n") + RenderColumns(t.columns) + ");\n\n" + more
  {
    hide RenderColumns;
  }

  // ---- The decoder ----

  /** How many characters come before the first `c`. */
  function Before(s: string, c: char): (n: nat)
    ensures n <= |s|
  {
    if s == "" || s[0] == c then 0 else 1 + Before(s[1..], c)
  }

  /** What may follow a column's type: one of its constraints, or the end of its line. */
  predicate Marker(s: string) {
    || " PRIMARY KEY" <= s || " NOT NULL" <= s || " UNIQUE" <= s || " REFERENCES" <= s
    || ",\n" <= s || "\n" <= s
  }

  /** A type runs to the first such marker; it may hold blanks, commas and parentheses. */
  function TypeRun(s: string): (n: nat)
    ensures n <= |s|
  {
    if s == "" || Marker(s) then 0 else 1 + TypeRun(s[1..])
  }

  function Skip(s: string, word: string): (r: Parsed<bool>)
    ensures |r.rest| <= |s|
  {
    if word <= s then Parsed(true, s[|word|..]) else Parsed(false, s)
  }

  /** The text up to the first `c`, and what follows that character. */
  function Until(s: string, c: char): (r: Option<Parsed<string>>)
    ensures r.Some? ==> |r.value.rest| < |s|
  {
    var n := Before(s, c);
    if n == |s| then None else Some(Parsed(s[..n], s[n + 1..]))
  }

  function DecodeReference(s: string): (r: Parsed<(string, string)>)
    ensures |r.rest| <= |s|
  {
    if " REFERENCES " <= s then
      var a := Until(s[12..], '(');
      if a.None? then Parsed(("", ""), s)
      else
        var b := Until(a.value.rest, ')');
        if b.None? then Parsed(("", ""), s) else Parsed((a.value.value, b.value.value), b.value.rest)
    else Parsed(("", ""), s)
  }

  /** What follows a column's name and type; the flag says whether another column follows. */
  function DecodeConstraints(name: string, typ: string, s: string): (r: Parsed<(Column, bool)>)
    ensures |r.rest| <= |s|
  {
    var pk := Skip(s, " PRIMARY KEY");
    var nn := Skip(pk.rest, " NOT NULL");
    var uq := Skip(nn.rest, " UNIQUE");
    var ref := DecodeReference(uq.rest);
    var comma := Skip(ref.rest, ",");
    var c := Column(name, typ, pk.value, uq.value, nn.value || pk.value, ref.value.0, ref.value.1);
    Parsed((c, comma.value), Skip(comma.rest, "\n").rest)
  }

  function DecodeColumn(s: string): (r: Option<Parsed<(Column, bool)>>)
    ensures r.Some? ==> |r.value.rest| < |s|
  {
    if "    " <= s then
      var a := s[4..];
      var name := Until(a, ' ');
      if name.None? then None
      else
        var b := name.value.rest;
        var m := TypeRun(b);
        Some(DecodeConstraints(name.value.value, b[..m], b[m..]))
    else None
  }

  function DecodeColumns(s: string): (r: Option<Parsed<seq<Column>>>)
    ensures r.Some? ==> |r.value.rest| <= |s|
    decreases |s|
  {
    var first := DecodeColumn(s);
    if first.None? then None
    else if !first.value.value.1 then Some(Parsed([first.value.value.0], first.value.rest))
    else
      var more := DecodeColumns(first.value.rest);
      if more.None? then None else Some(Parsed([first.value.value.0] + more.value.value, more.value.rest))
  }

  /** A table's column lines, which may be missing, and the closing line. */
  function DecodeBody(s: string): (r: Option<Parsed<seq<Column>>>)
    ensures r.Some? ==> |r.value.rest| <= |s|
  {
    var cols := if ");" <= s then Some(Parsed([], s)) else DecodeColumns(s);
    if cols.Some? && ");\n\n" <= cols.value.rest then Some(Parsed(cols.value.value, cols.value.rest[4..])) else None
  }

  function DecodeTable(s: string): (r: Option<Parsed<Table>>)
    ensures r.Some? ==> |r.value.rest| < |s|
  {
    if "CREATE TABLE " <= s then
      var name := Until(s[13..], ' ');
      if name.Some? && "(\n" <= name.value.rest then
        var body := DecodeBody(name.value.rest[2..]);
        if body.Some? then Some(Parsed(Table(name.value.value, body.value.value, []), body.value.rest)) else None
      else None
    else None
  }

  function DecodeTables(s: string): Option<seq<Table>>
    decreases |s|
  {
    if s == "" then Some([])
    else
      var first := DecodeTable(s);
      if first.None? then None
      else
        var more := DecodeTables(first.value.rest);
        if more.None? then None else Some([first.value.value] + more.value)
  }

  function Decode(s: string): Option<seq<Table>> {
    if s == NO_SCHEMA then Some([]) else DecodeTables(s)
  }

  // ---- What the text keeps ----

  predicate Without(s: string, c: char) {
    forall i :: 0 <= i < |s| ==> s[i] != c
  }

  predicate PlainType(s: string) {
    (forall i :: 0 <= i < |s| ==> !Marker(s[i..])) && (s != "" ==> s[|s| - 1] != ',')
  }

  /** Names free of the delimiters that follow them, and a type in which no constraint is spelled out. */
  predicate CleanColumn(c: Column) {
    && Without(c.name, ' ') && PlainType(c.typ)
    && Without(c.refTable, '(') && Without(c.refColumn, ')')
    && (c.primaryKey ==> c.notNull)
  }

  predicate CleanTable(t: Table) {
    Without(t.name, ' ') && forall c :: 0 <= c < |t.columns| ==> CleanColumn(t.columns[c])
  }

  predicate CleanSchema(ts: seq<Table>) {
    forall t :: 0 <= t < |ts| ==> CleanTable(ts[t])
  }

  /** A primary key hides the unique flag, and a reference without a table is not printed at all. */
  function Shown(c: Column): Column {
    c.(unique := c.unique && !c.primaryKey, refColumn := if c.refTable == "" then "" else c.refColumn)
  }

  function ShownColumns(cols: seq<Column>): (r: seq<Column>)
    ensures |r| == |cols| && forall i :: 0 <= i < |cols| ==> r[i] == Shown(cols[i])
  {
    seq(|cols|, i requires 0 <= i < |cols| => Shown(cols[i]))
  }

  /** The schema as its text shows it: rows are not part of it. */
  function ShownTables(ts: seq<Table>): (r: seq<Table>)
    ensures |r| == |ts|
    ensures forall i :: 0 <= i < |ts| ==> r[i] == Table(ts[i].name, ShownColumns(ts[i].columns), [])
  {
    seq(|ts|, i requires 0 <= i < |ts| => Table(ts[i].name, ShownColumns(ts[i].columns), []))
  }

  lemma {:induction false} BeforeRead(s: string, c: char, rest: string)
    requires Without(s, c) && rest != "" && rest[0] == c
    ensures Before(s + rest, c) == |s|
    ensures (s + rest)[..|s|] == s && (s + rest)[|s|..] == rest && (s + rest)[|s| + 1..] == rest[1..]
    decreases |s|
  {
    if s == "" {
      assert s + rest == rest;
    } else {
      assert (s + rest)[1..] == s[1..] + rest;
      BeforeRead(s[1..], c, rest);
    }
  }

  /** A word of the markers that begins in `t` and is not in it does not reach into `rest`. */
  predicate Straddles(word: string, t: string, rest: string) {
    word <= t + rest && !(word <= t)
  }

  lemma PrefixChars(word: string, t: string, rest: string)
    requires word <= t + rest
    ensures |word| <= |t| ==> word <= t
    ensures forall k :: 0 <= k < |word| && k < |t| ==> t[k] == word[k]
    ensures forall k :: |t| <= k < |word| ==> k - |t| < |rest| && rest[k - |t|] == word[k]
  {
    var s := t + rest;
    assert s[..|word|] == word;
    forall k | 0 <= k < |word|
      ensures s[k] == word[k]
    {
      assert s[..|word|][k] == s[k];
    }
    forall k | |t| <= k < |word|
      ensures k - |t| < |rest| && rest[k - |t|] == word[k]
    {
      assert s[k] == word[k];
    }
  }

  lemma MarkerChars(rest: string)
    requires Marker(rest)
    ensures rest[0] == '\n' || (rest[0] == ',' && |rest| > 1 && rest[1] == '\n') ||
            (rest[0] == ' ' && |rest| > 2 &&
             (rest[1] == 'P' || (rest[1] == 'N' && rest[2] == 'O') || rest[1] == 'U' || rest[1] == 'R'))
  {
    assert " PRIMARY KEY"[1] == 'P' && " NOT NULL"[1] == 'N' && " NOT NULL"[2] == 'O';
    assert " UNIQUE"[1] == 'U' && " REFERENCES"[1] == 'R' && ",\n"[1] == '\n';
  }

  /** Inside these words a blank is followed by letters that follow no blank at a marker's start. */
  lemma WordChars(word: string, m: nat)
    requires word == " PRIMARY KEY" || word == " NOT NULL" || word == " UNIQUE" || word == " REFERENCES"
    requires 1 <= m < |word|
    ensures word[m] != ',' && word[m] != '\n'
    ensures word[m] == ' ' ==>
              m + 2 < |word| && (word[m + 1] == 'K' || (word[m + 1] == 'N' && word[m + 2] == 'U'))
  {
  }

  lemma OneWord(word: string, t: string, rest: string)
    requires word == " PRIMARY KEY" || word == " NOT NULL" || word == " UNIQUE" || word == " REFERENCES"
    requires t != "" && Marker(rest)
    ensures !Straddles(word, t, rest)
  {
    MarkerChars(rest);
    var m := |t|;
    if Straddles(word, t, rest) {
      hide Marker;
      PrefixChars(word, t, rest);
      WordChars(word, m);
      assert false;
    }
  }

  lemma NoStraddle(t: string, rest: string)
    requires t != "" && !Marker(t) && t[|t| - 1] != ',' && Marker(rest)
    ensures !Marker(t + rest)
  {
    OneWord(" PRIMARY KEY", t, rest);
    OneWord(" NOT NULL", t, rest);
    OneWord(" UNIQUE", t, rest);
    OneWord(" REFERENCES", t, rest);
    if Straddles(",\n", t, rest) {
      PrefixChars(",\n", t, rest);
      assert false;
    }
    assert (t + rest)[0] == t[0];
    assert "\n" <= t + rest ==> "\n" <= t;
  }

  lemma {:induction false} TypeRead(s: string, rest: string)
    requires PlainType(s) && Marker(rest)
    ensures TypeRun(s + rest) == |s|
    ensures (s + rest)[..|s|] == s && (s + rest)[|s|..] == rest
    decreases |s|
  {
    hide Marker;
    if s == "" {
      assert s + rest == rest;
    } else {
      assert s[0..] == s && (s + rest)[1..] == s[1..] + rest;
      forall i | 0 <= i < |s[1..]|
        ensures !Marker(s[1..][i..])
      {
        assert s[1..][i..] == s[i + 1..];
      }
      NoStraddle(s, rest);
      TypeRead(s[1..], rest);
    }
  }

  lemma SkipRead(b: bool, word: string, rest: string)
    requires !b ==> !(word <= rest)
    ensures Skip(If(b, word) + rest, word) == Parsed(b, rest)
  {
    assert "" + rest == rest;
    assert (word + rest)[|word|..] == rest;
  }

  lemma UntilRead(s: string, c: char, rest: string)
    requires Without(s, c)
    ensures Until(s + ([c] + rest), c) == Some(Parsed(s, rest))
  {
    BeforeRead(s, c, [c] + rest);
    assert ([c] + rest)[1..] == rest;
  }

  lemma ReferenceRead(c: Column, rest: string)
    requires CleanColumn(c) && rest != "" && rest[0] != ' '
    ensures DecodeReference(If(c.refTable != "", ReferenceText(c)) + rest) ==
            Parsed((c.refTable, if c.refTable == "" then "" else c.refColumn), rest)
  {
    hide Until, ReferenceText, PlainType;
    if c.refTable == "" {
      assert "" + rest == rest;
    } else {
      var b := c.refColumn + (")" + rest);
      var a := c.refTable + ("(" + b);
      ReferenceShape(c, rest);
      assert " REFERENCES " <= " REFERENCES " + a && (" REFERENCES " + a)[12..] == a;
      UntilRead(c.refTable, '(', b);
      UntilRead(c.refColumn, ')', rest);
    }
  }

  lemma ReferenceShape(c: Column, rest: string)
    ensures ReferenceText(c) + rest == " REFERENCES " + (c.refTable + ("(" + (c.refColumn + (")" + rest))))
  {
    var x := c.refColumn + ")";
    assert x + rest == c.refColumn + (")" + rest);
    assert (c.refTable + ("(" + x)) + rest == c.refTable + ("(" + (x + rest));
    assert (" REFERENCES " + (c.refTable + ("(" + x))) + rest == " REFERENCES " + ((c.refTable + ("(" + x)) + rest);
  }

  lemma ConstraintsStart(c: Column, last: bool)
    ensures Marker(Constraints(c, last))
  {
  }

  function ReferenceTail(c: Column, last: bool, rest: string): string {
    If(c.refTable != "", ReferenceText(c)) + (LineEnd(last) + rest)
  }

  lemma TailStart(c: Column, last: bool, rest: string)
    ensures ReferenceTail(c, last, rest) != ""
    ensures ReferenceTail(c, last, rest)[0] != ' ' || " REFERENCES " <= ReferenceTail(c, last, rest)
  {
  }

  lemma ConstraintsRead(c: Column, last: bool, rest: string)
    requires CleanColumn(c)
    ensures DecodeConstraints(c.name, c.typ, Constraints(c, last) + rest) == Parsed((Shown(c), !last), rest)
  {
    hide ReferenceText, LineEnd, If, Skip, DecodeReference;
    var end := LineEnd(last) + rest;
    var s3 := ReferenceTail(c, last, rest);
    var s2 := If(c.unique && !c.primaryKey, " UNIQUE") + s3;
    var s1 := If(c.notNull && !c.primaryKey, " NOT NULL") + s2;
    assert Constraints(c, last) + rest == If(c.primaryKey, " PRIMARY KEY") + s1;
    KeywordsDiffer(c, last, rest);
    SkipRead(c.primaryKey, " PRIMARY KEY", s1);
    SkipRead(c.notNull && !c.primaryKey, " NOT NULL", s2);
    SkipRead(c.unique && !c.primaryKey, " UNIQUE", s3);
    EndRead(last, rest);
    ReferenceRead(c, end);
  }

  lemma EndRead(last: bool, rest: string)
    ensures LineEnd(last) + rest != "" && (LineEnd(last) + rest)[0] != ' '
    ensures Skip(LineEnd(last) + rest, ",").value == !last
    ensures Skip(Skip(LineEnd(last) + rest, ",").rest, "\n").rest == rest
  {
    if last {
      assert ("\n" + rest)[0] == '\n' && ("\n" + rest)[1..] == rest;
    } else {
      assert (",\n" + rest)[1..] == "\n" + rest;
      assert ("\n" + rest)[1..] == rest;
    }
  }

  lemma KeywordsDiffer(c: Column, last: bool, rest: string)
    ensures var s3 := ReferenceTail(c, last, rest);
            var s2 := If(c.unique && !c.primaryKey, " UNIQUE") + s3;
            var s1 := If(c.notNull && !c.primaryKey, " NOT NULL") + s2;
            !(" UNIQUE" <= s3) && !(" NOT NULL" <= s2) && !(" PRIMARY KEY" <= s1)
  {
    hide ReferenceText, LineEnd, ReferenceTail;
    TailStart(c, last, rest);
    var s3 := ReferenceTail(c, last, rest);
    assert " UNIQUE"[1] == 'U' && " NOT NULL"[1] == 'N' && " PRIMARY KEY"[1] == 'P' && " REFERENCES "[1] == 'R';
    assert "" + s3 == s3;
    var s2 := If(c.unique && !c.primaryKey, " UNIQUE") + s3;
    assert "" + s2 == s2;
    assert s3[0] == ' ' ==> s3[1] == 'R';
    assert s2[0] == ' ' ==> s2[1] == 'R' || s2[1] == 'U';
  }

  lemma ColumnRead(c: Column, last: bool, rest: string)
    requires CleanColumn(c)
    ensures DecodeColumn(RenderColumn(c, last) + rest) == Some(Parsed((Shown(c), !last), rest))
  {
    hide Constraints, DecodeConstraints, Until, TypeRun, Shown, Marker;
    var tail := Constraints(c, last) + rest;
    var b := c.typ + tail;
    var a := c.name + (" " + b);
    ColumnShape(c.name, c.typ, Constraints(c, last), rest);
    assert "    " <= "    " + a && ("    " + a)[4..] == a;
    UntilRead(c.name, ' ', b);
    ConstraintsStart(c, last);
    EndsMore(Constraints(c, last), rest);
    TypeRead(c.typ, tail);
    ConstraintsRead(c, last, rest);
  }

  lemma ColumnShape(name: string, typ: string, x: string, rest: string)
    ensures "    " + (name + (" " + (typ + x))) + rest == "    " + (name + (" " + (typ + (x + rest))))
  {
    var y := typ + x;
    assert y + rest == typ + (x + rest);
    assert (" " + y) + rest == " " + (y + rest);
    assert (name + (" " + y)) + rest == name + ((" " + y) + rest);
  }

  lemma EndsMore(s: string, rest: string)
    requires Marker(s)
    ensures Marker(s + rest)
  {
  }

  lemma {:induction false} ColumnsRead(cols: seq<Column>, rest: string)
    requires cols != [] && forall c :: 0 <= c < |cols| ==> CleanColumn(cols[c])
    ensures DecodeColumns(RenderColumns(cols) + rest) == Some(Parsed(ShownColumns(cols), rest))
    decreases |cols|
  {
    hide RenderColumn, DecodeColumn, Shown, CleanColumn;
    var more := RenderColumns(cols[1..]) + rest;
    assert RenderColumns(cols) + rest == RenderColumn(cols[0], |cols| == 1) + more;
    ColumnRead(cols[0], |cols| == 1, more);
    if |cols| == 1 {
      assert more == rest;
      assert ShownColumns(cols) == [Shown(cols[0])];
    } else {
      ColumnsRead(cols[1..], rest);
      assert ShownColumns(cols) == [Shown(cols[0])] + ShownColumns(cols[1..]);
    }
  }

  lemma NoColumns(rest: string)
    ensures RenderColumns([]) + rest == rest
  {
  }

  lemma ColumnsStart(cols: seq<Column>, rest: string)
    requires cols != []
    ensures !(");" <= RenderColumns(cols) + rest)
  {
    hide Constraints;
    assert RenderColumn(cols[0], |cols| == 1)[0] == ' ';
    assert (RenderColumns(cols) + rest)[0] == ' ';
  }

  lemma BodyRead(cols: seq<Column>, rest: string)
    requires forall c :: 0 <= c < |cols| ==> CleanColumn(cols[c])
    ensures DecodeBody(RenderColumns(cols) + (");\n\n" + rest)) == Some(Parsed(ShownColumns(cols), rest))
  {
    hide RenderColumns, DecodeColumns, Shown, CleanColumn;
    var end := ");\n\n" + rest;
    assert ");\n\n" <= end && end[4..] == rest;
    if cols == [] {
      NoColumns(end);
      assert ");" <= end;
      assert ShownColumns(cols) == [];
    } else {
      ColumnsStart(cols, end);
      ColumnsRead(cols, end);
    }
  }

  lemma TableRead(t: Table, rest: string)
    requires CleanTable(t)
    ensures DecodeTable(RenderTable(t) + rest) == Some(Parsed(Table(t.name, ShownColumns(t.columns), []), rest))
  {
    hide RenderColumns, DecodeBody, ShownColumns, Until, CleanColumn, Without;
    var body := RenderColumns(t.columns) + (");\n\n" + rest);
    var b := "(\n" + body;
    var a := t.name + (" " + b);
    TableShape(t.name, RenderColumns(t.columns), rest);
    assert "CREATE TABLE " <= "CREATE TABLE " + a && ("CREATE TABLE " + a)[13..] == a;
    UntilRead(t.name, ' ', b);
    assert "(\n" <= b && b[2..] == body;
    BodyRead(t.columns, rest);
  }

  lemma TableShape(name: string, cols: string, rest: string)
    ensures "CREATE TABLE " + (name + (" (\n" + (cols + ");\n\n"))) + rest ==
            "CREATE TABLE " + (name + (" " + ("(\n" + (cols + (");\n\n" + rest)))))
  {
    var y := cols + ");\n\n";
    assert y + rest == cols + (");\n\n" + rest);
    assert (" (\n" + y) + rest == " " + ("(\n" + (y + rest));
    assert (name + (" (\n" + y)) + rest == name + ((" (\n" + y) + rest);
  }

  lemma {:induction false} TablesRead(ts: seq<Table>)
    requires forall t :: 0 <= t < |ts| ==> CleanTable(ts[t])
    ensures DecodeTables(RenderTables(ts)) == Some(ShownTables(ts))
    decreases |ts|
  {
    hide RenderTable, DecodeTable, CleanTable, ShownColumns;
    if ts != [] {
      TableRead(ts[0], RenderTables(ts[1..]));
      TablesRead(ts[1..]);
      assert ShownTables(ts) == [Table(ts[0].name, ShownColumns(ts[0].columns), [])] + ShownTables(ts[1..]);
      assert RenderTables(ts) != "" by { TableStarts(ts[0], RenderTables(ts[1..])); }
    }
  }

  lemma TableStarts(t: Table, rest: string)
    ensures RenderTable(t) + rest != "" && (RenderTable(t) + rest)[0] == 'C'
  {
  }

  /** When nothing is cut, the text determines every table, column, type and constraint, up to what
      a primary key or an empty reference hides. */
  lemma DecodeRender(ts: seq<Table>)
    requires CleanSchema(ts)
    ensures Decode(Render(ts)) == Some(ShownTables(ts))
  {
    hide RenderTables, DecodeTables, CleanTable, ShownColumns;
    if ts != [] {
      TablesRead(ts);
      RenderStarts(ts);
    }
  }

  lemma RenderStarts(ts: seq<Table>)
    requires ts != []
    ensures RenderTables(ts) != NO_SCHEMA
  {
    TableStarts(ts[0], RenderTables(ts[1..]));
    assert NO_SCHEMA[0] == '-';
  }

  // ---- Rows do not show ----

  predicate SameSchema(ts: seq<Table>, us: seq<Table>) {
    |ts| == |us| && forall t :: 0 <= t < |ts| ==> ts[t].name == us[t].name && ts[t].columns == us[t].columns
  }

  lemma {:induction false} TablesSame(ts: seq<Table>, us: seq<Table>)
    requires SameSchema(ts, us)
    ensures RenderTables(ts) == RenderTables(us)
    decreases |ts|
  {
    hide RenderColumns;
    if ts != [] { TablesSame(ts[1..], us[1..]); }
  }

  lemma RenderSame(ts: seq<Table>, us: seq<Table>)
    requires SameSchema(ts, us)
    ensures Render(ts) == Render(us)
  {
    TablesSame(ts, us);
  }

  // ---- The text itself ----

  /** One table with a primary key and with a column that carries every other constraint, word for word. */
  lemma PrintedText(t: string, a: string, b: string, x: string, y: string, u: string, v: string)
    requires u != ""
    ensures Render([Table(t, [Column(a, x, true, true, true, "", ""), Column(b, y, false, true, true, u, v)], [])]) ==
            "CREATE TABLE " + t + " (\n" +
            ("    " + a + " " + x + " PRIMARY KEY,\n") +
            ("    " + b + " " + y + " NOT NULL UNIQUE REFERENCES " + u + "(" + v + ")\n") +
            ");\n\n"
    ensures Render([]) == "-- No ER diagram loaded.\n"
  {
    hide RenderColumn, Render;
    KeyLine(a, x);
    FullLine(b, y, u, v);
    TwoColumns(t, Column(a, x, true, true, true, "", ""), Column(b, y, false, true, true, u, v));
    NoTables();
  }

  lemma NoTables()
    ensures Render([]) == "-- No ER diagram loaded.\n"
  {
  }

  lemma TwoColumns(t: string, c: Column, d: Column)
    ensures Render([Table(t, [c, d], [])]) ==
            "CREATE TABLE " + t + " (\n" + RenderColumn(c, false) + RenderColumn(d, true) + ");\n\n"
  {
    hide RenderColumn;
    assert [c, d][1..] == [d] && [d][1..] == [];
    assert RenderColumns([d]) == RenderColumn(d, true) + "";
    assert RenderColumns([c, d]) == RenderColumn(c, false) + RenderColumn(d, true);
    var one := Table(t, [c, d], []);
    assert RenderTables([one]) == RenderTable(one) + "";
    TextJoin(t, RenderColumn(c, false), RenderColumn(d, true));
  }

  lemma KeyLine(a: string, x: string)
    ensures RenderColumn(Column(a, x, true, true, true, "", ""), false) == "    " + a + " " + x + " PRIMARY KEY,\n"
  {
    assert Constraints(Column(a, x, true, true, true, "", ""), false) == " PRIMARY KEY,\n";
    var rest := x + " PRIMARY KEY,\n";
    assert "    " + (a + (" " + rest)) == "    " + a + " " + x + " PRIMARY KEY,\n";
  }

  lemma FullLine(b: string, y: string, u: string, v: string)
    requires u != ""
    ensures RenderColumn(Column(b, y, false, true, true, u, v), true) ==
            "    " + b + " " + y + " NOT NULL UNIQUE REFERENCES " + u + "(" + v + ")\n"
  {
    hide Constraints;
    var words := " NOT NULL UNIQUE REFERENCES " + u + "(" + v + ")\n";
    FullConstraints(b, y, u, v);
    assert "    " + (b + (" " + (y + words))) == "    " + b + " " + y + words;
    assert "    " + b + " " + y + words == "    " + b + " " + y + " NOT NULL UNIQUE REFERENCES " + u + "(" + v + ")\n";
  }

  lemma FullConstraints(b: string, y: string, u: string, v: string)
    requires u != ""
    ensures Constraints(Column(b, y, false, true, true, u, v), true) ==
            " NOT NULL UNIQUE REFERENCES " + u + "(" + v + ")\n"
  {
    hide Constraints, ReferenceText;
    var c := Column(b, y, false, true, true, u, v);
    ReferenceWords(c);
    FlagWords(c);
    assert " NOT NULL" + (" UNIQUE" + (" REFERENCES " + u + "(" + v + ")" + "\n")) ==
           " NOT NULL UNIQUE REFERENCES " + u + "(" + v + ")\n";
  }

  lemma ReferenceWords(c: Column)
    ensures ReferenceText(c) == " REFERENCES " + c.refTable + "(" + c.refColumn + ")"
  {
  }

  lemma FlagWords(c: Column)
    requires !c.primaryKey && c.notNull && c.unique && c.refTable != ""
    ensures Constraints(c, true) == " NOT NULL" + (" UNIQUE" + (ReferenceText(c) + "\n"))
  {
    hide ReferenceText;
    var rest := " NOT NULL" + (" UNIQUE" + (ReferenceText(c) + "\n"));
    assert "" + rest == rest;
  }

  lemma TextJoin(t: string, c: string, d: string)
    ensures "CREATE TABLE " + (t + (" (\n" + (c + d + ");\n\n"))) == "CREATE TABLE " + t + " (\n" + c + d + ");\n\n"
  {
    assert " (\n" + (c + d + ");\n\n") == " (\n" + c + d + ");\n\n";
  }
}
