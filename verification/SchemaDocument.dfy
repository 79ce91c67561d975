/** Writing a schema down as the document the loader reads: what comes back, and exactly when it is the
    schema that was written. */
module SchemaDocument {
  import opened Schema
  import opened SchemaLoad
  import opened Text

  function ReferenceText(c: Column): string {
    c.refTable + "." + c.refColumn
  }

  function ColumnJson(c: Column): Json {
    JObject([
      ("name", JString(c.name)), ("type", JString(c.typ)),
      ("primary_key", JBool(c.primaryKey)), ("unique", JBool(c.unique)), ("not_null", JBool(c.notNull)),
      ("references", JString(ReferenceText(c)))])
  }

  function ColumnsJson(cols: seq<Column>): (r: seq<Json>)
    ensures |r| == |cols| && forall i :: 0 <= i < |r| ==> r[i] == ColumnJson(cols[i])
  {
    seq(|cols|, i requires 0 <= i < |cols| => ColumnJson(cols[i]))
  }

  function TableJson(t: Table): Json {
    JObject([("name", JString(t.name)), ("columns", JArray(ColumnsJson(t.columns)))])
  }

  function TablesJson(ts: seq<Table>): (r: seq<Json>)
    ensures |r| == |ts| && forall i :: 0 <= i < |r| ==> r[i] == TableJson(ts[i])
  {
    seq(|ts|, i requires 0 <= i < |ts| => TableJson(ts[i]))
  }

  function Document(ts: seq<Table>): Json {
    JObject([("tables", JArray(TablesJson(ts)))])
  }

  // ---- What survives ----

  predicate NoDot(s: string) {
    forall i :: 0 <= i < |s| ==> s[i] != '.'
  }

  /** A column the loader can make, whose referenced table is named without a dot. */
  predicate WritableColumn(c: Column) {
    LoadedColumn(c) && NoDot(c.refTable)
  }

  predicate WritableTable(t: Table) {
    LoadedTable(t) && forall c :: 0 <= c < |t.columns| ==> NoDot(t.columns[c].refTable)
  }

  predicate WritableSchema(ts: seq<Table>) {
    |ts| <= MAX_TABLES && forall t :: 0 <= t < |ts| ==> WritableTable(ts[t])
  }

  lemma {:induction false} DotFound(a: string, b: string)
    ensures DotIndex(a + "." + b) == DotIndex(a)
    ensures DotIndex(a) == |a| <==> NoDot(a)
    decreases |a|
  {
    if a != "" {
      assert (a + "." + b)[1..] == a[1..] + "." + b;
      DotFound(a[1..], b);
      if a[0] != '.' { assert a == [a[0]] + a[1..]; }
    }
  }

  /** The reference comes back exactly when its parts fit and the first has no dot. */
  lemma ReferenceReadBack(a: string, b: string)
    ensures SplitQualified(Cap(a + "." + b, MAX_NAME * 2)) == (a, b) <==>
            |a| < MAX_NAME && |b| < MAX_NAME && NoDot(a)
  {
    var s := a + "." + b;
    DotFound(a, b);
    if |a| < MAX_NAME && |b| < MAX_NAME {
      var dot := DotIndex(s);
      assert Cap(s, MAX_NAME * 2) == s && dot < |s|;
      if NoDot(a) { assert s[..dot] == a && s[dot + 1..] == b; }
    }
  }

  lemma {:induction false} FirstIs(members: seq<(string, Json)>, i: nat)
    requires i < |members| && forall k :: 0 <= k < i ==> members[k].0 != members[i].0
    ensures FirstMember(members, members[i].0) == Some(members[i].1)
    decreases |members|
  {
    if i > 0 { FirstIs(members[1..], i - 1); }
  }

  lemma ColumnMembers(c: Column)
    ensures var j := ColumnJson(c);
            && Member(j, "name") == Some(JString(c.name)) && Member(j, "type") == Some(JString(c.typ))
            && Member(j, "primary_key") == Some(JBool(c.primaryKey))
            && Member(j, "unique") == Some(JBool(c.unique)) && Member(j, "not_null") == Some(JBool(c.notNull))
            && Member(j, "references") == Some(JString(ReferenceText(c)))
  {
    hide FirstMember, ReferenceText;
    var ms := ColumnJson(c).members;
    assert ms[0].0 == "name" && ms[1].0 == "type" && ms[2].0 == "primary_key" && ms[3].0 == "unique";
    assert ms[4].0 == "not_null" && ms[5].0 == "references";
    KeysDiffer();
    FirstIs(ms, 0);
    FirstIs(ms, 1);
    FirstIs(ms, 2);
    FirstIs(ms, 3);
    FirstIs(ms, 4);
    FirstIs(ms, 5);
  }

  lemma KeysDiffer()
    ensures "name" != "type" && "name" != "primary_key" && "name" != "unique" && "name" != "not_null" && "name" != "references"
    ensures "type" != "primary_key" && "type" != "unique" && "type" != "not_null" && "type" != "references"
    ensures "primary_key" != "unique" && "primary_key" != "not_null" && "primary_key" != "references"
    ensures "unique" != "not_null" && "unique" != "references" && "not_null" != "references"
  {
    assert "name"[0] == 'n' && "type"[0] == 't' && "primary_key"[0] == 'p' && "unique"[0] == 'u';
    assert "name"[1] == 'a' && "not_null"[1] == 'o' && "not_null"[0] == 'n' && "references"[0] == 'r';
  }

  lemma ColumnReadBack(c: Column)
    ensures LoadColumn(ColumnJson(c)).Some? && (LoadColumn(ColumnJson(c)) == Some(c) <==> WritableColumn(c))
  {
    hide Member, SplitQualified, ColumnJson;
    ColumnMembers(c);
    ReferenceReadBack(c.refTable, c.refColumn);
  }

  // ---- Tables ----

  lemma {:induction false} ColumnsReadBack(cols: seq<Column>, acc: seq<Column>)
    requires |acc| <= MAX_COLUMNS
    ensures var r := LoadColumns(ColumnsJson(cols), acc);
            && r.error.None? && |r.value| == (if |acc| + |cols| <= MAX_COLUMNS then |acc| + |cols| else MAX_COLUMNS)
            && acc <= r.value
            && forall i :: |acc| <= i < |r.value| ==>
                 (r.value[i] == cols[i - |acc|] <==> WritableColumn(cols[i - |acc|]))
    decreases |cols|
  {
    hide LoadColumn, ColumnJson, WritableColumn;
    if cols != [] && |acc| < MAX_COLUMNS {
      ColumnReadBack(cols[0]);
      assert ColumnJson(cols[0]).JObject? by { ColumnIsObject(cols[0]); }
      assert ColumnsJson(cols)[1..] == ColumnsJson(cols[1..]);
      var c := LoadColumn(ColumnJson(cols[0])).value;
      ColumnsReadBack(cols[1..], acc + [c]);
      var r := LoadColumns(ColumnsJson(cols), acc);
      assert r == LoadColumns(ColumnsJson(cols[1..]), acc + [c]);
      assert (acc + [c])[|acc|] == c && r.value[|acc|] == c;
      forall i | |acc| <= i < |r.value|
        ensures r.value[i] == cols[i - |acc|] <==> WritableColumn(cols[i - |acc|])
      {
        if i > |acc| { assert cols[1..][i - |acc| - 1] == cols[i - |acc|]; }
      }
    }
  }

  lemma ColumnIsObject(c: Column)
    ensures ColumnJson(c).JObject?
  {
  }

  lemma TableMembers(t: Table)
    ensures var j := TableJson(t);
            && j.JObject? && Member(j, "name") == Some(JString(t.name))
            && Member(j, "columns") == Some(JArray(ColumnsJson(t.columns)))
  {
    var ms := TableJson(t).members;
    assert "columns"[0] == 'c' && "name"[0] == 'n';
    FirstIs(ms, 0);
    FirstIs(ms, 1);
  }

  lemma TableReadBack(t: Table)
    ensures LoadTable(TableJson(t)) == Loaded(t, None) <==> WritableTable(t)
    ensures LoadTable(TableJson(t)).error.None? <==> t.columns != []
  {
    hide Member, LoadColumns, TableJson, LoadColumn, ColumnsJson;
    TableMembers(t);
    ColumnsReadBack(t.columns, []);
    var r := LoadColumns(ColumnsJson(t.columns), []);
    SameColumns(t.columns, r.value);
  }

  lemma SameColumns(cols: seq<Column>, read: seq<Column>)
    requires |read| == if |cols| <= MAX_COLUMNS then |cols| else MAX_COLUMNS
    requires forall i :: 0 <= i < |read| ==> (read[i] == cols[i] <==> WritableColumn(cols[i]))
    ensures read == cols <==> |cols| <= MAX_COLUMNS && forall i :: 0 <= i < |cols| ==> WritableColumn(cols[i])
  {
    hide WritableColumn;
    if |cols| <= MAX_COLUMNS && (forall i :: 0 <= i < |cols| ==> WritableColumn(cols[i])) {
      assert read == cols;
    }
    if read == cols {
      forall i | 0 <= i < |cols|
        ensures WritableColumn(cols[i])
      {
        assert read[i] == cols[i];
      }
    }
  }

  lemma {:induction false} TablesReadBack(ts: seq<Table>, acc: seq<Table>)
    requires |acc| + |ts| <= MAX_TABLES
    ensures LoadTables(TablesJson(ts), acc) == Loaded(acc + ts, None) <==>
            forall t :: 0 <= t < |ts| ==> WritableTable(ts[t])
    ensures acc <= LoadTables(TablesJson(ts), acc).value
    decreases |ts|
  {
    hide LoadTable, TableJson, WritableTable;
    if ts == [] {
      assert acc + ts == acc;
    } else {
      TableReadBack(ts[0]);
      assert TablesJson(ts)[1..] == TablesJson(ts[1..]);
      var t := LoadTable(TableJson(ts[0]));
      if t.error.None? {
        TablesReadBack(ts[1..], acc + [t.value]);
        var r := LoadTables(TablesJson(ts), acc);
        assert (acc + [t.value])[|acc|] == t.value && r.value[|acc|] == t.value;
        assert (acc + ts)[|acc|] == ts[0];
        assert acc + ts == (acc + [ts[0]]) + ts[1..];
        assert (forall i :: 0 <= i < |ts| ==> WritableTable(ts[i])) <==>
               WritableTable(ts[0]) && forall i :: 0 <= i < |ts[1..]| ==> WritableTable(ts[1..][i]);
      } else {
        assert LoadTable(TableJson(ts[0])) != Loaded(ts[0], None);
      }
    }
  }

  /** The document is read back as the schema it was written from exactly when every name fits its
      buffer, every primary key is marked NOT NULL, referenced tables have no dot in their name, every
      table has columns, and nothing is more than the store holds; whatever was stored before is gone. */
  lemma DocumentReadBack(before: seq<Table>, ts: seq<Table>)
    ensures LoadSchema(before, Some(Document(ts))) == Loaded(ts, None) <==> WritableSchema(ts)
  {
    hide LoadTables, TablesJson, WritableTable;
    DocumentMembers(ts);
    if |ts| <= MAX_TABLES {
      TablesReadBack(ts, []);
      assert [] + ts == ts;
    } else {
      AtMost(TablesJson(ts), []);
    }
  }

  lemma DocumentMembers(ts: seq<Table>)
    ensures Items(Document(ts), "tables") == Some(TablesJson(ts)) && Items(Document(ts), "relations").None?
  {
    var ms := Document(ts).members;
    assert "tables"[0] == 't' && "relations"[0] == 'r';
    FirstIs(ms, 0);
    assert ms == [("tables", JArray(TablesJson(ts)))];
    assert ms[1..] == [] && FirstMember(ms, "relations") == FirstMember(ms[1..], "relations");
    assert Member(Document(ts), "relations") == None;
  }

  lemma {:induction false} AtMost(items: seq<Json>, acc: seq<Table>)
    requires |acc| <= MAX_TABLES
    ensures |LoadTables(items, acc).value| <= MAX_TABLES
    decreases |items|
  {
    hide LoadTable;
    if items != [] && |acc| < MAX_TABLES && LoadTable(items[0]).error.None? {
      AtMost(items[1..], acc + [LoadTable(items[0]).value]);
    }
  }
}
