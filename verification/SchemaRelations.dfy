/** References written as relations beside the tables: what a relation object does, and when a schema
    written that way is loaded as itself. */
module SchemaRelations {
  import opened Schema
  import opened SchemaLoad
  import opened SchemaDocument
  import opened Text

  function RelationJson(ft: string, fc: string, tt: string, tc: string): Json {
    JObject([("from", JString(ft + "." + fc)), ("to", JString(tt + "." + tc))])
  }

  lemma RelationMembers(ft: string, fc: string, tt: string, tc: string)
    ensures var j := RelationJson(ft, fc, tt, tc);
            Member(j, "from") == Some(JString(ft + "." + fc)) && Member(j, "to") == Some(JString(tt + "." + tc))
  {
    var ms := RelationJson(ft, fc, tt, tc).members;
    assert "from"[0] == 'f' && "to"[0] == 't';
    FirstIs(ms, 0);
    FirstIs(ms, 1);
  }

  predicate Fits(name: string) {
    |name| < MAX_NAME
  }

  /** The first `n` characters, or all. */
  function Kept(s: string, n: nat): (r: string)
    ensures |s| <= n ==> r == s
  {
    if |s| <= n then s else s[..n]
  }

  /** A qualified name is first cut to 127 characters, then at its first dot, and then each part to 63. */
  lemma QualifiedRead(a: string, b: string)
    requires NoDot(a) && |a| <= 126
    ensures SplitQualified(Cap(a + "." + b, MAX_NAME * 2)) == (Kept(a, 63), Kept(Kept(b, 126 - |a|), 63))
  {
    hide SplitQualified, DotIndex;
    var s := a + "." + b;
    assert Cap(s, MAX_NAME * 2) == a + "." + Kept(b, 126 - |a|);
    ReferenceCut(a, Kept(b, 126 - |a|));
  }

  lemma RelationStarts(ts: seq<Table>, ft: string, fc: string, tt: string, tc: string, t: nat, c: nat)
    requires NoDot(ft) && |ft| <= 126
    requires t < |ts| && TableIndex(ts, Kept(ft, 63)) == t
    requires c < |ts[t].columns| && ColumnIndex(ts[t].columns, Kept(Kept(fc, 126 - |ft|), 63)) == c
    ensures StartsAt(ts, RelationJson(ft, fc, tt, tc), t, c)
  {
    hide SplitQualified, Member, TableIndex, ColumnIndex, RelationJson;
    RelationMembers(ft, fc, tt, tc);
    QualifiedRead(ft, fc);
  }

  lemma RelationAims(ft: string, fc: string, tt: string, tc: string)
    ensures RelationTarget(RelationJson(ft, fc, tt, tc)) == (tt, tc) <==> Fits(tt) && Fits(tc) && NoDot(tt)
  {
    hide SplitQualified, Member, RelationJson;
    RelationMembers(ft, fc, tt, tc);
    ReferenceReadBack(tt, tc);
  }

  /** A relation from column `fc` of table `ft` to column `tc` of table `tt` makes the one column refer to
      the other, both names as the buffers keep them, and changes nothing else. */
  lemma RelationRefers(ts: seq<Table>, ft: string, fc: string, tt: string, tc: string, t: nat, c: nat)
    requires NoDot(ft) && NoDot(tt) && |ft| <= 126 && |tt| <= 126
    requires t < |ts| && TableIndex(ts, Kept(ft, 63)) == t
    requires c < |ts[t].columns| && ColumnIndex(ts[t].columns, Kept(Kept(fc, 126 - |ft|), 63)) == c
    ensures var col := ts[t].columns[c].(refTable := Kept(tt, 63), refColumn := Kept(Kept(tc, 126 - |tt|), 63));
            ApplyRelation(ts, RelationJson(ft, fc, tt, tc)) == ts[t := ts[t].(columns := ts[t].columns[c := col])]
  {
    hide RelationSource, RelationTarget, RelationJson, TableIndex, ColumnIndex, Kept;
    RelationStarts(ts, ft, fc, tt, tc, t, c);
    assert RelationSource(ts, RelationJson(ft, fc, tt, tc)) == Some((t, c));
    RelationTargets(ft, fc, tt, tc);
  }

  lemma RelationTargets(ft: string, fc: string, tt: string, tc: string)
    requires NoDot(tt) && |tt| <= 126
    ensures RelationTarget(RelationJson(ft, fc, tt, tc)) == (Kept(tt, 63), Kept(Kept(tc, 126 - |tt|), 63))
  {
    hide SplitQualified, Member, RelationJson;
    RelationMembers(ft, fc, tt, tc);
    QualifiedRead(tt, tc);
  }

  /** In a whole load it does so unless a later relation starts from the same column. */
  lemma RelationLoaded(
      before: seq<Table>, root: Json, items: seq<Json>, relations: seq<Json>, k: nat,
      ft: string, fc: string, tt: string, tc: string, t: nat, c: nat)
    requires Items(root, "tables") == Some(items) && Items(root, "relations") == Some(relations)
    requires LoadTables(items, []).error.None? && k < |relations| && relations[k] == RelationJson(ft, fc, tt, tc)
    requires Fits(ft) && Fits(fc) && Fits(tt) && Fits(tc) && NoDot(ft) && NoDot(tt)
    requires var ts := LoadTables(items, []).value;
             && t < |ts| && TableIndex(ts, ft) == t && c < |ts[t].columns| && ColumnIndex(ts[t].columns, fc) == c
             && NoneAt(ts, relations[k + 1..], t, c)
    ensures var r := LoadSchema(before, Some(root));
            && r.error.None? && t < |r.value| && r.value[t].name == ft && c < |r.value[t].columns|
            && r.value[t].columns[c].name == fc
            && r.value[t].columns[c].refTable == tt && r.value[t].columns[c].refColumn == tc
  {
    hide LoadTables, ApplyRelations, RelationTarget, RelationSource, RelationJson, TableIndex, ColumnIndex, NoneAt;
    var ts := LoadTables(items, []).value;
    RelationStarts(ts, ft, fc, tt, tc, t, c);
    RelationAims(ft, fc, tt, tc);
    LastRelationWins(ts, relations, k, t, c);
    assert SameColumn(ts[t].columns[c], ApplyRelations(ts, relations)[t].columns[c]);
  }

  // ---- A whole schema written with relations ----

  function Bare(c: Column): Column {
    c.(refTable := "", refColumn := "")
  }

  function BareColumns(cols: seq<Column>): (r: seq<Column>)
    ensures |r| == |cols| && forall i :: 0 <= i < |cols| ==> r[i] == Bare(cols[i])
  {
    seq(|cols|, i requires 0 <= i < |cols| => Bare(cols[i]))
  }

  /** The tables without their references. */
  function Stripped(ts: seq<Table>): (r: seq<Table>)
    ensures |r| == |ts| && forall t :: 0 <= t < |ts| ==> r[t] == ts[t].(columns := BareColumns(ts[t].columns))
  {
    seq(|ts|, t requires 0 <= t < |ts| => ts[t].(columns := BareColumns(ts[t].columns)))
  }

  predicate Refers(ts: seq<Table>, p: (nat, nat)) {
    p.0 < |ts| && p.1 < |ts[p.0].columns| && ts[p.0].columns[p.1].refTable != ""
  }

  function ColumnPlaces(ts: seq<Table>, t: nat, m: nat): seq<(nat, nat)>
    requires t < |ts| && m <= |ts[t].columns|
  {
    if m == 0 then [] else ColumnPlaces(ts, t, m - 1) + if Refers(ts, (t, m - 1)) then [(t, m - 1)] else []
  }

  /** The columns that refer to others, in order. */
  function Places(ts: seq<Table>, n: nat): seq<(nat, nat)>
    requires n <= |ts|
  {
    if n == 0 then [] else Places(ts, n - 1) + ColumnPlaces(ts, n - 1, |ts[n - 1].columns|)
  }

  predicate Before(p: (nat, nat), q: (nat, nat)) {
    p.0 < q.0 || (p.0 == q.0 && p.1 < q.1)
  }

  predicate Ordered(ps: seq<(nat, nat)>) {
    forall i, j :: 0 <= i < j < |ps| ==> Before(ps[i], ps[j])
  }

  lemma {:induction false} ColumnPlacesAre(ts: seq<Table>, t: nat, m: nat)
    requires t < |ts| && m <= |ts[t].columns|
    ensures Ordered(ColumnPlaces(ts, t, m))
    ensures forall p: (nat, nat) :: p in ColumnPlaces(ts, t, m) <==> Refers(ts, p) && p.0 == t && p.1 < m
    decreases m
  {
    if m > 0 { ColumnPlacesAre(ts, t, m - 1); }
  }

  lemma {:induction false} PlacesAre(ts: seq<Table>, n: nat)
    requires n <= |ts|
    ensures Ordered(Places(ts, n))
    ensures forall p: (nat, nat) :: p in Places(ts, n) <==> Refers(ts, p) && p.0 < n
    decreases n
  {
    hide ColumnPlaces;
    if n > 0 {
      PlacesAre(ts, n - 1);
      ColumnPlacesAre(ts, n - 1, |ts[n - 1].columns|);
      var a, b := Places(ts, n - 1), ColumnPlaces(ts, n - 1, |ts[n - 1].columns|);
      forall i, j | 0 <= i < j < |a + b|
        ensures Before((a + b)[i], (a + b)[j])
      {
        if i < |a| { assert a[i] in a; }
        if j >= |a| { assert b[j - |a|] in b; }
      }
    }
  }

  function RelationAt(ts: seq<Table>, p: (nat, nat)): Json
    requires Refers(ts, p)
  {
    var col := ts[p.0].columns[p.1];
    RelationJson(ts[p.0].name, col.name, col.refTable, col.refColumn)
  }

  function RelationsJson(ts: seq<Table>): (r: seq<Json>)
    ensures |r| == |Places(ts, |ts|)|
    ensures forall k :: 0 <= k < |r| ==> Refers(ts, Places(ts, |ts|)[k]) && r[k] == RelationAt(ts, Places(ts, |ts|)[k])
  {
    PlacesAre(ts, |ts|);
    var ps := Places(ts, |ts|);
    seq(|ps|, k requires 0 <= k < |ps| => (assert ps[k] in ps; RelationAt(ts, ps[k])))
  }

  function Relational(ts: seq<Table>): Json {
    JObject([("tables", JArray(TablesJson(Stripped(ts)))), ("relations", JArray(RelationsJson(ts)))])
  }

  /** Names tell tables and columns apart, and a dot ends a table's name. */
  predicate Named(ts: seq<Table>) {
    forall t :: 0 <= t < |ts| ==>
      && Fits(ts[t].name) && NoDot(ts[t].name) && TableIndex(ts, ts[t].name) == t
      && forall c :: 0 <= c < |ts[t].columns| ==>
           Fits(ts[t].columns[c].name) && ColumnIndex(ts[t].columns, ts[t].columns[c].name) == c
  }

  predicate GoodReference(c: Column) {
    if c.refTable == "" then c.refColumn == "" else Fits(c.refTable) && Fits(c.refColumn) && NoDot(c.refTable)
  }

  predicate GoodReferences(ts: seq<Table>) {
    forall t, c :: 0 <= t < |ts| && 0 <= c < |ts[t].columns| ==> GoodReference(ts[t].columns[c])
  }

  lemma SameNames(ts: seq<Table>)
    ensures SameButReferences(ts, Stripped(ts))
  {
  }

  lemma PlaceStarts(ts: seq<Table>, p: (nat, nat))
    requires Named(ts) && Refers(ts, p)
    ensures StartsAt(Stripped(ts), RelationAt(ts, p), p.0, p.1)
  {
    hide RelationSource, RelationJson, TableIndex, ColumnIndex, SameButReferences;
    var col := ts[p.0].columns[p.1];
    SameNames(ts);
    RelationStarts(ts, ts[p.0].name, col.name, col.refTable, col.refColumn, p.0, p.1);
    SameSources(ts, Stripped(ts), RelationAt(ts, p));
  }

  /** Applied to the stripped tables, the relations set every column to what it referred to, exactly when
      its reference is a good one. */
  lemma ColumnRestored(ts: seq<Table>, t: nat, c: nat)
    requires Named(ts) && t < |ts| && c < |ts[t].columns|
    ensures ApplyRelations(Stripped(ts), RelationsJson(ts))[t].columns[c] == ts[t].columns[c] <==>
            GoodReference(ts[t].columns[c])
  {
    hide ApplyRelations, RelationSource, RelationTarget, RelationJson, Places, Named, SameButReferences, RelationsJson;
    var us, rels, ps := Stripped(ts), RelationsJson(ts), Places(ts, |ts|);
    var col := ts[t].columns[c];
    PlacesAre(ts, |ts|);
    RelationsKeepShape(us, rels, t, c);
    if col.refTable == "" {
      forall k | 0 <= k < |rels|
        ensures !StartsAt(us, rels[k], t, c)
      {
        PlaceStarts(ts, ps[k]);
        assert ps[k] in ps;
      }
      OtherRelationsKeep(us, rels, t, c);
    } else {
      assert Refers(ts, (t, c)) && (t, c) in ps;
      var k :| 0 <= k < |ps| && ps[k] == (t, c);
      PlaceStarts(ts, ps[k]);
      var later := rels[k + 1..];
      forall i | 0 <= i < |later|
        ensures !StartsAt(us, later[i], t, c)
      {
        assert later[i] == rels[k + 1 + i];
        PlaceStarts(ts, ps[k + 1 + i]);
        assert Before(ps[k], ps[k + 1 + i]);
      }
      LastRelationWins(us, rels, k, t, c);
      RelationAims(ts[t].name, col.name, col.refTable, col.refColumn);
    }
  }

  lemma RelationsKeepShape(us: seq<Table>, rels: seq<Json>, t: nat, c: nat)
    requires t < |us| && c < |us[t].columns|
    ensures |ApplyRelations(us, rels)| == |us| && |ApplyRelations(us, rels)[t].columns| == |us[t].columns|
    ensures SameColumn(us[t].columns[c], ApplyRelations(us, rels)[t].columns[c])
  {
    hide ApplyRelations;
  }

  lemma AllRestored(ts: seq<Table>)
    requires Named(ts)
    ensures ApplyRelations(Stripped(ts), RelationsJson(ts)) == ts <==> GoodReferences(ts)
  {
    hide ApplyRelations, RelationsJson, Named, GoodReference;
    var us, rs := Stripped(ts), ApplyRelations(Stripped(ts), RelationsJson(ts));
    forall t, c | 0 <= t < |ts| && 0 <= c < |ts[t].columns|
      ensures |rs| == |ts| && |rs[t].columns| == |ts[t].columns|
      ensures rs[t].columns[c] == ts[t].columns[c] <==> GoodReference(ts[t].columns[c])
    {
      ColumnRestored(ts, t, c);
    }
    if GoodReferences(ts) {
      forall t | 0 <= t < |ts|
        ensures rs[t] == ts[t]
      {
        assert rs[t].columns == ts[t].columns;
      }
    }
  }

  lemma RelationalMembers(ts: seq<Table>)
    ensures Items(Relational(ts), "tables") == Some(TablesJson(Stripped(ts)))
    ensures Items(Relational(ts), "relations") == Some(RelationsJson(ts))
  {
    var ms := Relational(ts).members;
    assert "tables"[0] == 't' && "relations"[0] == 'r';
    FirstIs(ms, 0);
    FirstIs(ms, 1);
  }

  /** All but the references fits the store. */
  predicate Storable(ts: seq<Table>) {
    |ts| <= MAX_TABLES && forall t :: 0 <= t < |ts| ==> WritableTable(Stripped(ts)[t])
  }

  /** A schema that fits the store and whose names tell its tables and columns apart, written with its
      references as relations, is loaded as itself exactly when every reference fits its buffers, names a
      table without a dot, and names no column without a table. */
  lemma RelationalReadBack(before: seq<Table>, ts: seq<Table>)
    requires Named(ts) && Storable(ts)
    ensures LoadSchema(before, Some(Relational(ts))) == Loaded(ts, None) <==> GoodReferences(ts)
  {
    hide LoadTables, TablesJson, WritableTable, ApplyRelations, RelationsJson, Stripped, Named, GoodReferences;
    RelationalMembers(ts);
    TablesReadBack(Stripped(ts), []);
    assert [] + Stripped(ts) == Stripped(ts);
    AllRestored(ts);
  }

  // ---- What a load makes of each member ----

  /** A column object with only a name, and one with numbers for flags: any number but 0 is true, and a
      primary key is NOT NULL. */
  lemma ColumnDefaults(name: string, pk: int, unique: int, notNull: int)
    ensures LoadColumn(JObject([("name", JString(name))])) ==
            Some(Column(Cap(name, MAX_NAME), "TEXT", false, false, false, "", ""))
    ensures LoadColumn(JObject([("name", JString(name)), ("primary_key", JNumber(pk)), ("unique", JNumber(unique)),
                                ("not_null", JNumber(notNull))])) ==
            Some(Column(Cap(name, MAX_NAME), "TEXT", pk != 0, unique != 0, notNull != 0 || pk != 0, "", ""))
  {
    NameOnly(name);
    NumberFlags(name, pk, unique, notNull);
  }

  lemma {:induction false} NoMember(members: seq<(string, Json)>, key: string)
    requires forall k :: 0 <= k < |members| ==> members[k].0 != key
    ensures FirstMember(members, key) == None
    decreases |members|
  {
    if members != [] { NoMember(members[1..], key); }
  }

  lemma NameOnly(name: string)
    ensures LoadColumn(JObject([("name", JString(name))])) ==
            Some(Column(Cap(name, MAX_NAME), "TEXT", false, false, false, "", ""))
  {
    hide FirstMember;
    var ms := [("name", JString(name))];
    KeysDiffer();
    FirstIs(ms, 0);
    NoMember(ms, "type");
    NoMember(ms, "primary_key");
    NoMember(ms, "unique");
    NoMember(ms, "not_null");
    NoMember(ms, "references");
  }

  lemma NumberFlags(name: string, pk: int, unique: int, notNull: int)
    ensures LoadColumn(JObject([("name", JString(name)), ("primary_key", JNumber(pk)), ("unique", JNumber(unique)),
                                ("not_null", JNumber(notNull))])) ==
            Some(Column(Cap(name, MAX_NAME), "TEXT", pk != 0, unique != 0, notNull != 0 || pk != 0, "", ""))
  {
    hide FirstMember;
    var ms := [("name", JString(name)), ("primary_key", JNumber(pk)), ("unique", JNumber(unique)), ("not_null", JNumber(notNull))];
    KeysDiffer();
    FirstIs(ms, 0);
    FirstIs(ms, 1);
    FirstIs(ms, 2);
    FirstIs(ms, 3);
    NoMember(ms, "type");
    NoMember(ms, "references");
  }

  /** A reference without a dot names a table and no column. */
  lemma ReferenceWithoutDot(s: string)
    requires NoDot(s)
    ensures SplitQualified(s) == (Cap(s, MAX_NAME), "")
  {
    DotFound(s, "");
  }

  /** Texts longer than their buffers are cut, to 63 characters each. */
  lemma ReferenceCut(a: string, b: string)
    requires NoDot(a)
    ensures SplitQualified(a + "." + b) == (Cap(a, MAX_NAME), Cap(b, MAX_NAME))
  {
    var s := a + "." + b;
    DotFound(a, b);
    assert s[..|a|] == a && s[|a| + 1..] == b;
  }

  lemma ColumnCut(c: Column)
    ensures LoadColumn(ColumnJson(c)).Some?
    ensures var r := LoadColumn(ColumnJson(c)).value;
            && r.name == Cap(c.name, MAX_NAME) && r.typ == Cap(c.typ, MAX_TYPE)
            && r.primaryKey == c.primaryKey && r.unique == c.unique && r.notNull == (c.notNull || c.primaryKey)
            && (NoDot(c.refTable) && |c.refTable| <= 126 ==>
                  r.refTable == Kept(c.refTable, 63) && r.refColumn == Kept(Kept(c.refColumn, 126 - |c.refTable|), 63))
  {
    hide Member, SplitQualified, ColumnJson;
    ColumnMembers(c);
    if NoDot(c.refTable) && |c.refTable| <= 126 { QualifiedRead(c.refTable, c.refColumn); }
  }

  // ---- Where a load stops ----

  /** A load reads table after table until one fails, the list ends, or the store is full. */
  lemma {:induction false} TablesInOrder(items: seq<Json>, acc: seq<Table>)
    requires |acc| <= MAX_TABLES
    ensures var r := LoadTables(items, acc);
            && acc <= r.value && |r.value| - |acc| <= |items|
            && (forall i :: 0 <= i < |r.value| - |acc| ==> LoadTable(items[i]) == Loaded(r.value[|acc| + i], None))
            && match r.error
               case None => |r.value| - |acc| == |items| || |r.value| == MAX_TABLES
               case Some(_) => |r.value| - |acc| < |items| && LoadTable(items[|r.value| - |acc|]).error == r.error
    decreases |items|
  {
    hide LoadTable;
    if items != [] && |acc| < MAX_TABLES && LoadTable(items[0]).error.None? {
      var t := LoadTable(items[0]).value;
      TablesInOrder(items[1..], acc + [t]);
      var r := LoadTables(items, acc);
      assert (acc + [t])[|acc|] == t && r.value[|acc|] == t;
      forall i | 0 <= i < |r.value| - |acc|
        ensures LoadTable(items[i]) == Loaded(r.value[|acc| + i], None)
      {
        if i > 0 { assert items[1..][i - 1] == items[i]; }
      }
      if r.error.Some? { assert items[1..][|r.value| - |acc| - 1] == items[|r.value| - |acc|]; }
    }
  }

  lemma {:induction false} ColumnsInOrder(items: seq<Json>, acc: seq<Column>)
    requires |acc| <= MAX_COLUMNS
    ensures var r := LoadColumns(items, acc);
            var n := |r.value| - |acc|;
            && acc <= r.value && n <= |items|
            && (forall i :: 0 <= i < n ==> items[i].JObject? && LoadColumn(items[i]) == Some(r.value[|acc| + i]))
            && match r.error
               case None => n == |items| || |r.value| == MAX_COLUMNS
               case Some(e) =>
                 n < |items| && |r.value| < MAX_COLUMNS &&
                 if items[n].JObject? then LoadColumn(items[n]).None? && e == ColumnWithoutName else e == ColumnNotObject
    decreases |items|
  {
    hide LoadColumn;
    if items != [] && |acc| < MAX_COLUMNS && items[0].JObject? && LoadColumn(items[0]).Some? {
      var c := LoadColumn(items[0]).value;
      ColumnsInOrder(items[1..], acc + [c]);
      var r := LoadColumns(items, acc);
      assert (acc + [c])[|acc|] == c && r.value[|acc|] == c;
      forall i | 0 <= i < |r.value| - |acc|
        ensures items[i].JObject? && LoadColumn(items[i]) == Some(r.value[|acc| + i])
      {
        if i > 0 { assert items[1..][i - 1] == items[i]; }
      }
      if r.error.Some? { assert items[1..][|r.value| - |acc| - 1] == items[|r.value| - |acc|]; }
    }
  }

  /** A load that fails at an entry keeps the tables before it and applies no relation at all. */
  lemma StoppedLoad(before: seq<Table>, ts: seq<Table>, bad: Json, more: seq<Json>, relations: seq<Json>)
    requires WritableSchema(ts) && |ts| < MAX_TABLES && LoadTable(bad).error.Some?
    ensures LoadSchema(before, Some(JObject([("tables", JArray(TablesJson(ts) + [bad] + more)), ("relations", JArray(relations))]))) ==
            Loaded(ts, LoadTable(bad).error)
  {
    hide LoadTables, LoadTable, TablesJson, WritableTable, ApplyRelations;
    var items := TablesJson(ts) + [bad] + more;
    var ms := [("tables", JArray(items)), ("relations", JArray(relations))];
    FirstIs(ms, 0);
    StopsAt(ts, [], bad, more);
    assert [] + ts == ts;
  }

  lemma {:induction false} StopsAt(ts: seq<Table>, acc: seq<Table>, bad: Json, more: seq<Json>)
    requires |acc| + |ts| < MAX_TABLES && LoadTable(bad).error.Some?
    requires forall t :: 0 <= t < |ts| ==> WritableTable(ts[t])
    ensures LoadTables(TablesJson(ts) + [bad] + more, acc) == Loaded(acc + ts, LoadTable(bad).error)
    decreases |ts|
  {
    hide LoadTable, TableJson, WritableTable;
    var items := TablesJson(ts) + [bad] + more;
    if ts == [] {
      assert items[0] == bad && acc + ts == acc;
    } else {
      TableReadBack(ts[0]);
      assert items[0] == TableJson(ts[0]) && items[1..] == TablesJson(ts[1..]) + [bad] + more;
      StopsAt(ts[1..], acc + [ts[0]], bad, more);
      assert acc + [ts[0]] + ts[1..] == acc + ts;
    }
  }
}
