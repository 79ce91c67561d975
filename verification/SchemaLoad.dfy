/** Loading an ER schema from a parsed JSON document. */
module SchemaLoad {
  import opened Schema
  import opened Text

  /** A cJSON tree; a number is seen through its `valueint`. */
  datatype Json =
    | JNull
    | JBool(b: bool)
    | JNumber(valueInt: int)
    | JString(s: string)
    | JArray(items: seq<Json>)
    | JObject(members: seq<(string, Json)>)

  datatype LoadError =
    | UnreadableFile
    | NoTablesArray
    | TableNotObject
    | TableWithoutName
    | TableWithoutColumns
    | ColumnNotObject
    | ColumnWithoutName
    | TableHasNoColumns

  /** What was loaded before the error, if there was one. */
  datatype Loaded<+T> = Loaded(value: T, error: Option<LoadError>)

  function FirstMember(members: seq<(string, Json)>, key: string): Option<Json> {
    if members == [] then None
    else if members[0].0 == key then Some(members[0].1)
    else FirstMember(members[1..], key)
  }

  function Member(j: Json, key: string): Option<Json> {
    if j.JObject? then FirstMember(j.members, key) else None
  }

  /** A string member, cut to a buffer of `size`. */
  function CopyString(j: Json, key: string, size: nat): (r: Option<string>)
    requires size > 0
    ensures r.Some? ==> |r.value| < size
  {
    match Member(j, key)
    case Some(JString(s)) => Some(Cap(s, size))
    case _ => None
  }

  function GetBool(j: Json, key: string): bool {
    match Member(j, key)
    case Some(JBool(b)) => b
    case Some(JNumber(n)) => n != 0
    case _ => false
  }

  function Items(j: Json, key: string): Option<seq<Json>> {
    match Member(j, key)
    case Some(JArray(items)) => Some(items)
    case _ => None
  }

  /** How many characters come before the first dot, or the whole length. */
  function DotIndex(s: string): (i: nat)
    ensures i <= |s| && (i < |s| ==> s[i] == '.')
  {
    if s == "" || s[0] == '.' then 0 else 1 + DotIndex(s[1..])
  }

  /** `table.column` cut at its first dot. */
  function SplitQualified(s: string): (r: (string, string))
    ensures |r.0| < MAX_NAME && |r.1| < MAX_NAME
  {
    var dot := DotIndex(s);
    if dot == |s| then (Cap(s, MAX_NAME), "")
    else (Cap(s[..dot], MAX_NAME), Cap(s[dot + 1..], MAX_NAME))
  }

  function LoadColumn(j: Json): Option<Column> {
    match CopyString(j, "name", MAX_NAME)
    case None => None
    case Some(name) =>
      var typ := CopyString(j, "type", MAX_TYPE);
      var pk := GetBool(j, "primary_key");
      var target := CopyString(j, "references", MAX_NAME * 2);
      var at := if target.Some? then SplitQualified(target.value) else ("", "");
      Some(Column(
        name, if typ.Some? then typ.value else "TEXT",
        pk, GetBool(j, "unique"), GetBool(j, "not_null") || pk, at.0, at.1))
  }

  function LoadColumns(items: seq<Json>, acc: seq<Column>): Loaded<seq<Column>> {
    if items == [] || |acc| >= MAX_COLUMNS then Loaded(acc, None)
    else if !items[0].JObject? then Loaded(acc, Some(ColumnNotObject))
    else
      match LoadColumn(items[0])
      case None => Loaded(acc, Some(ColumnWithoutName))
      case Some(c) => LoadColumns(items[1..], acc + [c])
  }

  function LoadTable(j: Json): Loaded<Table> {
    var name := CopyString(j, "name", MAX_NAME);
    var columns := Items(j, "columns");
    var t := Table(if name.Some? then name.value else "", [], []);
    if !j.JObject? then Loaded(t, Some(TableNotObject))
    else if name.None? then Loaded(t, Some(TableWithoutName))
    else if columns.None? then Loaded(t, Some(TableWithoutColumns))
    else
      var cols := LoadColumns(columns.value, []);
      if cols.error.Some? then Loaded(t, cols.error)
      else if cols.value == [] then Loaded(t, Some(TableHasNoColumns))
      else Loaded(t.(columns := cols.value), None)
  }

  /** The tables loaded so far are `acc`; a table that fails stays invisible. */
  function LoadTables(items: seq<Json>, acc: seq<Table>): Loaded<seq<Table>> {
    if items == [] || |acc| >= MAX_TABLES then Loaded(acc, None)
    else
      var t := LoadTable(items[0]);
      if t.error.Some? then Loaded(acc, t.error) else LoadTables(items[1..], acc + [t.value])
  }

  function Retarget(ts: seq<Table>, t: nat, c: nat, at: (string, string)): seq<Table>
    requires t < |ts| && c < |ts[t].columns|
  {
    var col := ts[t].columns[c].(refTable := at.0, refColumn := at.1);
    ts[t := ts[t].(columns := ts[t].columns[c := col])]
  }

  /** The column a relation starts from, if it names one. */
  function RelationSource(ts: seq<Table>, j: Json): (r: Option<(nat, nat)>)
    ensures r.Some? ==> r.value.0 < |ts| && r.value.1 < |ts[r.value.0].columns|
  {
    var from := CopyString(j, "from", MAX_NAME * 2);
    if from.None? || CopyString(j, "to", MAX_NAME * 2).None? then None
    else
      var at := SplitQualified(from.value);
      var t := TableIndex(ts, at.0);
      if t < 0 then None
      else
        var c := ColumnIndex(ts[t].columns, at.1);
        if c < 0 then None else Some((t, c))
  }

  function RelationTarget(j: Json): (string, string) {
    var to := CopyString(j, "to", MAX_NAME * 2);
    if to.Some? then SplitQualified(to.value) else ("", "")
  }

  function ApplyRelation(ts: seq<Table>, j: Json): (r: seq<Table>)
    ensures SameButReferences(ts, r)
  {
    match RelationSource(ts, j)
    case None => ts
    case Some(at) => Retarget(ts, at.0, at.1, RelationTarget(j))
  }

  function ApplyRelations(ts: seq<Table>, relations: seq<Json>): (r: seq<Table>)
    ensures SameButReferences(ts, r)
    decreases |relations|
  {
    if relations == [] then ts else ApplyRelations(ApplyRelation(ts, relations[0]), relations[1..])
  }

  /** The schema after an upload ends: unchanged when the document has no table list, else whatever
      was loaded before the first error, with the relations applied only when there was none. */
  function LoadSchema(ts: seq<Table>, root: Option<Json>): Loaded<seq<Table>> {
    if root.None? then Loaded(ts, Some(UnreadableFile))
    else
      match Items(root.value, "tables")
      case None => Loaded(ts, Some(NoTablesArray))
      case Some(items) =>
        var loaded := LoadTables(items, []);
        if loaded.error.Some? then loaded
        else
          match Items(root.value, "relations")
          case None => loaded
          case Some(relations) => Loaded(ApplyRelations(loaded.value, relations), None)
  }

  // ---- What relations may change ----

  predicate SameColumn(a: Column, b: Column) {
    b == a.(refTable := b.refTable, refColumn := b.refColumn)
  }

  predicate SameButReferences(ts: seq<Table>, us: seq<Table>) {
    |ts| == |us| &&
    forall t :: 0 <= t < |ts| ==>
      && us[t].name == ts[t].name && us[t].rows == ts[t].rows && |us[t].columns| == |ts[t].columns|
      && forall c :: 0 <= c < |ts[t].columns| ==> SameColumn(ts[t].columns[c], us[t].columns[c])
  }

  /** Relations find their source by names alone, which no relation changes. */
  lemma SameSources(ts: seq<Table>, us: seq<Table>, j: Json)
    requires SameButReferences(ts, us)
    ensures RelationSource(ts, j) == RelationSource(us, j)
  {
    hide CopyString, SplitQualified, TableIndex, ColumnIndex;
    var from := CopyString(j, "from", MAX_NAME * 2);
    if from.Some? {
      var at := SplitQualified(from.value);
      SameTableIndex(ts, us, at.0);
      var t := TableIndex(ts, at.0);
      if t >= 0 {
        forall c | 0 <= c < |ts[t].columns|
          ensures us[t].columns[c].name == ts[t].columns[c].name
        {
          assert SameColumn(ts[t].columns[c], us[t].columns[c]);
        }
        SameColumnIndex(ts[t].columns, us[t].columns, at.1);
      }
    }
  }

  lemma OneRelation(ts: seq<Table>, j: Json, t: nat, c: nat)
    requires t < |ts| && c < |ts[t].columns|
    ensures var col := ApplyRelation(ts, j)[t].columns[c];
            if RelationSource(ts, j) == Some((t, c)) then (col.refTable, col.refColumn) == RelationTarget(j)
            else col == ts[t].columns[c]
  {
    hide RelationSource, RelationTarget;
  }

  predicate StartsAt(ts: seq<Table>, j: Json, t: nat, c: nat) {
    RelationSource(ts, j) == Some((t, c))
  }

  predicate NoneAt(ts: seq<Table>, relations: seq<Json>, t: nat, c: nat) {
    forall k :: 0 <= k < |relations| ==> !StartsAt(ts, relations[k], t, c)
  }

  lemma SameNone(ts: seq<Table>, us: seq<Table>, relations: seq<Json>, t: nat, c: nat)
    requires SameButReferences(ts, us)
    ensures NoneAt(ts, relations, t, c) <==> NoneAt(us, relations, t, c)
  {
    hide RelationSource, SameButReferences;
    forall k | 0 <= k < |relations|
      ensures StartsAt(ts, relations[k], t, c) <==> StartsAt(us, relations[k], t, c)
    {
      SameSources(ts, us, relations[k]);
    }
  }

  /** Relations that never start from a column leave it as it was declared. */
  lemma {:induction false} OtherRelationsKeep(ts: seq<Table>, relations: seq<Json>, t: nat, c: nat)
    requires t < |ts| && c < |ts[t].columns| && NoneAt(ts, relations, t, c)
    ensures ApplyRelations(ts, relations)[t].columns[c] == ts[t].columns[c]
    decreases |relations|
  {
    hide ApplyRelation, RelationSource;
    if relations != [] {
      var us := ApplyRelation(ts, relations[0]);
      assert StartsAt(ts, relations[0], t, c) == (RelationSource(ts, relations[0]) == Some((t, c)));
      OneRelation(ts, relations[0], t, c);
      SameNone(ts, us, relations[1..], t, c);
      OtherRelationsKeep(us, relations[1..], t, c);
    }
  }

  /** The last relation that starts from a column decides what the column references. */
  lemma {:induction false} LastRelationWins(ts: seq<Table>, relations: seq<Json>, k: nat, t: nat, c: nat)
    requires t < |ts| && c < |ts[t].columns| && k < |relations|
    requires StartsAt(ts, relations[k], t, c) && NoneAt(ts, relations[k + 1..], t, c)
    ensures var col := ApplyRelations(ts, relations)[t].columns[c];
            (col.refTable, col.refColumn) == RelationTarget(relations[k])
    decreases |relations|
  {
    hide ApplyRelation, RelationTarget, RelationSource, NoneAt;
    var us := ApplyRelation(ts, relations[0]);
    var rest := relations[1..];
    SameNone(ts, us, relations[k + 1..], t, c);
    if k == 0 {
      OneRelation(ts, relations[0], t, c);
      OtherRelationsKeep(us, rest, t, c);
    } else {
      SameSources(ts, us, relations[k]);
      assert rest[k - 1] == relations[k] && rest[k..] == relations[k + 1..];
      LastRelationWins(us, rest, k - 1, t, c);
    }
  }

  // ---- What a load leaves ----

  /** A column as the loader makes it. */
  predicate LoadedColumn(c: Column) {
    |c.name| < MAX_NAME && |c.typ| < MAX_TYPE && |c.refTable| < MAX_NAME && |c.refColumn| < MAX_NAME &&
    (c.primaryKey ==> c.notNull)
  }

  predicate LoadedTable(t: Table) {
    |t.name| < MAX_NAME && t.rows == [] && 1 <= |t.columns| <= MAX_COLUMNS &&
    forall c :: 0 <= c < |t.columns| ==> LoadedColumn(t.columns[c])
  }

  predicate LoadedSchema(ts: seq<Table>) {
    |ts| <= MAX_TABLES && forall t :: 0 <= t < |ts| ==> LoadedTable(ts[t])
  }

  lemma {:induction false} ColumnsAsLoaded(items: seq<Json>, acc: seq<Column>)
    requires |acc| <= MAX_COLUMNS && forall c :: 0 <= c < |acc| ==> LoadedColumn(acc[c])
    ensures var r := LoadColumns(items, acc).value;
            |r| <= MAX_COLUMNS && forall c :: 0 <= c < |r| ==> LoadedColumn(r[c])
    decreases |items|
  {
    if items != [] && |acc| < MAX_COLUMNS && items[0].JObject? && LoadColumn(items[0]).Some? {
      ColumnsAsLoaded(items[1..], acc + [LoadColumn(items[0]).value]);
    }
  }

  lemma {:induction false} TablesAsLoaded(items: seq<Json>, acc: seq<Table>)
    requires LoadedSchema(acc)
    ensures LoadedSchema(LoadTables(items, acc).value)
    decreases |items|
  {
    if items != [] && |acc| < MAX_TABLES {
      var t := LoadTable(items[0]);
      if t.error.None? {
        ColumnsAsLoaded(Items(items[0], "columns").value, []);
        TablesAsLoaded(items[1..], acc + [t.value]);
      }
    }
  }

  lemma {:induction false} RelationsAsLoaded(ts: seq<Table>, relations: seq<Json>)
    requires LoadedSchema(ts)
    ensures LoadedSchema(ApplyRelations(ts, relations))
    decreases |relations|
  {
    if relations != [] {
      RelationsAsLoaded(ApplyRelation(ts, relations[0]), relations[1..]);
    }
  }

  /** A load that fails before its table list leaves the store alone; any other load, complete or
      stopped half-way, leaves only well-formed tables without rows. */
  lemma LoadLeaves(ts: seq<Table>, root: Option<Json>)
    ensures var r := LoadSchema(ts, root);
            if root.None? || Items(root.value, "tables").None? then r.value == ts && r.error.Some?
            else LoadedSchema(r.value)
  {
    if root.Some? && Items(root.value, "tables").Some? {
      var loaded := LoadTables(Items(root.value, "tables").value, []);
      TablesAsLoaded(Items(root.value, "tables").value, []);
      if Items(root.value, "relations").Some? {
        RelationsAsLoaded(loaded.value, Items(root.value, "relations").value);
      }
    }
  }
}
