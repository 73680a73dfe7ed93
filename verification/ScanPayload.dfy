/** The filter-and-group part of the datasource scan: rows of the catalog become tables with their columns. */
module ScanPayload {
  import opened Results
  import opened PyStrings
  import opened Counting

  datatype TableRow = TableRow(schema: string, name: string, relkind: string, comment: Option<string>)

  datatype ColumnRow = ColumnRow(schema: string, table: string, column: string, dataType: string, isPrimaryKey: bool,
                                 isNullable: bool, position: int, comment: Option<string>)

  datatype ColumnEntry = ColumnEntry(name: string, dataType: string, isPrimaryKey: bool, isNullable: bool,
                                     position: int, comment: Option<string>)

  datatype TableKind = PlainTable | View | MaterializedView | UnknownKind

  datatype TableEntry = TableEntry(schema: string, name: string, kind: TableKind, comment: Option<string>,
                                   columns: seq<ColumnEntry>)

  type TableKey = (string, string)

  predicate IsTechnicalSchema(schema: string) {
    schema in ["pg_catalog", "information_schema"] || StartsWith(schema, "pg_toast") || StartsWith(schema, "pg_temp_")
  }

  /** Empty lists do not restrict. */
  predicate IsAllowedSchema(schema: string, included: seq<string>, excluded: seq<string>) {
    if IsTechnicalSchema(schema) then false
    else if included != [] && schema !in included then false
    else if excluded != [] && schema in excluded then false
    else true
  }

  function MapRelkind(relkind: string): TableKind {
    if relkind == "r" then PlainTable else if relkind == "v" then View else if relkind == "m" then MaterializedView
      else UnknownKind
  }

  /** `str(data_type or "text")` */
  function ToEntry(c: ColumnRow): ColumnEntry {
    ColumnEntry(c.column, if c.dataType == "" then "text" else c.dataType, c.isPrimaryKey, c.isNullable, c.position,
                c.comment)
  }

  function ColumnKey(c: ColumnRow): TableKey {
    (c.schema, c.table)
  }

  function KeyOf(t: TableRow): TableKey {
    (t.schema, t.name)
  }

  /** The entries of the rows with a key, in source order. */
  function EntriesOf(rows: seq<ColumnRow>, key: TableKey): seq<ColumnEntry> {
    if rows == [] then [] else
    var k := |rows| - 1;
    EntriesOf(rows[..k], key) + if ColumnKey(rows[k]) == key then [ToEntry(rows[k])] else []
  }

  function AllowedTables(rows: seq<TableRow>, included: seq<string>, excluded: seq<string>): seq<TableRow> {
    Filter(rows, (t: TableRow) => IsAllowedSchema(t.schema, included, excluded))
  }

  function AllowedColumns(rows: seq<ColumnRow>, included: seq<string>, excluded: seq<string>): seq<ColumnRow> {
    Filter(rows, (c: ColumnRow) => IsAllowedSchema(c.schema, included, excluded))
  }

  /** The payload's entry of a table: all its columns, taken from the unfiltered catalog. */
  function EntryFor(t: TableRow, columns: seq<ColumnRow>): TableEntry {
    TableEntry(t.schema, t.name, MapRelkind(t.relkind), t.comment, EntriesOf(columns, KeyOf(t)))
  }

  function Payload(tables: seq<TableRow>, columns: seq<ColumnRow>): (es: seq<TableEntry>)
    ensures |es| == |tables| && forall i :: 0 <= i < |es| ==> es[i] == EntryFor(tables[i], columns)
  {
    seq(|tables|, i requires 0 <= i < |tables| => EntryFor(tables[i], columns))
  }

  /** Filtering the columns by schema first does not change what an allowed table receives. */
  lemma {:induction false} FilterBeforeGroup(rows: seq<ColumnRow>, key: TableKey, included: seq<string>,
                                             excluded: seq<string>)
    requires IsAllowedSchema(key.0, included, excluded)
    ensures EntriesOf(AllowedColumns(rows, included, excluded), key) == EntriesOf(rows, key)
  {
    hide IsAllowedSchema, AllowedColumns;
    NothingAllowed(included, excluded);
    if rows != [] {
      var k := |rows| - 1;
      assert rows == rows[..k] + [rows[k]];
      FilterBeforeGroup(rows[..k], key, included, excluded);
      AllowedStep(rows[..k], rows[k], included, excluded);
      EntriesStep(AllowedColumns(rows[..k], included, excluded), rows[k], key);
    }
  }

  lemma NothingAllowed(included: seq<string>, excluded: seq<string>)
    ensures AllowedColumns([], included, excluded) == []
  {}

  lemma AllowedStep(rows: seq<ColumnRow>, c: ColumnRow, included: seq<string>, excluded: seq<string>)
    ensures AllowedColumns(rows + [c], included, excluded)
         == if IsAllowedSchema(c.schema, included, excluded) then AllowedColumns(rows, included, excluded) + [c]
            else AllowedColumns(rows, included, excluded)
  {
    hide IsAllowedSchema;
    assert (rows + [c])[..|rows|] == rows;
  }

  lemma EntriesStep(rows: seq<ColumnRow>, c: ColumnRow, key: TableKey)
    ensures EntriesOf(rows + [c], key) == if ColumnKey(c) == key then EntriesOf(rows, key) + [ToEntry(c)]
            else EntriesOf(rows, key)
  {
    assert (rows + [c])[..|rows|] == rows;
  }

  /** What the dictionary of columns must hold after some rows. */
  ghost predicate Groups(byTable: map<TableKey, seq<ColumnEntry>>, rows: seq<ColumnRow>) {
    forall key: TableKey :: (if key in byTable then byTable[key] else []) == EntriesOf(rows, key)
  }

  lemma GroupsStep(byTable: map<TableKey, seq<ColumnEntry>>, rows: seq<ColumnRow>, c: ColumnRow)
    requires Groups(byTable, rows)
    ensures var key := ColumnKey(c);
            Groups(byTable[key := (if key in byTable then byTable[key] else []) + [ToEntry(c)]], rows + [c])
  {
    assert (rows + [c])[..|rows|] == rows;
  }

  method GroupColumns(rows: seq<ColumnRow>) returns (byTable: map<TableKey, seq<ColumnEntry>>)
    ensures Groups(byTable, rows)
  {
    hide Groups, EntriesOf;
    byTable := map[];
    NothingGrouped(rows);
    for i := 0 to |rows|
      invariant Groups(byTable, rows[..i])
    {
      var key := ColumnKey(rows[i]);
      GroupsStep(byTable, rows[..i], rows[i]);
      assert rows[..i + 1] == rows[..i] + [rows[i]];
      byTable := byTable[key := (if key in byTable then byTable[key] else []) + [ToEntry(rows[i])]];
    }
    assert rows[..|rows|] == rows;
  }

  lemma NothingGrouped(rows: seq<ColumnRow>)
    ensures Groups(map[], rows[..0])
  {}

  /**
   The tables of the payload: the allowed catalog tables in order, each with exactly the catalog's columns of
   its schema and name, in order, whether filtered before or after grouping.
   */
  method BuildTables(tableRows: seq<TableRow>, columnRows: seq<ColumnRow>, included: seq<string>, excluded: seq<string>)
    returns (tables: seq<TableEntry>)
    ensures var allowed := AllowedTables(tableRows, included, excluded);
            tables == Payload(allowed, columnRows)
  {
    hide IsAllowedSchema, EntriesOf, IsTechnicalSchema;
    var allowed, columns := AllowedTables(tableRows, included, excluded),
        AllowedColumns(columnRows, included, excluded);
    var byTable := GroupColumns(columns);
    tables := [];
    for i := 0 to |allowed|
      invariant |tables| == i
      invariant forall j :: 0 <= j < i ==> tables[j] == EntryFor(allowed[j], columnRows)
    {
      var t := allowed[i];
      var key := KeyOf(t);
      assert t in allowed;
      FilterBeforeGroup(columnRows, key, included, excluded);
      tables := tables + [TableEntry(t.schema, t.name, MapRelkind(t.relkind), t.comment,
                                     if key in byTable then byTable[key] else [])];
    }
  }

  /** A column of a payload, with the schema and name of the table that lists it. */
  type Listing = (TableKey, ColumnEntry)

  function Labelled(key: TableKey, es: seq<ColumnEntry>): (ls: seq<Listing>)
    ensures |ls| == |es| && forall i :: 0 <= i < |ls| ==> ls[i] == (key, es[i])
  {
    seq(|es|, i requires 0 <= i < |es| => (key, es[i]))
  }

  /** All columns the tables of a payload list. */
  function Listed(entries: seq<TableEntry>): seq<Listing> {
    if entries == [] then [] else
    var k := |entries| - 1;
    Listed(entries[..k]) + Labelled((entries[k].schema, entries[k].name), entries[k].columns)
  }

  /** How a column of the catalog appears in a payload. */
  function AsListed(c: ColumnRow): Listing {
    (ColumnKey(c), ToEntry(c))
  }

  function AllAsListed(cs: seq<ColumnRow>): (ls: seq<Listing>)
    ensures |ls| == |cs| && forall i :: 0 <= i < |ls| ==> ls[i] == AsListed(cs[i])
  {
    seq(|cs|, i requires 0 <= i < |cs| => AsListed(cs[i]))
  }

  predicate DistinctKeys(tables: seq<TableRow>) {
    forall i, j :: 0 <= i < j < |tables| ==> KeyOf(tables[i]) != KeyOf(tables[j])
  }

  predicate HasTable(c: ColumnRow, tables: seq<TableRow>) {
    exists t :: t in tables && KeyOf(t) == ColumnKey(c)
  }

  lemma PayloadStep(front: seq<TableRow>, last: TableRow, columns: seq<ColumnRow>)
    ensures Listed(Payload(front + [last], columns))
         == Listed(Payload(front, columns)) + Labelled(KeyOf(last), EntriesOf(columns, KeyOf(last)))
  {
    hide EntriesOf, MapRelkind;
    assert Payload(front + [last], columns)[..|front|] == Payload(front, columns);
  }

  lemma HasTableStep(front: seq<TableRow>, last: TableRow, c: ColumnRow)
    requires DistinctKeys(front + [last])
    ensures HasTable(c, front + [last]) <==> HasTable(c, front) || KeyOf(last) == ColumnKey(c)
    ensures KeyOf(last) == ColumnKey(c) ==> !HasTable(c, front)
  {
    var tables := front + [last];
    assert last in tables;
    assert forall t :: t in front ==> t in tables;
    if HasTable(c, front) {
      var t :| t in front && KeyOf(t) == ColumnKey(c);
      var i :| 0 <= i < |front| && front[i] == t;
      assert tables[i] == t && tables[|front|] == last;
    }
  }

  lemma LabelledStep(key: TableKey, es: seq<ColumnEntry>, e: ColumnEntry)
    ensures Labelled(key, es + [e]) == Labelled(key, es) + [(key, e)]
  {}

  lemma {:induction false} OneMoreColumn(tables: seq<TableRow>, columns: seq<ColumnRow>, c: ColumnRow)
    requires DistinctKeys(tables)
    ensures multiset(Listed(Payload(tables, columns + [c])))
         == multiset(Listed(Payload(tables, columns))) + if HasTable(c, tables) then multiset{AsListed(c)}
            else multiset{}
  {
    hide EntriesOf, Listed, Payload, Labelled, HasTable, ToEntry;
    if tables == [] {
      NothingListed(columns);
      NothingListed(columns + [c]);
      NoTableAtAll(c);
    } else {
      var k := |tables| - 1;
      var front, last := tables[..k], tables[k];
      assert tables == front + [last];
      OneMoreColumn(front, columns, c);
      HasTableStep(front, last, c);
      PayloadStep(front, last, columns);
      PayloadStep(front, last, columns + [c]);
      EntriesStep(columns, c, KeyOf(last));
      LabelledStep(KeyOf(last), EntriesOf(columns, KeyOf(last)), ToEntry(c));
    }
  }

  lemma NothingListed(columns: seq<ColumnRow>)
    ensures Listed(Payload([], columns)) == []
  {}

  lemma NoTableAtAll(c: ColumnRow)
    ensures !HasTable(c, [])
  {}

  /** The columns that have a table. */
  function WithTable(tables: seq<TableRow>, columns: seq<ColumnRow>): seq<ColumnRow> {
    Filter(columns, c => HasTable(c, tables))
  }

  lemma WithTableStep(tables: seq<TableRow>, columns: seq<ColumnRow>, c: ColumnRow)
    ensures WithTable(tables, columns + [c])
         == WithTable(tables, columns) + if HasTable(c, tables) then [c] else []
  {
    hide HasTable;
    assert (columns + [c])[..|columns|] == columns;
  }

  lemma AsListedStep(cs: seq<ColumnRow>, c: ColumnRow)
    ensures AllAsListed(cs + [c]) == AllAsListed(cs) + [AsListed(c)]
  {
    hide AsListed;
  }

  /**
   With one table per key, the payload lists exactly the columns that have a table, each once, under its own table,
   and all columns exactly when none is an orphan.
   */
  lemma {:induction false} ColumnsArePartitioned(tables: seq<TableRow>, columns: seq<ColumnRow>)
    requires DistinctKeys(tables)
    ensures multiset(Listed(Payload(tables, columns))) == multiset(AllAsListed(WithTable(tables, columns)))
    ensures |Listed(Payload(tables, columns))| == |columns| <==> forall c :: c in columns ==> HasTable(c, tables)
  {
    ListedOnce(tables, columns);
    var with := WithTable(tables, columns);
    assert |Listed(Payload(tables, columns))| == |multiset(Listed(Payload(tables, columns)))|
        == |multiset(AllAsListed(with))| == |with|;
    FilterAll(columns, c => HasTable(c, tables));
  }

  lemma {:induction false} ListedOnce(tables: seq<TableRow>, columns: seq<ColumnRow>)
    requires DistinctKeys(tables)
    ensures multiset(Listed(Payload(tables, columns))) == multiset(AllAsListed(WithTable(tables, columns)))
  {
    hide HasTable, DistinctKeys, Listed, Payload, AllAsListed, AsListed;
    if columns == [] {
      NoColumns(tables);
      NoneAsListed();
    } else {
      var k := |columns| - 1;
      assert columns == columns[..k] + [columns[k]];
      ListedOnce(tables, columns[..k]);
      OneMoreColumn(tables, columns[..k], columns[k]);
      WithTableStep(tables, columns[..k], columns[k]);
      var front := WithTable(tables, columns[..k]);
      AsListedStep(front, columns[k]);
      assert front + [] == front;
    }
  }

  lemma NoneAsListed()
    ensures AllAsListed([]) == []
  {}

  lemma {:induction false} NoColumns(tables: seq<TableRow>)
    ensures Listed(Payload(tables, [])) == []
  {
    if tables == [] {
      NothingListed([]);
    } else {
      var k := |tables| - 1;
      NoColumns(tables[..k]);
      assert tables == tables[..k] + [tables[k]];
      PayloadStep(tables[..k], tables[k], []);
    }
  }
}
