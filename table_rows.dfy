/** What the table listing and the column listing contain: the header of
    each, the row each listed object contributes, the enumeration over
    schemas and schema objects, and the final sort, with the properties the
    metadata contract promises about them. */
module TableRows {
  import opened Values
  import opened Sorting
  import opened Catalog
  import opened SimpleResults
  import opened MetaHelpers
  import opened TableTypes

  // ---------------------------------------------------------------------
  // The table listing

  const TABLES_HEADER: seq<ResultColumn> := [
    ResultColumn("TABLE_CAT", Varchar),
    ResultColumn("TABLE_SCHEM", Varchar),
    ResultColumn("TABLE_NAME", Varchar),
    ResultColumn("TABLE_TYPE", Varchar),
    ResultColumn("REMARKS", Varchar),
    ResultColumn("TYPE_CAT", Varchar),
    ResultColumn("TYPE_SCHEM", Varchar),
    ResultColumn("TYPE_NAME", Varchar),
    ResultColumn("SELF_REFERENCING_COL_NAME", Varchar),
    ResultColumn("REF_GENERATION", Varchar)]

  /** TABLE_TYPE, TABLE_CAT, TABLE_SCHEM, TABLE_NAME. */
  const TABLES_ORDER: seq<nat> := [3, 0, 1, 2]

  /** One row of the table listing, before it is laid out as cells. */
  datatype TableEntry = TableEntry(catalogValue: Value, schemaValue: Value, tableName: Value, tableType: string,
                                   remarks: Option<string>)

  /** The cells of a row of the table listing; the type columns of the
      metadata contract are always NULL. */
  function TableRow(e: TableEntry): (r: Row)
    ensures |r| == |TABLES_HEADER|
    ensures r[2] == e.tableName && r[3] == Str(e.tableType)
    ensures forall k :: 5 <= k < |r| ==> r[k] == Null
  {
    // TABLE_CAT, TABLE_SCHEM, TABLE_NAME, TABLE_TYPE, REMARKS
    [e.catalogValue, e.schemaValue, e.tableName, Str(e.tableType), GetString(e.remarks)]
    // TYPE_CAT, TYPE_SCHEM, TYPE_NAME, SELF_REFERENCING_COL_NAME, REF_GENERATION
    + [Null, Null, Null, Null, Null]
  }

  /** What one table (or the target of one synonym) adds to the table
      listing: nothing when a type filter is given that leaves out its type. */
  function TablesAddEntries(catalogValue: Value, schemaValue: Value, tableName: Value, t: Table, synonym: bool,
                            typesSet: Option<set<string>>): seq<TableEntry>
  {
    var tableType := if synonym then "SYNONYM" else SqlTableType(t.kind);
    if typesSet.Some? && tableType !in typesSet.value then []
    else [TableEntry(catalogValue, schemaValue, tableName, tableType, t.comment)]
  }

  /** What one schema object adds: hidden tables are skipped, synonyms are
      reported under their own name with their target's remarks. */
  function ObjectTablesEntries(catalogValue: Value, schemaValue: Value, typesSet: Option<set<string>>)
    : SchemaObject -> seq<TableEntry>
  {
    (o: SchemaObject) =>
      match o
      case TableObject(t) =>
        if t.hidden then [] else TablesAddEntries(catalogValue, schemaValue, Str(t.id.name), t, false, typesSet)
      case SynonymObject(y) =>
        TablesAddEntries(catalogValue, schemaValue, Str(y.name), y.synonymFor, true, typesSet)
  }

  function SchemaTablesEntries(db: Database, catalogValue: Value, tablePattern: Option<string>,
                               typesSet: Option<set<string>>): Schema -> seq<TableEntry>
  {
    (s: Schema) => FlatMap(ObjectsForPattern(db, s, tablePattern), ObjectTablesEntries(catalogValue, Str(s.name), typesSet))
  }

  /** The type filter a types argument asks for: none for null. */
  function TypesFilter(types: Option<seq<string>>): Option<set<string>> {
    if types.None? then None else Some(RequestedTypes(types.value))
  }

  /** The table listing in enumeration order, before the sort. */
  function TablesUnsorted(db: Database, schemaPattern: Option<string>, tablePattern: Option<string>,
                          typesSet: Option<set<string>>): seq<TableEntry>
  {
    FlatMap(SchemasForPattern(db, schemaPattern), SchemaTablesEntries(db, Str(db.shortName), tablePattern, typesSet))
  }

  /** The rows of the table listing: nothing for a foreign catalog or a type
      list that names no known type, otherwise the rows of the enumeration
      sorted on TABLES_ORDER. */
  function Tables(db: Database, catalog: Option<string>, schemaPattern: Option<string>,
                  tablePattern: Option<string>, types: Option<seq<string>>): seq<Row>
  {
    if !CheckCatalogName(db, catalog) then []
    else
      var typesSet := TypesFilter(types);
      if typesSet == Some({}) then []
      else SortBy(Map(TablesUnsorted(db, schemaPattern, tablePattern, typesSet), TableRow), RowOrder(db.collation, TABLES_ORDER))
  }

  /** The type a schema object is listed with. */
  function ObjectType(o: SchemaObject): string {
    match o
    case TableObject(t) => SqlTableType(t.kind)
    case SynonymObject(_) => "SYNONYM"
  }

  /** The remarks a schema object is listed with: a synonym's are its target's. */
  function ObjectComment(o: SchemaObject): Option<string> {
    match o
    case TableObject(t) => t.comment
    case SynonymObject(y) => y.synonymFor.comment
  }

  /** Whether the table listing reports a schema object under a type filter:
      a table must not be hidden, and a filter must contain its type. */
  predicate Listed(o: SchemaObject, typesSet: Option<set<string>>) {
    && (o.TableObject? ==> !o.table.hidden)
    && (typesSet.Some? ==> ObjectType(o) in typesSet.value)
  }

  /** The table listing's entry for a schema object of a schema. */
  function ObjectEntry(db: Database, s: Schema, o: SchemaObject): TableEntry {
    TableEntry(Str(db.shortName), Str(s.name), Str(ObjectName(o)), ObjectType(o), ObjectComment(o))
  }

  /** A schema object contributes its one entry exactly when it is listed. */
  lemma ObjectTablesEntriesListed(db: Database, s: Schema, typesSet: Option<set<string>>, o: SchemaObject)
    ensures ObjectTablesEntries(Str(db.shortName), Str(s.name), typesSet)(o) ==
      if Listed(o, typesSet) then [ObjectEntry(db, s, o)] else []
  {
  }

  lemma ObjectTablesEntriesOrigin(db: Database, s: Schema, typesSet: Option<set<string>>, o: SchemaObject,
                                  e: TableEntry)
    requires e in ObjectTablesEntries(Str(db.shortName), Str(s.name), typesSet)(o)
    ensures Listed(o, typesSet) && e == ObjectEntry(db, s, o)
  {
    ObjectTablesEntriesListed(db, s, typesSet, o);
  }

  /** Every enumerated entry is the entry of a listed object of a selected
      schema whose name passes the table pattern. */
  lemma TablesUnsortedOrigin(db: Database, schemaPattern: Option<string>, tablePattern: Option<string>,
                             typesSet: Option<set<string>>, e: TableEntry)
    requires e in TablesUnsorted(db, schemaPattern, tablePattern, typesSet)
    ensures exists s, o ::
      (s in SchemasForPattern(db, schemaPattern) && o in ObjectsForPattern(db, s, tablePattern)
       && Listed(o, typesSet) && e == ObjectEntry(db, s, o))
  {
    var schemas := SchemasForPattern(db, schemaPattern);
    var f := SchemaTablesEntries(db, Str(db.shortName), tablePattern, typesSet);
    FlatMapMember(schemas, f, e);
    var i :| 0 <= i < |schemas| && e in f(schemas[i]);
    var s := schemas[i];
    var objects := ObjectsForPattern(db, s, tablePattern);
    var g := ObjectTablesEntries(Str(db.shortName), Str(s.name), typesSet);
    FlatMapMember(objects, g, e);
    var j :| 0 <= j < |objects| && e in g(objects[j]);
    var o := objects[j];
    ObjectTablesEntriesOrigin(db, s, typesSet, o, e);
    assert s in schemas && o in objects;
  }

  /** Every listed object of a selected schema whose name passes the table
      pattern has its entry enumerated. */
  lemma TablesUnsortedComplete(db: Database, schemaPattern: Option<string>, tablePattern: Option<string>,
                               typesSet: Option<set<string>>, s: Schema, o: SchemaObject)
    requires s in SchemasForPattern(db, schemaPattern) && o in ObjectsForPattern(db, s, tablePattern)
    requires Listed(o, typesSet)
    ensures ObjectEntry(db, s, o) in TablesUnsorted(db, schemaPattern, tablePattern, typesSet)
  {
    var schemas := SchemasForPattern(db, schemaPattern);
    var f := SchemaTablesEntries(db, Str(db.shortName), tablePattern, typesSet);
    var objects := ObjectsForPattern(db, s, tablePattern);
    var g := ObjectTablesEntries(Str(db.shortName), Str(s.name), typesSet);
    var e := ObjectEntry(db, s, o);
    ObjectTablesEntriesListed(db, s, typesSet, o);
    var j :| 0 <= j < |objects| && objects[j] == o;
    FlatMapContains(objects, g, j, e);
    var i :| 0 <= i < |schemas| && schemas[i] == s;
    FlatMapContains(schemas, f, i, e);
  }

  /** Every row of the table listing is the row of a listed object of a
      selected schema whose name passes the table pattern, and there are
      rows only when the catalog passes and the type list, if any, names a
      known type. */
  lemma TablesOrigin(db: Database, catalog: Option<string>, schemaPattern: Option<string>,
                     tablePattern: Option<string>, types: Option<seq<string>>, r: Row)
    requires r in Tables(db, catalog, schemaPattern, tablePattern, types)
    ensures CheckCatalogName(db, catalog) && TypesFilter(types) != Some({})
    ensures exists s, o ::
      (s in SchemasForPattern(db, schemaPattern) && o in ObjectsForPattern(db, s, tablePattern)
       && Listed(o, TypesFilter(types)) && r == TableRow(ObjectEntry(db, s, o)))
  {
    var typesSet := TypesFilter(types);
    var entries := TablesUnsorted(db, schemaPattern, tablePattern, typesSet);
    SortByMembers(Map(entries, TableRow), RowOrder(db.collation, TABLES_ORDER), r);
    MapMember(entries, TableRow, r);
    var i :| 0 <= i < |entries| && r == TableRow(entries[i]);
    var e := entries[i];
    TablesUnsortedOrigin(db, schemaPattern, tablePattern, typesSet, e);
    var s, o :| s in SchemasForPattern(db, schemaPattern) && o in ObjectsForPattern(db, s, tablePattern)
      && Listed(o, typesSet) && e == ObjectEntry(db, s, o);
    assert r == TableRow(ObjectEntry(db, s, o));
  }

  /** Conversely, when the catalog passes, every listed object of a selected
      schema whose name passes the table pattern has its row in the table
      listing. */
  lemma TablesComplete(db: Database, catalog: Option<string>, schemaPattern: Option<string>,
                       tablePattern: Option<string>, types: Option<seq<string>>, s: Schema, o: SchemaObject)
    requires CheckCatalogName(db, catalog)
    requires s in SchemasForPattern(db, schemaPattern) && o in ObjectsForPattern(db, s, tablePattern)
    requires Listed(o, TypesFilter(types))
    ensures TableRow(ObjectEntry(db, s, o)) in Tables(db, catalog, schemaPattern, tablePattern, types)
  {
    var typesSet := TypesFilter(types);
    assert typesSet != Some({});
    var entries := TablesUnsorted(db, schemaPattern, tablePattern, typesSet);
    TablesUnsortedComplete(db, schemaPattern, tablePattern, typesSet, s, o);
    var i :| 0 <= i < |entries| && entries[i] == ObjectEntry(db, s, o);
    var r := TableRow(entries[i]);
    MapMember(entries, TableRow, r);
    SortByMembers(Map(entries, TableRow), RowOrder(db.collation, TABLES_ORDER), r);
  }

  /** The table listing is in ascending order of type, catalog, schema and
      name, as the database collation orders names, and it is a permutation
      of the enumeration in which equal keys keep their enumeration order. */
  lemma TablesSorted(db: Database, catalog: Option<string>, schemaPattern: Option<string>,
                     tablePattern: Option<string>, types: Option<seq<string>>)
    requires TotalPreorder(db.collation)
    ensures Sorted(Tables(db, catalog, schemaPattern, tablePattern, types), RowOrder(db.collation, TABLES_ORDER))
    ensures CheckCatalogName(db, catalog) && TypesFilter(types) != Some({}) ==>
      multiset(Tables(db, catalog, schemaPattern, tablePattern, types))
      == multiset(Map(TablesUnsorted(db, schemaPattern, tablePattern, TypesFilter(types)), TableRow))
    ensures CheckCatalogName(db, catalog) && TypesFilter(types) != Some({}) ==>
      forall k :: Equivalents(Tables(db, catalog, schemaPattern, tablePattern, types), RowOrder(db.collation, TABLES_ORDER), k)
                  == Equivalents(Map(TablesUnsorted(db, schemaPattern, tablePattern, TypesFilter(types)), TableRow),
                                 RowOrder(db.collation, TABLES_ORDER), k)
  {
    RowOrderIsTotalPreorder(db.collation, TABLES_ORDER);
    if CheckCatalogName(db, catalog) && TypesFilter(types) != Some({}) {
      var rows := Map(TablesUnsorted(db, schemaPattern, tablePattern, TypesFilter(types)), TableRow);
      SortBySorted(rows, RowOrder(db.collation, TABLES_ORDER));
      forall k {
        SortByStable(rows, RowOrder(db.collation, TABLES_ORDER), k);
      }
    }
  }

  /** Asking for type TABLE lists what asking for type BASE TABLE lists. */
  lemma TablesTypeAlias(db: Database, catalog: Option<string>, schemaPattern: Option<string>,
                        tablePattern: Option<string>)
    ensures Tables(db, catalog, schemaPattern, tablePattern, Some(["TABLE"])) ==
            Tables(db, catalog, schemaPattern, tablePattern, Some(["BASE TABLE"]))
  {
    TableIsBaseTable();
  }

  /** The type of every row of the table listing is one the type listing
      reports. */
  lemma TablesTypesAreListed(db: Database, catalog: Option<string>, schemaPattern: Option<string>,
                             tablePattern: Option<string>, types: Option<seq<string>>, r: Row)
    requires r in Tables(db, catalog, schemaPattern, tablePattern, types)
    ensures |r| == |TABLES_HEADER| && r[3].Str? && r[3].s in TABLE_TYPES
  {
    TablesOrigin(db, catalog, schemaPattern, tablePattern, types, r);
    var s, o :| s in SchemasForPattern(db, schemaPattern) && o in ObjectsForPattern(db, s, tablePattern)
      && Listed(o, TypesFilter(types)) && r == TableRow(ObjectEntry(db, s, o));
    ObjectTypeIsKnown(o);
    assert r[3] == Str(ObjectEntry(db, s, o).tableType);
  }

  /** Every type a schema object is listed with is a known table type. */
  lemma ObjectTypeIsKnown(o: SchemaObject)
    ensures ObjectType(o) in TABLE_TYPES
  {
    assert TABLE_TYPES[0] == "BASE TABLE" && TABLE_TYPES[1] == "GLOBAL TEMPORARY";
    assert TABLE_TYPES[2] == "LOCAL TEMPORARY" && TABLE_TYPES[3] == "SYNONYM" && TABLE_TYPES[4] == "VIEW";
  }

  // ---------------------------------------------------------------------
  // The table type listing and the catalog listing

  const TABLE_TYPES_HEADER: seq<ResultColumn> := [ResultColumn("TABLE_TYPE", Varchar)]

  /** One row per table type, in the order of the sorted type list. */
  function TableTypeRows(): (r: seq<Row>)
    ensures |r| == |TABLE_TYPES|
    ensures forall i :: 0 <= i < |r| ==> r[i] == [Str(TABLE_TYPES[i])]
    ensures forall i, j :: 0 <= i < j < |r| ==> CompareStrings(r[i][0].s, r[j][0].s) < 0
  {
    TableTypesSorted();
    seq(|TABLE_TYPES|, i requires 0 <= i < |TABLE_TYPES| => [Str(TABLE_TYPES[i])])
  }
}
