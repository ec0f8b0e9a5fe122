/** What the column listing contains: its header, the row each column of an
    enumerated table contributes, the enumeration over schemas, schema
    objects and columns, and the final sort, with the properties the
    metadata contract promises about them. */
module ColumnRows {
  import opened Values
  import opened Sorting
  import opened Catalog
  import opened SimpleResults
  import opened MetaHelpers
  import opened TableRows

  const COLUMNS_HEADER: seq<ResultColumn> := [
    ResultColumn("TABLE_CAT", Varchar),
    ResultColumn("TABLE_SCHEM", Varchar),
    ResultColumn("TABLE_NAME", Varchar),
    ResultColumn("COLUMN_NAME", Varchar),
    ResultColumn("DATA_TYPE", Integer),
    ResultColumn("TYPE_NAME", Varchar),
    ResultColumn("COLUMN_SIZE", Integer),
    ResultColumn("BUFFER_LENGTH", Integer),
    ResultColumn("DECIMAL_DIGITS", Integer),
    ResultColumn("NUM_PREC_RADIX", Integer),
    ResultColumn("NULLABLE", Integer),
    ResultColumn("REMARKS", Varchar),
    ResultColumn("COLUMN_DEF", Varchar),
    ResultColumn("SQL_DATA_TYPE", Integer),
    ResultColumn("SQL_DATETIME_SUB", Integer),
    ResultColumn("CHAR_OCTET_LENGTH", Integer),
    ResultColumn("ORDINAL_POSITION", Integer),
    ResultColumn("IS_NULLABLE", Varchar),
    ResultColumn("SCOPE_CATALOG", Varchar),
    ResultColumn("SCOPE_SCHEMA", Varchar),
    ResultColumn("SCOPE_TABLE", Varchar),
    ResultColumn("SOURCE_DATA_TYPE", Smallint),
    ResultColumn("IS_AUTOINCREMENT", Varchar),
    ResultColumn("IS_GENERATEDCOLUMN", Varchar)]

  /** TABLE_CAT, TABLE_SCHEM, TABLE_NAME, ORDINAL_POSITION. */
  const COLUMNS_ORDER: seq<nat> := [0, 1, 2, 16]

  /** The NULLABLE codes of the metadata contract. */
  const COLUMN_NO_NULLS := 0
  const COLUMN_NULLABLE := 1

  /** One row of the column listing before it is laid out as cells: the
      column at (0-based) `position` of the table listed as `tableName`. */
  datatype ColumnEntry = ColumnEntry(catalogValue: Value, schemaValue: Value, tableName: Value, column: Column,
                                     position: nat)

  /** The cells of a row of the column listing. */
  function ColumnRow(e: ColumnEntry): (r: Row)
    ensures |r| == |COLUMNS_HEADER|
    ensures r[0] == e.catalogValue && r[1] == e.schemaValue && r[2] == e.tableName
    ensures r[3] == Str(e.column.name) && r[16] == Int(e.position + 1)
    ensures r[10] == Int(COLUMN_NULLABLE) <==> r[17] == Str("YES")
    ensures r[10] == Int(COLUMN_NO_NULLS) <==> r[17] == Str("NO")
    ensures r[10] == Int(if e.column.nullable then COLUMN_NULLABLE else COLUMN_NO_NULLS)
    ensures r[17] == YesNo(e.column.nullable)
    ensures r[12] == if e.column.generated then Null else GetString(e.column.defaultSQL)
    ensures r[22] == YesNo(e.column.autoIncrement) && r[23] == YesNo(e.column.generated)
    ensures r[23] == Str("YES") ==> r[12] == Null
    ensures r[6] == r[15] && r[6].Int? && INT_MIN <= r[6].i <= INT_MAX
  {
    var c := e.column;
    var ty := c.colType;
    var precision := Int(ConvertLongToInt(ty.precision));
    // TABLE_CAT, TABLE_SCHEM, TABLE_NAME, COLUMN_NAME
    [e.catalogValue, e.schemaValue, e.tableName, Str(c.name)]
    // DATA_TYPE, TYPE_NAME, COLUMN_SIZE, BUFFER_LENGTH, DECIMAL_DIGITS
    + [Int(ty.sqlType), Str(ty.typeName), precision, Null, Int(ty.scale)]
    // NUM_PREC_RADIX, NULLABLE, REMARKS
    + [if ty.numeric then Int(10) else Null,
       if c.nullable then Int(COLUMN_NULLABLE) else Int(COLUMN_NO_NULLS),
       GetString(c.comment)]
    // COLUMN_DEF, SQL_DATA_TYPE, SQL_DATETIME_SUB, CHAR_OCTET_LENGTH
    + [if c.generated then Null else GetString(c.defaultSQL), Null, Null, precision]
    // ORDINAL_POSITION, IS_NULLABLE
    + [Int(e.position + 1), YesNo(c.nullable)]
    // SCOPE_CATALOG, SCOPE_SCHEMA, SCOPE_TABLE, SOURCE_DATA_TYPE
    + [Null, Null, Null, Null]
    // IS_AUTOINCREMENT, IS_GENERATEDCOLUMN
    + [YesNo(c.autoIncrement), YesNo(c.generated)]
  }

  /** The entries of the columns of `columns` whose names pass the column
      pattern, in column order; positions count from the start of `columns`. */
  function ColumnsAddEntries(db: Database, catalogValue: Value, schemaValue: Value, tableName: Value,
                             columns: seq<Column>, columnPattern: Option<string>): seq<ColumnEntry>
    decreases |columns|
  {
    if columns == [] then []
    else
      var n := |columns| - 1;
      ColumnsAddEntries(db, catalogValue, schemaValue, tableName, columns[..n], columnPattern)
      + (if NameMatches(db, columnPattern, columns[n].name)
         then [ColumnEntry(catalogValue, schemaValue, tableName, columns[n], n)] else [])
  }

  /** The rows of the first i + 1 columns extend those of the first i by
      the i-th column's row when its name passes the pattern. */
  lemma ColumnsAddEntriesSnoc(db: Database, catalogValue: Value, schemaValue: Value, tableName: Value,
                              columns: seq<Column>, columnPattern: Option<string>, i: nat)
    requires i < |columns|
    ensures Map(ColumnsAddEntries(db, catalogValue, schemaValue, tableName, columns[..i + 1], columnPattern), ColumnRow)
         == Map(ColumnsAddEntries(db, catalogValue, schemaValue, tableName, columns[..i], columnPattern), ColumnRow)
            + (if NameMatches(db, columnPattern, columns[i].name)
               then [ColumnRow(ColumnEntry(catalogValue, schemaValue, tableName, columns[i], i))] else [])
  {
    assert columns[..i + 1][..i] == columns[..i] && columns[..i + 1][i] == columns[i];
    var done := ColumnsAddEntries(db, catalogValue, schemaValue, tableName, columns[..i], columnPattern);
    if NameMatches(db, columnPattern, columns[i].name) {
      MapAppend(done, [ColumnEntry(catalogValue, schemaValue, tableName, columns[i], i)], ColumnRow);
    } else {
      assert done + [] == done;
    }
  }

  /** The table whose columns a schema object lists: a synonym's target. */
  function ObjectTable(o: SchemaObject): Table {
    match o
    case TableObject(t) => t
    case SynonymObject(y) => y.synonymFor
  }

  /** What one schema object adds: nothing for a hidden table, the columns of
      the target, under the synonym's own name, for a synonym. */
  function ObjectColumnsEntries(db: Database, catalogValue: Value, schemaValue: Value, columnPattern: Option<string>)
    : SchemaObject -> seq<ColumnEntry>
  {
    (o: SchemaObject) =>
      match o
      case TableObject(t) =>
        if t.hidden then [] else ColumnsAddEntries(db, catalogValue, schemaValue, Str(t.id.name), t.columns, columnPattern)
      case SynonymObject(y) =>
        ColumnsAddEntries(db, catalogValue, schemaValue, Str(y.name), y.synonymFor.columns, columnPattern)
  }

  function SchemaColumnsEntries(db: Database, catalogValue: Value, tablePattern: Option<string>,
                                columnPattern: Option<string>): Schema -> seq<ColumnEntry>
  {
    (s: Schema) => FlatMap(ObjectsForPattern(db, s, tablePattern), ObjectColumnsEntries(db, catalogValue, Str(s.name), columnPattern))
  }

  /** The column listing in enumeration order, before the sort. */
  function ColumnsUnsorted(db: Database, schemaPattern: Option<string>, tablePattern: Option<string>,
                           columnPattern: Option<string>): seq<ColumnEntry>
  {
    FlatMap(SchemasForPattern(db, schemaPattern), SchemaColumnsEntries(db, Str(db.shortName), tablePattern, columnPattern))
  }

  /** The rows of the column listing: nothing for a foreign catalog,
      otherwise the rows of the enumeration sorted on COLUMNS_ORDER. */
  function Columns(db: Database, catalog: Option<string>, schemaPattern: Option<string>,
                   tablePattern: Option<string>, columnPattern: Option<string>): seq<Row>
  {
    if !CheckCatalogName(db, catalog) then []
    else SortBy(Map(ColumnsUnsorted(db, schemaPattern, tablePattern, columnPattern), ColumnRow),
                RowOrder(db.collation, COLUMNS_ORDER))
  }

  // ---------------------------------------------------------------------
  // One table's columns

  /** Without a column pattern a table contributes one entry per column, the
      i-th column at position i. */
  lemma {:induction false} ColumnsAddEntriesAll(db: Database, catalogValue: Value, schemaValue: Value, tableName: Value,
                                                columns: seq<Column>)
    ensures |ColumnsAddEntries(db, catalogValue, schemaValue, tableName, columns, None)| == |columns|
    ensures forall i :: 0 <= i < |columns| ==>
      ColumnsAddEntries(db, catalogValue, schemaValue, tableName, columns, None)[i]
      == ColumnEntry(catalogValue, schemaValue, tableName, columns[i], i)
    decreases |columns|
  {
    if columns != [] {
      var n := |columns| - 1;
      ColumnsAddEntriesAll(db, catalogValue, schemaValue, tableName, columns[..n]);
      var prev := ColumnsAddEntries(db, catalogValue, schemaValue, tableName, columns[..n], None);
      var entries := ColumnsAddEntries(db, catalogValue, schemaValue, tableName, columns, None);
      forall i | 0 <= i < |columns| ensures entries[i] == ColumnEntry(catalogValue, schemaValue, tableName, columns[i], i) {
        if i < n {
          assert entries[i] == prev[i] && columns[..n][i] == columns[i];
        }
      }
    }
  }

  /** A column pattern keeps exactly the columns whose names pass it, each
      at its own position in the table. */
  lemma {:induction false} ColumnsAddEntriesMembers(db: Database, catalogValue: Value, schemaValue: Value,
                                                    tableName: Value, columns: seq<Column>,
                                                    columnPattern: Option<string>, e: ColumnEntry)
    ensures e in ColumnsAddEntries(db, catalogValue, schemaValue, tableName, columns, columnPattern) <==>
      && e.catalogValue == catalogValue && e.schemaValue == schemaValue && e.tableName == tableName
      && e.position < |columns| && e.column == columns[e.position]
      && NameMatches(db, columnPattern, e.column.name)
    decreases |columns|
  {
    if columns != [] {
      var n := |columns| - 1;
      ColumnsAddEntriesMembers(db, catalogValue, schemaValue, tableName, columns[..n], columnPattern, e);
      if e.position < n {
        assert columns[..n][e.position] == columns[e.position];
      }
    }
  }

  /** The positions of a table's entries lie within the table and strictly
      increase. */
  lemma {:induction false} ColumnsAddEntriesIncreasing(db: Database, catalogValue: Value, schemaValue: Value,
                                                       tableName: Value, columns: seq<Column>,
                                                       columnPattern: Option<string>, k: nat, l: nat)
    requires l < |ColumnsAddEntries(db, catalogValue, schemaValue, tableName, columns, columnPattern)|
    requires k < l
    ensures ColumnsAddEntries(db, catalogValue, schemaValue, tableName, columns, columnPattern)[k].position
          < ColumnsAddEntries(db, catalogValue, schemaValue, tableName, columns, columnPattern)[l].position
          < |columns|
    decreases |columns|
  {
    var n := |columns| - 1;
    var prev := ColumnsAddEntries(db, catalogValue, schemaValue, tableName, columns[..n], columnPattern);
    var entries := ColumnsAddEntries(db, catalogValue, schemaValue, tableName, columns, columnPattern);
    assert entries[k] == prev[k];
    if l < |prev| {
      assert entries[l] == prev[l];
      ColumnsAddEntriesIncreasing(db, catalogValue, schemaValue, tableName, columns[..n], columnPattern, k, l);
    } else {
      assert entries[l].position == n;
      ColumnsAddEntriesMembers(db, catalogValue, schemaValue, tableName, columns[..n], columnPattern, prev[k]);
    }
  }

  /** The rows of one table's columns are already in the column listing's
      order, so the sort keeps them in column order. */
  lemma ColumnsAddRowsInOrder(db: Database, catalogValue: Value, schemaValue: Value, tableName: Value,
                              columns: seq<Column>, columnPattern: Option<string>)
    requires TotalPreorder(db.collation)
    ensures var rows := Map(ColumnsAddEntries(db, catalogValue, schemaValue, tableName, columns, columnPattern), ColumnRow);
      SortBy(rows, RowOrder(db.collation, COLUMNS_ORDER)) == rows
  {
    var entries := ColumnsAddEntries(db, catalogValue, schemaValue, tableName, columns, columnPattern);
    var rows := Map(entries, ColumnRow);
    var cmp := RowOrder(db.collation, COLUMNS_ORDER);
    ValuesReflexive(db.collation, catalogValue);
    ValuesReflexive(db.collation, schemaValue);
    ValuesReflexive(db.collation, tableName);
    forall k, l | 0 <= k < l < |rows| ensures cmp(rows[k], rows[l]) <= 0 {
      ColumnsAddEntriesMembers(db, catalogValue, schemaValue, tableName, columns, columnPattern, entries[k]);
      ColumnsAddEntriesMembers(db, catalogValue, schemaValue, tableName, columns, columnPattern, entries[l]);
      ColumnsAddEntriesIncreasing(db, catalogValue, schemaValue, tableName, columns, columnPattern, k, l);
      RowsInPositionOrder(db.collation, entries[k], entries[l]);
    }
    RowOrderIsTotalPreorder(db.collation, COLUMNS_ORDER);
    SortBySortedIsIdentity(rows, cmp);
  }

  /** Two rows of the same table compare as their positions. */
  lemma RowsInPositionOrder(coll: (string, string) -> int, a: ColumnEntry, b: ColumnEntry)
    requires a.catalogValue == b.catalogValue && a.schemaValue == b.schemaValue && a.tableName == b.tableName
    requires CompareValues(coll, a.catalogValue, a.catalogValue) == 0
    requires CompareValues(coll, a.schemaValue, a.schemaValue) == 0
    requires CompareValues(coll, a.tableName, a.tableName) == 0
    requires a.position < b.position
    ensures RowOrder(coll, COLUMNS_ORDER)(ColumnRow(a), ColumnRow(b)) < 0
  {
    var x, y := ColumnRow(a), ColumnRow(b);
    assert CompareRows(coll, COLUMNS_ORDER[3..], x, y) < 0;
    assert CompareRows(coll, COLUMNS_ORDER[2..], x, y) < 0;
    assert CompareRows(coll, COLUMNS_ORDER[1..], x, y) < 0;
  }

  // ---------------------------------------------------------------------
  // The whole listing

  /** r is the entry of a column of o's table whose name passes the pattern,
      listed under o's name in schema s. */
  ghost predicate ColumnOf(db: Database, s: Schema, o: SchemaObject, columnPattern: Option<string>, e: ColumnEntry) {
    var columns := ObjectTable(o).columns;
    && e.catalogValue == Str(db.shortName) && e.schemaValue == Str(s.name) && e.tableName == Str(ObjectName(o))
    && e.position < |columns| && e.column == columns[e.position]
    && NameMatches(db, columnPattern, e.column.name)
  }

  /** Every enumerated entry is a column of an object the table listing
      would list without a type filter. */
  lemma ColumnsUnsortedOrigin(db: Database, schemaPattern: Option<string>, tablePattern: Option<string>,
                              columnPattern: Option<string>, e: ColumnEntry)
    requires e in ColumnsUnsorted(db, schemaPattern, tablePattern, columnPattern)
    ensures exists s, o ::
      (s in SchemasForPattern(db, schemaPattern) && o in ObjectsForPattern(db, s, tablePattern)
       && Listed(o, None) && ColumnOf(db, s, o, columnPattern, e))
  {
    var schemas := SchemasForPattern(db, schemaPattern);
    var f := SchemaColumnsEntries(db, Str(db.shortName), tablePattern, columnPattern);
    FlatMapMember(schemas, f, e);
    var i :| 0 <= i < |schemas| && e in f(schemas[i]);
    var s := schemas[i];
    var objects := ObjectsForPattern(db, s, tablePattern);
    var g := ObjectColumnsEntries(db, Str(db.shortName), Str(s.name), columnPattern);
    FlatMapMember(objects, g, e);
    var j :| 0 <= j < |objects| && e in g(objects[j]);
    var o := objects[j];
    assert Listed(o, None);
    ColumnsAddEntriesMembers(db, Str(db.shortName), Str(s.name), Str(ObjectName(o)), ObjectTable(o).columns,
                             columnPattern, e);
    assert ColumnOf(db, s, o, columnPattern, e);
    assert s in schemas && o in objects;
  }

  /** Every column whose name passes the pattern, of an object the table
      listing would list without a type filter, is enumerated. */
  lemma ColumnsUnsortedComplete(db: Database, schemaPattern: Option<string>, tablePattern: Option<string>,
                                columnPattern: Option<string>, s: Schema, o: SchemaObject, e: ColumnEntry)
    requires s in SchemasForPattern(db, schemaPattern) && o in ObjectsForPattern(db, s, tablePattern)
    requires Listed(o, None) && ColumnOf(db, s, o, columnPattern, e)
    ensures e in ColumnsUnsorted(db, schemaPattern, tablePattern, columnPattern)
  {
    var schemas := SchemasForPattern(db, schemaPattern);
    var f := SchemaColumnsEntries(db, Str(db.shortName), tablePattern, columnPattern);
    var objects := ObjectsForPattern(db, s, tablePattern);
    var g := ObjectColumnsEntries(db, Str(db.shortName), Str(s.name), columnPattern);
    ColumnsAddEntriesMembers(db, Str(db.shortName), Str(s.name), Str(ObjectName(o)), ObjectTable(o).columns,
                             columnPattern, e);
    assert e in g(o);
    var j :| 0 <= j < |objects| && objects[j] == o;
    FlatMapContains(objects, g, j, e);
    var i :| 0 <= i < |schemas| && schemas[i] == s;
    FlatMapContains(schemas, f, i, e);
  }

  /** Every row of the column listing is the row of a column, at its own
      position, of a table or synonym target that the table listing would
      enumerate, and the column's name passes the column pattern. */
  lemma ColumnsOrigin(db: Database, catalog: Option<string>, schemaPattern: Option<string>,
                      tablePattern: Option<string>, columnPattern: Option<string>, r: Row)
    requires r in Columns(db, catalog, schemaPattern, tablePattern, columnPattern)
    ensures CheckCatalogName(db, catalog)
    ensures exists s, o, e ::
      (s in SchemasForPattern(db, schemaPattern) && o in ObjectsForPattern(db, s, tablePattern)
       && Listed(o, None) && ColumnOf(db, s, o, columnPattern, e) && r == ColumnRow(e))
  {
    var entries := ColumnsUnsorted(db, schemaPattern, tablePattern, columnPattern);
    SortByMembers(Map(entries, ColumnRow), RowOrder(db.collation, COLUMNS_ORDER), r);
    MapMember(entries, ColumnRow, r);
    var i :| 0 <= i < |entries| && r == ColumnRow(entries[i]);
    var e := entries[i];
    ColumnsUnsortedOrigin(db, schemaPattern, tablePattern, columnPattern, e);
    var s, o :| s in SchemasForPattern(db, schemaPattern) && o in ObjectsForPattern(db, s, tablePattern)
      && Listed(o, None) && ColumnOf(db, s, o, columnPattern, e);
    assert r == ColumnRow(e);
  }

  /** Conversely, when the catalog passes, every such column has its row in
      the column listing. */
  lemma ColumnsComplete(db: Database, catalog: Option<string>, schemaPattern: Option<string>,
                        tablePattern: Option<string>, columnPattern: Option<string>, s: Schema, o: SchemaObject,
                        e: ColumnEntry)
    requires CheckCatalogName(db, catalog)
    requires s in SchemasForPattern(db, schemaPattern) && o in ObjectsForPattern(db, s, tablePattern)
    requires Listed(o, None) && ColumnOf(db, s, o, columnPattern, e)
    ensures ColumnRow(e) in Columns(db, catalog, schemaPattern, tablePattern, columnPattern)
  {
    var entries := ColumnsUnsorted(db, schemaPattern, tablePattern, columnPattern);
    ColumnsUnsortedComplete(db, schemaPattern, tablePattern, columnPattern, s, o, e);
    var i :| 0 <= i < |entries| && entries[i] == e;
    var r := ColumnRow(entries[i]);
    MapMember(entries, ColumnRow, r);
    SortByMembers(Map(entries, ColumnRow), RowOrder(db.collation, COLUMNS_ORDER), r);
  }

  /** The column listing is in ascending order of catalog, schema, table and
      ORDINAL_POSITION, and it is a permutation of the enumeration in which
      equal keys keep their enumeration order. */
  lemma ColumnsSorted(db: Database, catalog: Option<string>, schemaPattern: Option<string>,
                      tablePattern: Option<string>, columnPattern: Option<string>)
    requires TotalPreorder(db.collation)
    ensures Sorted(Columns(db, catalog, schemaPattern, tablePattern, columnPattern), RowOrder(db.collation, COLUMNS_ORDER))
    ensures CheckCatalogName(db, catalog) ==>
      multiset(Columns(db, catalog, schemaPattern, tablePattern, columnPattern))
      == multiset(Map(ColumnsUnsorted(db, schemaPattern, tablePattern, columnPattern), ColumnRow))
    ensures CheckCatalogName(db, catalog) ==>
      forall k :: Equivalents(Columns(db, catalog, schemaPattern, tablePattern, columnPattern), RowOrder(db.collation, COLUMNS_ORDER), k)
                  == Equivalents(Map(ColumnsUnsorted(db, schemaPattern, tablePattern, columnPattern), ColumnRow),
                                 RowOrder(db.collation, COLUMNS_ORDER), k)
  {
    RowOrderIsTotalPreorder(db.collation, COLUMNS_ORDER);
    if CheckCatalogName(db, catalog) {
      var rows := Map(ColumnsUnsorted(db, schemaPattern, tablePattern, columnPattern), ColumnRow);
      SortBySorted(rows, RowOrder(db.collation, COLUMNS_ORDER));
      forall k {
        SortByStable(rows, RowOrder(db.collation, COLUMNS_ORDER), k);
      }
    }
  }
}
