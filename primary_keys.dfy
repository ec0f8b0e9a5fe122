/** What the primary-key listing and the best-row-identifier listing
    contain. Both look up one table by exact name in the schemas an exact
    schema argument selects, skip it when it is missing or hidden, and
    report the columns of its primary-key constraints in key order. */
module PrimaryKeyRows {
  import opened Values
  import opened Sorting
  import opened Catalog
  import opened SimpleResults
  import opened MetaHelpers

  /** The table or view of that exact name in a schema, unless it is missing
      or hidden. */
  function VisibleTable(s: Schema, table: string): (r: Option<Table>)
    ensures r.Some? ==> r.value in s.tables && r.value.id.name == table && !r.value.hidden
    ensures r.None? ==> FindTableOrView(s, table).None? || FindTableOrView(s, table).value.hidden
  {
    match FindTableOrView(s, table)
    case Some(t) => if t.hidden then None else Some(t)
    case None => None
  }

  // ---------------------------------------------------------------------
  // The primary-key listing

  const PRIMARY_KEYS_HEADER: seq<ResultColumn> := [
    ResultColumn("TABLE_CAT", Varchar),
    ResultColumn("TABLE_SCHEM", Varchar),
    ResultColumn("TABLE_NAME", Varchar),
    ResultColumn("COLUMN_NAME", Varchar),
    ResultColumn("KEY_SEQ", Smallint),
    ResultColumn("PK_NAME", Varchar)]

  /** COLUMN_NAME, the order the metadata contract asks for. */
  const PRIMARY_KEYS_ORDER: seq<nat> := [3]

  /** One row of the primary-key listing before it is laid out as cells. */
  datatype PrimaryKeyEntry = PrimaryKeyEntry(catalogValue: Value, schemaValue: Value, tableValue: Value,
                                             columnName: string, keySeq: nat, pkName: string)

  /** The cells of a row; KEY_SEQ goes through a cast to a 16-bit value. */
  function PrimaryKeyRow(e: PrimaryKeyEntry): (r: Row)
    ensures |r| == |PRIMARY_KEYS_HEADER|
    ensures r[3] == Str(e.columnName) && r[5] == Str(e.pkName)
    ensures e.keySeq <= SHORT_MAX ==> r[4] == Int(e.keySeq)
  {
    // TABLE_CAT, TABLE_SCHEM, TABLE_NAME, COLUMN_NAME, KEY_SEQ, PK_NAME
    [e.catalogValue, e.schemaValue, e.tableValue, Str(e.columnName), Int(ToShort(e.keySeq)), Str(e.pkName)]
  }

  /** The entries of a key's columns, in key order, counting KEY_SEQ from 1. */
  function KeyColumnEntries(catalogValue: Value, schemaValue: Value, tableValue: Value, pkName: string,
                            columns: seq<IndexColumn>): (r: seq<PrimaryKeyEntry>)
    ensures |r| == |columns|
    decreases |columns|
  {
    if columns == [] then []
    else
      var n := |columns| - 1;
      KeyColumnEntries(catalogValue, schemaValue, tableValue, pkName, columns[..n])
      + [PrimaryKeyEntry(catalogValue, schemaValue, tableValue, columns[n].column.name, n + 1, pkName)]
  }

  /** The rows of a key's first i + 1 columns extend those of its first i
      by the row of the i-th column, whose KEY_SEQ is i + 1. */
  lemma KeyColumnEntriesSnoc(catalogValue: Value, schemaValue: Value, tableValue: Value, pkName: string,
                             columns: seq<IndexColumn>, i: nat)
    requires i < |columns|
    ensures Map(KeyColumnEntries(catalogValue, schemaValue, tableValue, pkName, columns[..i + 1]), PrimaryKeyRow)
         == Map(KeyColumnEntries(catalogValue, schemaValue, tableValue, pkName, columns[..i]), PrimaryKeyRow)
            + [PrimaryKeyRow(PrimaryKeyEntry(catalogValue, schemaValue, tableValue, columns[i].column.name, i + 1, pkName))]
  {
    assert columns[..i + 1][..i] == columns[..i] && columns[..i + 1][i] == columns[i];
    MapAppend(KeyColumnEntries(catalogValue, schemaValue, tableValue, pkName, columns[..i]),
              [PrimaryKeyEntry(catalogValue, schemaValue, tableValue, columns[i].column.name, i + 1, pkName)],
              PrimaryKeyRow);
  }

  /** What one constraint adds: its columns if it is a primary key. */
  function ConstraintPrimaryKeyEntries(catalogValue: Value, schemaValue: Value, tableValue: Value)
    : Constraint -> seq<PrimaryKeyEntry>
  {
    (c: Constraint) =>
      if c.PrimaryKey? then KeyColumnEntries(catalogValue, schemaValue, tableValue, c.name, c.columns) else []
  }

  /** What one schema adds: the primary keys of its visible table of that name. */
  function SchemaPrimaryKeyEntries(catalogValue: Value, table: string): Schema -> seq<PrimaryKeyEntry> {
    (s: Schema) =>
      match VisibleTable(s, table)
      case None => []
      case Some(t) => FlatMap(t.constraints, ConstraintPrimaryKeyEntries(catalogValue, Str(s.name), Str(t.id.name)))
  }

  function PrimaryKeysUnsorted(db: Database, schema: Option<string>, table: string): seq<PrimaryKeyEntry> {
    FlatMap(SchemasFor(db, schema), SchemaPrimaryKeyEntries(Str(db.shortName), table))
  }

  /** The rows of the primary-key listing: an error for a null table, no
      rows for a foreign catalog, otherwise the key columns sorted by
      COLUMN_NAME. */
  function PrimaryKeys(db: Database, catalog: Option<string>, schema: Option<string>, table: Option<string>)
    : (r: Result<seq<Row>>)
    ensures r.Err? <==> table.None?
    ensures r.Err? ==> r.error == InvalidValue("table")
  {
    if table.None? then Err(InvalidValue("table"))
    else if !CheckCatalogName(db, catalog) then Ok([])
    else Ok(SortBy(Map(PrimaryKeysUnsorted(db, schema, table.value), PrimaryKeyRow),
                   RowOrder(db.collation, PRIMARY_KEYS_ORDER)))
  }

  /** The j-th column of a key has KEY_SEQ j + 1. */
  lemma {:induction false} KeyColumnEntriesSeq(catalogValue: Value, schemaValue: Value, tableValue: Value,
                                               pkName: string, columns: seq<IndexColumn>, j: nat)
    requires j < |columns|
    ensures KeyColumnEntries(catalogValue, schemaValue, tableValue, pkName, columns)[j]
         == PrimaryKeyEntry(catalogValue, schemaValue, tableValue, columns[j].column.name, j + 1, pkName)
    decreases |columns|
  {
    var n := |columns| - 1;
    if j < n {
      KeyColumnEntriesSeq(catalogValue, schemaValue, tableValue, pkName, columns[..n], j);
      assert columns[..n][j] == columns[j];
    }
  }

  /** A key of at most SHORT_MAX columns reports KEY_SEQ 1, 2, ..., n in
      key order. */
  lemma KeySeqRunsFromOne(catalogValue: Value, schemaValue: Value, tableValue: Value, pkName: string,
                          columns: seq<IndexColumn>, j: nat)
    requires j < |columns| <= SHORT_MAX
    ensures Map(KeyColumnEntries(catalogValue, schemaValue, tableValue, pkName, columns), PrimaryKeyRow)[j][4] == Int(j + 1)
    ensures Map(KeyColumnEntries(catalogValue, schemaValue, tableValue, pkName, columns), PrimaryKeyRow)[j][3]
         == Str(columns[j].column.name)
  {
    var entries := KeyColumnEntries(catalogValue, schemaValue, tableValue, pkName, columns);
    KeyColumnEntriesSeq(catalogValue, schemaValue, tableValue, pkName, columns, j);
    assert Map(entries, PrimaryKeyRow)[j] == PrimaryKeyRow(entries[j]);
  }

  /** e is the entry of the j-th column of a primary key of the visible
      table of that name in a selected schema. */
  ghost predicate PrimaryKeyColumnOf(db: Database, schema: Option<string>, table: string, e: PrimaryKeyEntry) {
    exists s, t, c, j ::
      (s in SchemasFor(db, schema) && VisibleTable(s, table) == Some(t) && c in t.constraints && c.PrimaryKey?
       && 0 <= j < |c.columns|
       && e == PrimaryKeyEntry(Str(db.shortName), Str(s.name), Str(t.id.name), c.columns[j].column.name, j + 1, c.name))
  }

  lemma ConstraintPrimaryKeyEntriesOrigin(catalogValue: Value, schemaValue: Value, tableValue: Value, c: Constraint,
                                          e: PrimaryKeyEntry)
    requires e in ConstraintPrimaryKeyEntries(catalogValue, schemaValue, tableValue)(c)
    ensures c.PrimaryKey?
    ensures exists j :: (0 <= j < |c.columns|
      && e == PrimaryKeyEntry(catalogValue, schemaValue, tableValue, c.columns[j].column.name, j + 1, c.name))
  {
    var entries := KeyColumnEntries(catalogValue, schemaValue, tableValue, c.name, c.columns);
    var j :| 0 <= j < |entries| && entries[j] == e;
    KeyColumnEntriesSeq(catalogValue, schemaValue, tableValue, c.name, c.columns, j);
  }

  /** An entry one table contributes is the entry of a column of one of its
      primary keys. */
  lemma TablePrimaryKeyEntriesOrigin(db: Database, s: Schema, t: Table, e: PrimaryKeyEntry)
    requires e in FlatMap(t.constraints, ConstraintPrimaryKeyEntries(Str(db.shortName), Str(s.name), Str(t.id.name)))
    ensures exists c, j :: (c in t.constraints && c.PrimaryKey? && 0 <= j < |c.columns|
      && e == PrimaryKeyEntry(Str(db.shortName), Str(s.name), Str(t.id.name), c.columns[j].column.name, j + 1, c.name))
  {
    var g := ConstraintPrimaryKeyEntries(Str(db.shortName), Str(s.name), Str(t.id.name));
    FlatMapMember(t.constraints, g, e);
    var k :| 0 <= k < |t.constraints| && e in g(t.constraints[k]);
    var c := t.constraints[k];
    ConstraintPrimaryKeyEntriesOrigin(Str(db.shortName), Str(s.name), Str(t.id.name), c, e);
    assert c in t.constraints;
  }

  lemma PrimaryKeysUnsortedOrigin(db: Database, schema: Option<string>, table: string, e: PrimaryKeyEntry)
    requires e in PrimaryKeysUnsorted(db, schema, table)
    ensures PrimaryKeyColumnOf(db, schema, table, e)
  {
    var schemas := SchemasFor(db, schema);
    var f := SchemaPrimaryKeyEntries(Str(db.shortName), table);
    FlatMapMember(schemas, f, e);
    var i :| 0 <= i < |schemas| && e in f(schemas[i]);
    var s := schemas[i];
    var t := VisibleTable(s, table).value;
    TablePrimaryKeyEntriesOrigin(db, s, t, e);
    var c, j :| c in t.constraints && c.PrimaryKey? && 0 <= j < |c.columns|
      && e == PrimaryKeyEntry(Str(db.shortName), Str(s.name), Str(t.id.name), c.columns[j].column.name, j + 1, c.name);
    assert s in schemas;
  }

  lemma PrimaryKeysUnsortedComplete(db: Database, schema: Option<string>, table: string, s: Schema, t: Table,
                                    c: Constraint, j: nat)
    requires s in SchemasFor(db, schema) && VisibleTable(s, table) == Some(t) && c in t.constraints && c.PrimaryKey?
    requires j < |c.columns|
    ensures PrimaryKeyEntry(Str(db.shortName), Str(s.name), Str(t.id.name), c.columns[j].column.name, j + 1, c.name)
            in PrimaryKeysUnsorted(db, schema, table)
  {
    var e := PrimaryKeyEntry(Str(db.shortName), Str(s.name), Str(t.id.name), c.columns[j].column.name, j + 1, c.name);
    var schemas := SchemasFor(db, schema);
    var f := SchemaPrimaryKeyEntries(Str(db.shortName), table);
    var g := ConstraintPrimaryKeyEntries(Str(db.shortName), Str(s.name), Str(t.id.name));
    KeyColumnEntriesSeq(Str(db.shortName), Str(s.name), Str(t.id.name), c.name, c.columns, j);
    assert e in g(c);
    var k :| 0 <= k < |t.constraints| && t.constraints[k] == c;
    FlatMapContains(t.constraints, g, k, e);
    assert e in f(s);
    var i :| 0 <= i < |schemas| && schemas[i] == s;
    FlatMapContains(schemas, f, i, e);
  }

  /** Every row of the primary-key listing is the row of a column of a
      primary key of the visible table of that exact name in a selected
      schema, with its 1-based position in the key as KEY_SEQ; a missing or
      hidden table contributes nothing. */
  lemma PrimaryKeysOrigin(db: Database, catalog: Option<string>, schema: Option<string>, table: Option<string>, r: Row)
    requires PrimaryKeys(db, catalog, schema, table).Ok? && r in PrimaryKeys(db, catalog, schema, table).value
    ensures CheckCatalogName(db, catalog) && table.Some?
    ensures exists e :: PrimaryKeyColumnOf(db, schema, table.value, e) && r == PrimaryKeyRow(e)
  {
    var entries := PrimaryKeysUnsorted(db, schema, table.value);
    SortByMembers(Map(entries, PrimaryKeyRow), RowOrder(db.collation, PRIMARY_KEYS_ORDER), r);
    MapMember(entries, PrimaryKeyRow, r);
    var i :| 0 <= i < |entries| && r == PrimaryKeyRow(entries[i]);
    PrimaryKeysUnsortedOrigin(db, schema, table.value, entries[i]);
  }

  /** Conversely, every column of such a primary key has its row in the
      listing when the catalog passes. */
  lemma PrimaryKeysComplete(db: Database, catalog: Option<string>, schema: Option<string>, table: string,
                            s: Schema, t: Table, c: Constraint, j: nat)
    requires CheckCatalogName(db, catalog)
    requires s in SchemasFor(db, schema) && VisibleTable(s, table) == Some(t) && c in t.constraints && c.PrimaryKey?
    requires j < |c.columns|
    ensures PrimaryKeyRow(PrimaryKeyEntry(Str(db.shortName), Str(s.name), Str(t.id.name), c.columns[j].column.name,
                                          j + 1, c.name))
            in PrimaryKeys(db, catalog, schema, Some(table)).value
  {
    var entries := PrimaryKeysUnsorted(db, schema, table);
    PrimaryKeysUnsortedComplete(db, schema, table, s, t, c, j);
    var e := PrimaryKeyEntry(Str(db.shortName), Str(s.name), Str(t.id.name), c.columns[j].column.name, j + 1, c.name);
    var i :| 0 <= i < |entries| && entries[i] == e;
    MapMember(entries, PrimaryKeyRow, PrimaryKeyRow(e));
    SortByMembers(Map(entries, PrimaryKeyRow), RowOrder(db.collation, PRIMARY_KEYS_ORDER), PrimaryKeyRow(e));
  }

  /** The primary-key listing is sorted by COLUMN_NAME alone, and is a
      permutation of the enumeration in which equal names keep their
      enumeration order. */
  lemma PrimaryKeysSorted(db: Database, catalog: Option<string>, schema: Option<string>, table: string)
    requires TotalPreorder(db.collation)
    ensures Sorted(PrimaryKeys(db, catalog, schema, Some(table)).value, RowOrder(db.collation, PRIMARY_KEYS_ORDER))
    ensures CheckCatalogName(db, catalog) ==>
      multiset(PrimaryKeys(db, catalog, schema, Some(table)).value)
      == multiset(Map(PrimaryKeysUnsorted(db, schema, table), PrimaryKeyRow))
    ensures CheckCatalogName(db, catalog) ==>
      forall k :: Equivalents(PrimaryKeys(db, catalog, schema, Some(table)).value, RowOrder(db.collation, PRIMARY_KEYS_ORDER), k)
                  == Equivalents(Map(PrimaryKeysUnsorted(db, schema, table), PrimaryKeyRow), RowOrder(db.collation, PRIMARY_KEYS_ORDER), k)
  {
    RowOrderIsTotalPreorder(db.collation, PRIMARY_KEYS_ORDER);
    if CheckCatalogName(db, catalog) {
      var rows := Map(PrimaryKeysUnsorted(db, schema, table), PrimaryKeyRow);
      SortBySorted(rows, RowOrder(db.collation, PRIMARY_KEYS_ORDER));
      forall k {
        SortByStable(rows, RowOrder(db.collation, PRIMARY_KEYS_ORDER), k);
      }
    }
  }

  // ---------------------------------------------------------------------
  // The best-row-identifier listing

  const BEST_ROW_HEADER: seq<ResultColumn> := [
    ResultColumn("SCOPE", Smallint),
    ResultColumn("COLUMN_NAME", Varchar),
    ResultColumn("DATA_TYPE", Integer),
    ResultColumn("TYPE_NAME", Varchar),
    ResultColumn("COLUMN_SIZE", Integer),
    ResultColumn("BUFFER_LENGTH", Integer),
    ResultColumn("DECIMAL_DIGITS", Smallint),
    ResultColumn("PSEUDO_COLUMN", Smallint)]

  /** The SCOPE and PSEUDO_COLUMN codes of the metadata contract. */
  const BEST_ROW_SESSION := 2
  const BEST_ROW_NOT_PSEUDO := 1

  /** The row of one primary-key column: valid for the session, never a
      pseudo column, DECIMAL_DIGITS only for a type with a scale. */
  function BestRowRow(c: Column): (r: Row)
    ensures |r| == |BEST_ROW_HEADER|
    ensures r[0] == Int(BEST_ROW_SESSION) && r[7] == Int(BEST_ROW_NOT_PSEUDO)
    ensures r[1] == Str(c.name)
    ensures r[6] == Null <==> !c.colType.supportsScale
    ensures r[4].Int? && INT_MIN <= r[4].i <= INT_MAX
  {
    var ty := c.colType;
    // SCOPE, COLUMN_NAME, DATA_TYPE, TYPE_NAME
    [Int(BEST_ROW_SESSION), Str(c.name), Int(ty.sqlType), Str(ty.typeName)]
    // COLUMN_SIZE, BUFFER_LENGTH, DECIMAL_DIGITS, PSEUDO_COLUMN
    + [Int(ConvertLongToInt(ty.precision)), Null,
       if ty.supportsScale then Int(ConvertIntToShort(ty.scale)) else Null,
       Int(BEST_ROW_NOT_PSEUDO)]
  }

  /** The columns of a key, in key order. */
  function KeyColumns(columns: seq<IndexColumn>): (r: seq<Column>)
    ensures |r| == |columns|
  {
    Map(columns, (ic: IndexColumn) => ic.column)
  }

  function ConstraintBestRowColumns(): Constraint -> seq<Column> {
    (c: Constraint) => if c.PrimaryKey? then KeyColumns(c.columns) else []
  }

  function SchemaBestRowColumns(table: string): Schema -> seq<Column> {
    (s: Schema) =>
      match VisibleTable(s, table)
      case None => []
      case Some(t) => FlatMap(t.constraints, ConstraintBestRowColumns())
  }

  /** The rows of the best-row-identifier listing: an error for a null
      table, no rows for a foreign catalog, otherwise one row per column of
      every primary key, in enumeration order (the listing is not sorted).
      The scope and nullable arguments do not change the result. */
  function BestRowIdentifier(db: Database, catalog: Option<string>, schema: Option<string>, table: Option<string>,
                             scope: int, nullable: bool): (r: Result<seq<Row>>)
    ensures r.Err? <==> table.None?
    ensures r.Err? ==> r.error == InvalidValue("table")
  {
    if table.None? then Err(InvalidValue("table"))
    else if !CheckCatalogName(db, catalog) then Ok([])
    else Ok(Map(FlatMap(SchemasFor(db, schema), SchemaBestRowColumns(table.value)), BestRowRow))
  }

  lemma ConstraintBestRowColumnsOrigin(c: Constraint, col: Column)
    requires col in ConstraintBestRowColumns()(c)
    ensures c.PrimaryKey? && exists j :: 0 <= j < |c.columns| && col == c.columns[j].column
  {
    var j :| 0 <= j < |KeyColumns(c.columns)| && KeyColumns(c.columns)[j] == col;
  }

  /** Every column the best-row-identifier listing enumerates is a column of
      a primary key of the visible table of that name in a selected schema. */
  lemma BestRowColumnsOrigin(db: Database, schema: Option<string>, table: string, col: Column)
    requires col in FlatMap(SchemasFor(db, schema), SchemaBestRowColumns(table))
    ensures exists s, t, c, j ::
      (s in SchemasFor(db, schema) && VisibleTable(s, table) == Some(t) && c in t.constraints && c.PrimaryKey?
       && 0 <= j < |c.columns| && col == c.columns[j].column)
  {
    var schemas := SchemasFor(db, schema);
    var f := SchemaBestRowColumns(table);
    FlatMapMember(schemas, f, col);
    var i :| 0 <= i < |schemas| && col in f(schemas[i]);
    var s := schemas[i];
    var t := VisibleTable(s, table).value;
    FlatMapMember(t.constraints, ConstraintBestRowColumns(), col);
    var k :| 0 <= k < |t.constraints| && col in ConstraintBestRowColumns()(t.constraints[k]);
    var c := t.constraints[k];
    ConstraintBestRowColumnsOrigin(c, col);
    var j :| 0 <= j < |c.columns| && col == c.columns[j].column;
    assert s in schemas && c in t.constraints;
  }

  /** Every row of the best-row-identifier listing is the row of a column of
      a primary key of the visible table of that name in a selected schema. */
  lemma BestRowIdentifierOrigin(db: Database, catalog: Option<string>, schema: Option<string>, table: Option<string>,
                                scope: int, nullable: bool, r: Row)
    requires BestRowIdentifier(db, catalog, schema, table, scope, nullable).Ok?
    requires r in BestRowIdentifier(db, catalog, schema, table, scope, nullable).value
    ensures CheckCatalogName(db, catalog) && table.Some?
    ensures exists s, t, c, j ::
      (s in SchemasFor(db, schema) && VisibleTable(s, table.value) == Some(t) && c in t.constraints && c.PrimaryKey?
       && 0 <= j < |c.columns| && r == BestRowRow(c.columns[j].column))
  {
    var columns := FlatMap(SchemasFor(db, schema), SchemaBestRowColumns(table.value));
    MapMember(columns, BestRowRow, r);
    var m :| 0 <= m < |columns| && r == BestRowRow(columns[m]);
    BestRowColumnsOrigin(db, schema, table.value, columns[m]);
    var s, t, c, j :| s in SchemasFor(db, schema) && VisibleTable(s, table.value) == Some(t) && c in t.constraints
      && c.PrimaryKey? && 0 <= j < |c.columns| && columns[m] == c.columns[j].column;
    assert r == BestRowRow(c.columns[j].column);
  }

  /** Conversely, every column of every primary key of the visible table
      of that name in a selected schema has its row in the listing. */
  lemma BestRowIdentifierComplete(db: Database, catalog: Option<string>, schema: Option<string>, table: string,
                                  scope: int, nullable: bool, s: Schema, t: Table, c: Constraint, j: nat)
    requires CheckCatalogName(db, catalog)
    requires s in SchemasFor(db, schema) && VisibleTable(s, table) == Some(t) && c in t.constraints
    requires c.PrimaryKey? && j < |c.columns|
    ensures BestRowRow(c.columns[j].column) in BestRowIdentifier(db, catalog, schema, Some(table), scope, nullable).value
  {
    var schemas := SchemasFor(db, schema);
    var f := SchemaBestRowColumns(table);
    var i :| 0 <= i < |schemas| && schemas[i] == s;
    var k :| 0 <= k < |t.constraints| && t.constraints[k] == c;
    var col := c.columns[j].column;
    assert KeyColumns(c.columns)[j] == col;
    FlatMapContains(t.constraints, ConstraintBestRowColumns(), k, col);
    FlatMapContains(schemas, f, i, col);
    var m :| 0 <= m < |FlatMap(schemas, f)| && FlatMap(schemas, f)[m] == col;
    assert Map(FlatMap(schemas, f), BestRowRow)[m] == BestRowRow(col);
  }

  /** The rows of each primary key of the visible table in a selected
      schema appear together and in key order, whatever else is listed. */
  lemma BestRowIdentifierKeyBlock(db: Database, catalog: Option<string>, schema: Option<string>, table: string,
                                  scope: int, nullable: bool, s: Schema, t: Table, c: Constraint)
    requires CheckCatalogName(db, catalog)
    requires s in SchemasFor(db, schema) && VisibleTable(s, table) == Some(t) && c in t.constraints
    requires c.PrimaryKey?
    ensures Infix(Map(KeyColumns(c.columns), BestRowRow),
                  BestRowIdentifier(db, catalog, schema, Some(table), scope, nullable).value)
  {
    var schemas := SchemasFor(db, schema);
    var f := SchemaBestRowColumns(table);
    var i :| 0 <= i < |schemas| && schemas[i] == s;
    var k :| 0 <= k < |t.constraints| && t.constraints[k] == c;
    FlatMapInfix(t.constraints, ConstraintBestRowColumns(), k);
    FlatMapInfix(schemas, f, i);
    InfixTransitive(KeyColumns(c.columns), f(s), FlatMap(schemas, f));
    MapInfix(KeyColumns(c.columns), FlatMap(schemas, f), BestRowRow);
  }

  /** The rows of one primary key appear together and in key order: with a
      single selected schema whose visible table has exactly one constraint,
      a primary key, the listing is that key's columns in order. */
  lemma BestRowIdentifierKeyOrder(db: Database, catalog: Option<string>, schema: Option<string>, table: string,
                                  scope: int, nullable: bool, s: Schema, t: Table, c: Constraint)
    requires CheckCatalogName(db, catalog)
    requires SchemasFor(db, schema) == [s] && VisibleTable(s, table) == Some(t)
    requires t.constraints == [c] && c.PrimaryKey?
    ensures BestRowIdentifier(db, catalog, schema, Some(table), scope, nullable)
         == Ok(Map(KeyColumns(c.columns), BestRowRow))
  {
    var f := SchemaBestRowColumns(table);
    assert FlatMap([s], f) == f(s) by {
      assert [s][..0] == [];
    }
    assert FlatMap([c], ConstraintBestRowColumns()) == KeyColumns(c.columns) by {
      assert [c][..0] == [];
    }
  }
}
