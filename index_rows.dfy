/** What the index listing contains: one row per column of every index of
    the visible table of that exact name in the selected schemas, skipping
    the indexes the system made itself and, on request, the non-unique ones;
    sorted on NON_UNIQUE, TYPE, INDEX_NAME and ORDINAL_POSITION. */
module IndexRows {
  import opened Values
  import opened Sorting
  import opened Catalog
  import opened SimpleResults
  import opened MetaHelpers
  import opened PrimaryKeyRows

  const INDEX_INFO_HEADER: seq<ResultColumn> := [
    ResultColumn("TABLE_CAT", Varchar),
    ResultColumn("TABLE_SCHEM", Varchar),
    ResultColumn("TABLE_NAME", Varchar),
    ResultColumn("NON_UNIQUE", Boolean),
    ResultColumn("INDEX_QUALIFIER", Varchar),
    ResultColumn("INDEX_NAME", Varchar),
    ResultColumn("TYPE", Smallint),
    ResultColumn("ORDINAL_POSITION", Smallint),
    ResultColumn("COLUMN_NAME", Varchar),
    ResultColumn("ASC_OR_DESC", Varchar),
    ResultColumn("CARDINALITY", Bigint),
    ResultColumn("PAGES", Bigint),
    ResultColumn("FILTER_CONDITION", Varchar)]

  /** NON_UNIQUE, TYPE, INDEX_NAME, ORDINAL_POSITION. */
  const INDEX_INFO_ORDER: seq<nat> := [3, 6, 5, 7]

  /** The index type codes of the metadata contract. */
  const TABLE_INDEX_STATISTIC := 0
  const TABLE_INDEX_HASHED := 2
  const TABLE_INDEX_OTHER := 3

  /** The sort-type bit that marks a descending index column. */
  const DESCENDING: bv32 := 1

  // ---------------------------------------------------------------------
  // The type code of an index

  /** Whether any of the columns accepts NULL. */
  function HasNullableColumn(columns: seq<IndexColumn>): (r: bool)
    ensures r <==> exists i :: 0 <= i < |columns| && columns[i].column.nullable
    decreases |columns|
  {
    if columns == [] then false
    else
      var n := |columns| - 1;
      assert forall i :: 0 <= i < n ==> columns[..n][i] == columns[i];
      HasNullableColumn(columns[..n]) || columns[n].column.nullable
  }

  /** TYPE of an index's rows: a unique index none of whose columns accepts
      NULL is hashed or other according to its kind; every other index is
      reported as a statistic. */
  function IndexTypeCode(index: Index): (r: int)
    ensures r == TABLE_INDEX_HASHED <==> index.unique && index.hash && !HasNullableColumn(index.columns)
    ensures r == TABLE_INDEX_OTHER <==> index.unique && !index.hash && !HasNullableColumn(index.columns)
    ensures r == TABLE_INDEX_STATISTIC <==> !index.unique || HasNullableColumn(index.columns)
  {
    if index.unique && !HasNullableColumn(index.columns) then
      (if index.hash then TABLE_INDEX_HASHED else TABLE_INDEX_OTHER)
    else TABLE_INDEX_STATISTIC
  }

  /** Computes the type code the way the listing does: start from
      statistic, and for a unique index scan its columns, leaving the code
      unchanged at the first column that accepts NULL. */
  method IndexType(index: Index) returns (code: int)
    ensures code == IndexTypeCode(index)
  {
    code := TABLE_INDEX_STATISTIC;
    if index.unique {
      var k := 0;
      while k < |index.columns|
        invariant 0 <= k <= |index.columns|
        invariant forall i :: 0 <= i < k ==> !index.columns[i].column.nullable
      {
        if index.columns[k].column.nullable {
          return;
        }
        k := k + 1;
      }
      code := if index.hash then TABLE_INDEX_HASHED else TABLE_INDEX_OTHER;
    }
  }

  // ---------------------------------------------------------------------
  // The rows of one table

  /** Whether an index is listed: it has creating SQL (the system did not
      make it for a constraint) and, when only unique indexes are asked for,
      it is unique. */
  predicate IndexListed(index: Index, unique: bool) {
    index.createSQL.Some? && (!unique || index.unique)
  }

  /** One row of the index listing before it is laid out as cells. */
  datatype IndexEntry = IndexEntry(
    catalogValue: Value, schemaValue: Value, tableName: string,
    nonUnique: bool, indexName: string, typeCode: int, position: nat,
    columnName: string, descending: bool, cardinality: int, pages: int)

  /** The cells of a row: the catalog doubles as INDEX_QUALIFIER,
      ORDINAL_POSITION goes through a cast to a 16-bit value, and there is
      never a filter condition. */
  function IndexRow(e: IndexEntry): (r: Row)
    ensures |r| == |INDEX_INFO_HEADER|
    ensures r[0] == r[4] == e.catalogValue
    ensures r[3] == Bool(e.nonUnique) && r[5] == Str(e.indexName) && r[6] == Int(e.typeCode)
    ensures e.position <= SHORT_MAX ==> r[7] == Int(e.position)
    ensures r[8] == Str(e.columnName)
    ensures r[9] == Str("D") <==> e.descending
    ensures r[12] == Null
  {
    // TABLE_CAT, TABLE_SCHEM, TABLE_NAME, NON_UNIQUE, INDEX_QUALIFIER
    [e.catalogValue, e.schemaValue, Str(e.tableName), Bool(e.nonUnique), e.catalogValue]
    // INDEX_NAME, TYPE, ORDINAL_POSITION, COLUMN_NAME
    + [Str(e.indexName), Int(e.typeCode), Int(ToShort(e.position)), Str(e.columnName)]
    // ASC_OR_DESC, CARDINALITY, PAGES, FILTER_CONDITION
    + [Str(if e.descending then "D" else "A"), Int(e.cardinality), Int(e.pages), Null]
  }

  /** The entry of the i-th column of an index. CARDINALITY is the
      approximate row count when approximate values are allowed, the exact
      one otherwise; PAGES is the disk space in whole pages. */
  function IndexColumnEntry(catalogValue: Value, schemaValue: Value, t: Table, index: Index, approximate: bool,
                            pageSize: PageSize, i: nat): (e: IndexEntry)
    requires i < |index.columns|
    ensures e.position == i + 1 && e.columnName == index.columns[i].column.name
    ensures e.nonUnique <==> !index.unique
    ensures e.descending <==> index.columns[i].sortType & DESCENDING != 0
    ensures e.cardinality == if approximate then index.rowCountApproximation else index.rowCount
    ensures e.pages * pageSize <= index.diskSpaceUsed < (e.pages + 1) * pageSize
  {
    IndexEntry(catalogValue, schemaValue, t.id.name, !index.unique, index.name, IndexTypeCode(index), i + 1,
               index.columns[i].column.name, index.columns[i].sortType & DESCENDING != 0,
               if approximate then index.rowCountApproximation else index.rowCount,
               index.diskSpaceUsed / pageSize)
  }

  /** The entries of the first n columns of an index. */
  function IndexColumnEntries(catalogValue: Value, schemaValue: Value, t: Table, index: Index, approximate: bool,
                              pageSize: PageSize, n: nat): (r: seq<IndexEntry>)
    requires n <= |index.columns|
    ensures |r| == n
  {
    if n == 0 then []
    else IndexColumnEntries(catalogValue, schemaValue, t, index, approximate, pageSize, n - 1)
         + [IndexColumnEntry(catalogValue, schemaValue, t, index, approximate, pageSize, n - 1)]
  }

  /** The rows of an index's first i + 1 columns extend those of its first
      i columns by the row built from the i-th column and the index's type
      code. */
  lemma IndexColumnEntriesSnoc(catalogValue: Value, schemaValue: Value, t: Table, index: Index, approximate: bool,
                               pageSize: PageSize, code: int, i: nat)
    requires i < |index.columns| && code == IndexTypeCode(index)
    ensures Map(IndexColumnEntries(catalogValue, schemaValue, t, index, approximate, pageSize, i + 1), IndexRow)
         == Map(IndexColumnEntries(catalogValue, schemaValue, t, index, approximate, pageSize, i), IndexRow)
            + [IndexRow(IndexEntry(catalogValue, schemaValue, t.id.name, !index.unique, index.name, code, i + 1,
                                   index.columns[i].column.name, index.columns[i].sortType & DESCENDING != 0,
                                   if approximate then index.rowCountApproximation else index.rowCount,
                                   index.diskSpaceUsed / pageSize))]
  {
    MapAppend(IndexColumnEntries(catalogValue, schemaValue, t, index, approximate, pageSize, i),
              [IndexColumnEntry(catalogValue, schemaValue, t, index, approximate, pageSize, i)], IndexRow);
  }

  lemma {:induction false} IndexColumnEntriesAt(catalogValue: Value, schemaValue: Value, t: Table, index: Index,
                                                approximate: bool, pageSize: PageSize, n: nat, i: nat)
    requires i < n <= |index.columns|
    ensures IndexColumnEntries(catalogValue, schemaValue, t, index, approximate, pageSize, n)[i]
         == IndexColumnEntry(catalogValue, schemaValue, t, index, approximate, pageSize, i)
  {
    if i < n - 1 {
      IndexColumnEntriesAt(catalogValue, schemaValue, t, index, approximate, pageSize, n - 1, i);
    }
  }

  /** What one index adds: a row per column when it is listed. */
  function IndexEntries(catalogValue: Value, schemaValue: Value, t: Table, unique: bool, approximate: bool,
                        pageSize: PageSize): Index -> seq<IndexEntry>
  {
    (index: Index) =>
      if IndexListed(index, unique)
      then IndexColumnEntries(catalogValue, schemaValue, t, index, approximate, pageSize, |index.columns|)
      else []
  }

  /** The entries of one table's indexes, in index order. */
  function TableIndexEntries(catalogValue: Value, schemaValue: Value, t: Table, unique: bool, approximate: bool,
                             pageSize: PageSize): seq<IndexEntry>
  {
    FlatMap(t.indexes, IndexEntries(catalogValue, schemaValue, t, unique, approximate, pageSize))
  }

  function SchemaIndexEntries(catalogValue: Value, table: string, unique: bool, approximate: bool,
                              pageSize: PageSize): Schema -> seq<IndexEntry>
  {
    (s: Schema) =>
      match VisibleTable(s, table)
      case None => []
      case Some(t) => TableIndexEntries(catalogValue, Str(s.name), t, unique, approximate, pageSize)
  }

  function IndexInfoUnsorted(db: Database, schema: Option<string>, table: string, unique: bool, approximate: bool)
    : seq<IndexEntry>
  {
    FlatMap(SchemasFor(db, schema), SchemaIndexEntries(Str(db.shortName), table, unique, approximate, db.pageSize))
  }

  /** The rows of the index listing: an error for a null table, no rows for
      a foreign catalog, otherwise the entries sorted on NON_UNIQUE, TYPE,
      INDEX_NAME and ORDINAL_POSITION. */
  function IndexInfo(db: Database, catalog: Option<string>, schema: Option<string>, table: Option<string>,
                     unique: bool, approximate: bool): (r: Result<seq<Row>>)
    ensures r.Err? <==> table.None?
    ensures r.Err? ==> r.error == InvalidValue("table")
    ensures table.Some? && !CheckCatalogName(db, catalog) ==> r == Ok([])
  {
    if table.None? then Err(InvalidValue("table"))
    else if !CheckCatalogName(db, catalog) then Ok([])
    else Ok(SortBy(Map(IndexInfoUnsorted(db, schema, table.value, unique, approximate), IndexRow),
                   RowOrder(db.collation, INDEX_INFO_ORDER)))
  }

  // ---------------------------------------------------------------------
  // Properties

  /** e is the entry of the i-th column of a listed index of the visible
      table of that name in a selected schema. */
  ghost predicate IndexColumnOf(db: Database, schema: Option<string>, table: string, unique: bool, approximate: bool,
                                e: IndexEntry)
  {
    exists s, t, index, i ::
      (s in SchemasFor(db, schema) && VisibleTable(s, table) == Some(t) && index in t.indexes
       && IndexListed(index, unique) && 0 <= i < |index.columns|
       && e == IndexColumnEntry(Str(db.shortName), Str(s.name), t, index, approximate, db.pageSize, i))
  }

  lemma IndexEntriesOrigin(catalogValue: Value, schemaValue: Value, t: Table, unique: bool, approximate: bool,
                           pageSize: PageSize, index: Index, e: IndexEntry)
    requires e in IndexEntries(catalogValue, schemaValue, t, unique, approximate, pageSize)(index)
    ensures IndexListed(index, unique)
    ensures exists i :: (0 <= i < |index.columns|
      && e == IndexColumnEntry(catalogValue, schemaValue, t, index, approximate, pageSize, i))
  {
    var entries := IndexColumnEntries(catalogValue, schemaValue, t, index, approximate, pageSize, |index.columns|);
    assert IndexListed(index, unique) && e in entries;
    var i :| 0 <= i < |entries| && entries[i] == e;
    IndexColumnEntriesAt(catalogValue, schemaValue, t, index, approximate, pageSize, |index.columns|, i);
  }

  lemma IndexInfoUnsortedOrigin(db: Database, schema: Option<string>, table: string, unique: bool, approximate: bool,
                                e: IndexEntry)
    requires e in IndexInfoUnsorted(db, schema, table, unique, approximate)
    ensures IndexColumnOf(db, schema, table, unique, approximate, e)
  {
    var schemas := SchemasFor(db, schema);
    var f := SchemaIndexEntries(Str(db.shortName), table, unique, approximate, db.pageSize);
    FlatMapMember(schemas, f, e);
    var k :| 0 <= k < |schemas| && e in f(schemas[k]);
    var s := schemas[k];
    var t := VisibleTable(s, table).value;
    var g := IndexEntries(Str(db.shortName), Str(s.name), t, unique, approximate, db.pageSize);
    FlatMapMember(t.indexes, g, e);
    var m :| 0 <= m < |t.indexes| && e in g(t.indexes[m]);
    var index := t.indexes[m];
    IndexEntriesOrigin(Str(db.shortName), Str(s.name), t, unique, approximate, db.pageSize, index, e);
    var i :| 0 <= i < |index.columns|
      && e == IndexColumnEntry(Str(db.shortName), Str(s.name), t, index, approximate, db.pageSize, i);
    assert s in schemas && index in t.indexes;
  }

  lemma IndexInfoUnsortedComplete(db: Database, schema: Option<string>, table: string, unique: bool, approximate: bool,
                                  s: Schema, t: Table, index: Index, i: nat)
    requires s in SchemasFor(db, schema) && VisibleTable(s, table) == Some(t) && index in t.indexes
    requires IndexListed(index, unique) && i < |index.columns|
    ensures IndexColumnEntry(Str(db.shortName), Str(s.name), t, index, approximate, db.pageSize, i)
            in IndexInfoUnsorted(db, schema, table, unique, approximate)
  {
    var e := IndexColumnEntry(Str(db.shortName), Str(s.name), t, index, approximate, db.pageSize, i);
    var schemas := SchemasFor(db, schema);
    var f := SchemaIndexEntries(Str(db.shortName), table, unique, approximate, db.pageSize);
    var g := IndexEntries(Str(db.shortName), Str(s.name), t, unique, approximate, db.pageSize);
    IndexColumnEntriesAt(Str(db.shortName), Str(s.name), t, index, approximate, db.pageSize, |index.columns|, i);
    assert e in g(index);
    var m :| 0 <= m < |t.indexes| && t.indexes[m] == index;
    FlatMapContains(t.indexes, g, m, e);
    assert e in f(s);
    var k :| 0 <= k < |schemas| && schemas[k] == s;
    FlatMapContains(schemas, f, k, e);
  }

  /** Every row of the index listing is the row of a column of a listed
      index of the visible table of that name in a selected schema. */
  lemma IndexInfoOrigin(db: Database, catalog: Option<string>, schema: Option<string>, table: Option<string>,
                        unique: bool, approximate: bool, r: Row)
    requires IndexInfo(db, catalog, schema, table, unique, approximate).Ok?
    requires r in IndexInfo(db, catalog, schema, table, unique, approximate).value
    ensures CheckCatalogName(db, catalog) && table.Some?
    ensures exists e :: IndexColumnOf(db, schema, table.value, unique, approximate, e) && r == IndexRow(e)
  {
    var entries := IndexInfoUnsorted(db, schema, table.value, unique, approximate);
    SortByMembers(Map(entries, IndexRow), RowOrder(db.collation, INDEX_INFO_ORDER), r);
    MapMember(entries, IndexRow, r);
    var i :| 0 <= i < |entries| && r == IndexRow(entries[i]);
    IndexInfoUnsortedOrigin(db, schema, table.value, unique, approximate, entries[i]);
  }

  /** Conversely, every column of every listed index has its row. */
  lemma IndexInfoComplete(db: Database, catalog: Option<string>, schema: Option<string>, table: string,
                          unique: bool, approximate: bool, s: Schema, t: Table, index: Index, i: nat)
    requires CheckCatalogName(db, catalog)
    requires s in SchemasFor(db, schema) && VisibleTable(s, table) == Some(t) && index in t.indexes
    requires IndexListed(index, unique) && i < |index.columns|
    ensures IndexRow(IndexColumnEntry(Str(db.shortName), Str(s.name), t, index, approximate, db.pageSize, i))
            in IndexInfo(db, catalog, schema, Some(table), unique, approximate).value
  {
    var entries := IndexInfoUnsorted(db, schema, table, unique, approximate);
    var e := IndexColumnEntry(Str(db.shortName), Str(s.name), t, index, approximate, db.pageSize, i);
    IndexInfoUnsortedComplete(db, schema, table, unique, approximate, s, t, index, i);
    MapMember(entries, IndexRow, IndexRow(e));
    SortByMembers(Map(entries, IndexRow), RowOrder(db.collation, INDEX_INFO_ORDER), IndexRow(e));
  }

  /** Asking for unique indexes only leaves no row with NON_UNIQUE true, and
      no index without creating SQL ever contributes a row. */
  lemma IndexInfoUniqueOnly(db: Database, catalog: Option<string>, schema: Option<string>, table: Option<string>,
                            approximate: bool, r: Row)
    requires IndexInfo(db, catalog, schema, table, true, approximate).Ok?
    requires r in IndexInfo(db, catalog, schema, table, true, approximate).value
    ensures |r| == |INDEX_INFO_HEADER| && r[3] == Bool(false)
  {
    IndexInfoOrigin(db, catalog, schema, table, true, approximate, r);
    var e :| IndexColumnOf(db, schema, table.value, true, approximate, e) && r == IndexRow(e);
    var s, t, index, i :| s in SchemasFor(db, schema) && VisibleTable(s, table.value) == Some(t) && index in t.indexes
      && IndexListed(index, true) && 0 <= i < |index.columns|
      && e == IndexColumnEntry(Str(db.shortName), Str(s.name), t, index, approximate, db.pageSize, i);
  }

  /** The index listing is sorted on NON_UNIQUE, TYPE, INDEX_NAME and
      ORDINAL_POSITION, and is a permutation of the enumeration in which equal
      keys keep their enumeration order. */
  lemma IndexInfoSorted(db: Database, catalog: Option<string>, schema: Option<string>, table: string,
                        unique: bool, approximate: bool)
    requires TotalPreorder(db.collation)
    ensures Sorted(IndexInfo(db, catalog, schema, Some(table), unique, approximate).value,
                   RowOrder(db.collation, INDEX_INFO_ORDER))
    ensures CheckCatalogName(db, catalog) ==>
      multiset(IndexInfo(db, catalog, schema, Some(table), unique, approximate).value)
      == multiset(Map(IndexInfoUnsorted(db, schema, table, unique, approximate), IndexRow))
    ensures CheckCatalogName(db, catalog) ==>
      forall k :: Equivalents(IndexInfo(db, catalog, schema, Some(table), unique, approximate).value, RowOrder(db.collation, INDEX_INFO_ORDER), k)
                  == Equivalents(Map(IndexInfoUnsorted(db, schema, table, unique, approximate), IndexRow),
                                 RowOrder(db.collation, INDEX_INFO_ORDER), k)
  {
    RowOrderIsTotalPreorder(db.collation, INDEX_INFO_ORDER);
    if CheckCatalogName(db, catalog) {
      var rows := Map(IndexInfoUnsorted(db, schema, table, unique, approximate), IndexRow);
      SortBySorted(rows, RowOrder(db.collation, INDEX_INFO_ORDER));
      forall k {
        SortByStable(rows, RowOrder(db.collation, INDEX_INFO_ORDER), k);
      }
    }
  }
}
