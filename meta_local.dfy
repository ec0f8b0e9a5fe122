/** The metadata engine of one session. Each listing creates a result with
    its header, returns it empty for a foreign catalog, walks the selected
    schemas and their objects appending rows, and sorts the rows at the end.
    Every method is proved to build exactly the rows of the listing
    function that specifies it; the properties of the listings are proved
    about those functions. */
module MetaLocal {
  import opened Values
  import opened Sorting
  import opened Catalog
  import opened SimpleResults
  import opened MetaHelpers
  import opened TableTypes
  import opened TableRows
  import opened ColumnRows
  import opened PrimaryKeyRows
  import opened CrossReferenceRows
  import opened IndexRows
  import opened SchemaRows

  class DatabaseMetaLocal {
    /** The session's database. */
    const db: Database
    /** The collation's string comparator, created on first use and kept. */
    var comparator: Option<(string, string) -> int>

    /** A kept comparator is the collation's. */
    ghost predicate Valid()
      reads this
    {
      comparator.Some? ==> comparator.value == db.collation
    }

    constructor (db: Database)
      ensures this.db == db && comparator == None && Valid()
    {
      this.db := db;
      comparator := None;
    }

    /** The collation's comparator, created and kept on the first call. */
    method GetComparator() returns (cmp: (string, string) -> int)
      requires Valid()
      modifies this`comparator
      ensures Valid() && comparator == Some(db.collation)
      ensures cmp == db.collation
    {
      if comparator.None? {
        comparator := Some(db.collation);
      }
      cmp := comparator.value;
    }

    // -------------------------------------------------------------------
    // Selecting schemas and schema objects

    /** The schemas a schema-name pattern selects, in schema order. */
    method GetSchemasForPattern(pattern: Option<string>) returns (schemas: seq<Schema>)
      ensures schemas == SchemasForPattern(db, pattern)
    {
      if pattern.None? {
        schemas := db.schemas;
      } else if pattern.value == "" {
        schemas := [db.mainSchema];
      } else {
        var all := db.schemas;
        schemas := [];
        for k := 0 to |all|
          invariant schemas == LikeSchemas(db, all[..k], pattern.value)
        {
          assert all[..k + 1][..k] == all[..k] && all[..k + 1][k] == all[k];
          if db.like(pattern.value, all[k].name) {
            schemas := schemas + [all[k]];
          }
        }
        assert all[..|all|] == all;
      }
    }

    /** The tables and views, then the synonyms, of a schema whose names
        pass a table-name pattern. */
    method GetTablesForPattern(s: Schema, pattern: Option<string>) returns (objects: seq<SchemaObject>)
      ensures objects == ObjectsForPattern(db, s, pattern)
    {
      if pattern.None? {
        if s.tables == [] {
          objects := SynonymObjects(s.synonyms);
          assert TableObjects(s.tables) == [];
        } else if s.synonyms == [] {
          objects := TableObjects(s.tables);
          assert SynonymObjects(s.synonyms) == [];
        } else {
          objects := TableObjects(s.tables) + SynonymObjects(s.synonyms);
        }
      } else if s.tables == [] && s.synonyms == [] {
        objects := [];
      } else {
        var p := pattern.value;
        objects := [];
        for k := 0 to |s.tables|
          invariant objects == LikeTables(db, s.tables[..k], p)
        {
          assert s.tables[..k + 1][..k] == s.tables[..k] && s.tables[..k + 1][k] == s.tables[k];
          if db.like(p, s.tables[k].id.name) {
            objects := objects + [TableObject(s.tables[k])];
          }
        }
        assert s.tables[..|s.tables|] == s.tables;
        for k := 0 to |s.synonyms|
          invariant objects == LikeTables(db, s.tables, p) + LikeSynonyms(db, s.synonyms[..k], p)
        {
          assert s.synonyms[..k + 1][..k] == s.synonyms[..k] && s.synonyms[..k + 1][k] == s.synonyms[k];
          if db.like(p, s.synonyms[k].name) {
            objects := objects + [SynonymObject(s.synonyms[k])];
          }
        }
        assert s.synonyms[..|s.synonyms|] == s.synonyms;
      }
    }

    // -------------------------------------------------------------------
    // The table listing

    /** Appends the row of one table (or of the target of a synonym) unless
        a type filter leaves out its type. */
    method GetTablesAdd(result: SimpleResult, catalogValue: Value, schemaValue: Value, tableName: Value, t: Table,
                        synonym: bool, typesSet: Option<set<string>>)
      requires result.columns == TABLES_HEADER
      modifies result
      ensures result.columns == TABLES_HEADER
      ensures result.rows
           == old(result.rows) + Map(TablesAddEntries(catalogValue, schemaValue, tableName, t, synonym, typesSet), TableRow)
    {
      var tableType := if synonym then "SYNONYM" else SqlTableType(t.kind);
      if typesSet.Some? && tableType !in typesSet.value {
        return;
      }
      var e := TableEntry(catalogValue, schemaValue, tableName, tableType, t.comment);
      result.AddRow(TableRow(e));
      assert Map([e], TableRow) == [TableRow(e)];
    }

    /** Appends the row of one schema object: nothing for a hidden table,
        and the target's row under the synonym's own name for a synonym. */
    method GetObjectTablesAdd(result: SimpleResult, catalogValue: Value, schemaValue: Value, o: SchemaObject,
                              typesSet: Option<set<string>>)
      requires result.columns == TABLES_HEADER
      modifies result
      ensures result.columns == TABLES_HEADER
      ensures result.rows == old(result.rows) + Map(ObjectTablesEntries(catalogValue, schemaValue, typesSet)(o), TableRow)
    {
      match o {
        case TableObject(t) =>
          if !t.hidden {
            GetTablesAdd(result, catalogValue, schemaValue, Str(t.id.name), t, false, typesSet);
          } else {
            assert Map(ObjectTablesEntries(catalogValue, schemaValue, typesSet)(o), TableRow) == [];
            assert result.rows + [] == result.rows;
          }
        case SynonymObject(y) =>
          GetTablesAdd(result, catalogValue, schemaValue, Str(y.name), y.synonymFor, true, typesSet);
      }
    }

    /** Appends the rows of the objects of one schema that match the table
        name pattern. */
    method GetSchemaTablesAdd(result: SimpleResult, catalogValue: Value, s: Schema, tablePattern: Option<string>,
                              typesSet: Option<set<string>>)
      requires result.columns == TABLES_HEADER
      modifies result
      ensures result.columns == TABLES_HEADER
      ensures result.rows == old(result.rows) + Map(SchemaTablesEntries(db, catalogValue, tablePattern, typesSet)(s), TableRow)
    {
      var schemaValue := Str(s.name);
      var objects := GetTablesForPattern(s, tablePattern);
      ghost var g := ObjectTablesEntries(catalogValue, schemaValue, typesSet);
      ghost var before := result.rows;
      for j := 0 to |objects|
        invariant result.columns == TABLES_HEADER
        invariant result.rows == before + Map(FlatMap(objects[..j], g), TableRow)
      {
        GetObjectTablesAdd(result, catalogValue, schemaValue, objects[j], typesSet);
        MapFlatMapSnoc(objects, g, TableRow, j);
        AppendAssoc(before, Map(FlatMap(objects[..j], g), TableRow), Map(g(objects[j]), TableRow));
      }
      assert objects[..|objects|] == objects;
    }

    /** Appends the rows of every schema that matches the schema pattern, in
        enumeration order. */
    method GetTablesUnsortedAdd(result: SimpleResult, schemaPattern: Option<string>, tablePattern: Option<string>,
                                typesSet: Option<set<string>>)
      requires result.columns == TABLES_HEADER
      modifies result
      ensures result.columns == TABLES_HEADER
      ensures result.rows == old(result.rows) + Map(TablesUnsorted(db, schemaPattern, tablePattern, typesSet), TableRow)
    {
      var catalogValue := Str(db.shortName);
      var schemas := GetSchemasForPattern(schemaPattern);
      ghost var f := SchemaTablesEntries(db, catalogValue, tablePattern, typesSet);
      ghost var before := result.rows;
      for i := 0 to |schemas|
        invariant result.columns == TABLES_HEADER
        invariant result.rows == before + Map(FlatMap(schemas[..i], f), TableRow)
      {
        GetSchemaTablesAdd(result, catalogValue, schemas[i], tablePattern, typesSet);
        MapFlatMapSnoc(schemas, f, TableRow, i);
        AppendAssoc(before, Map(FlatMap(schemas[..i], f), TableRow), Map(f(schemas[i]), TableRow));
      }
      assert schemas[..|schemas|] == schemas;
    }

    /** The table listing. */
    method GetTables(catalog: Option<string>, schemaPattern: Option<string>, tablePattern: Option<string>,
                     types: Option<seq<string>>) returns (result: SimpleResult)
      ensures fresh(result) && result.columns == TABLES_HEADER
      ensures result.rows == Tables(db, catalog, schemaPattern, tablePattern, types)
    {
      result := new SimpleResult(TABLES_HEADER);
      if !CheckCatalogName(db, catalog) {
        return;
      }
      var typesSet: Option<set<string>> := None;
      if types.Some? {
        var requested := NormalizeTableTypes(types.value);
        if requested == {} {
          assert TypesFilter(types) == Some({});
          return;
        }
        typesSet := Some(requested);
      }
      assert typesSet == TypesFilter(types) && typesSet != Some({});
      ghost var unsorted := Map(TablesUnsorted(db, schemaPattern, tablePattern, typesSet), TableRow);
      assert Tables(db, catalog, schemaPattern, tablePattern, types) == SortBy(unsorted, RowOrder(db.collation, TABLES_ORDER));
      GetTablesUnsortedAdd(result, schemaPattern, tablePattern, typesSet);
      assert result.rows == unsorted;
      result.SortRows(db.collation, TABLES_ORDER);
    }

    /** The table type listing: the five types in sorted order. */
    method GetTableTypes() returns (result: SimpleResult)
      ensures fresh(result) && result.columns == TABLE_TYPES_HEADER
      ensures result.rows == TableTypeRows()
    {
      result := new SimpleResult(TABLE_TYPES_HEADER);
      result.AddRow([Str("BASE TABLE")]);
      result.AddRow([Str("GLOBAL TEMPORARY")]);
      result.AddRow([Str("LOCAL TEMPORARY")]);
      result.AddRow([Str("SYNONYM")]);
      result.AddRow([Str("VIEW")]);
    }

    /** The catalog listing: the one catalog. */
    method GetCatalogs() returns (result: SimpleResult)
      ensures fresh(result) && result.columns == CATALOGS_HEADER
      ensures result.rows == Catalogs(db)
    {
      result := new SimpleResult(CATALOGS_HEADER);
      result.AddRow([Str(db.shortName)]);
    }

    // -------------------------------------------------------------------
    // The column listing

    /** Appends the rows of the columns of one table whose names pass the
        column pattern, in column order. */
    method GetColumnsAdd(result: SimpleResult, catalogValue: Value, schemaValue: Value, tableName: Value, t: Table,
                         columnPattern: Option<string>)
      requires result.columns == COLUMNS_HEADER
      modifies result
      ensures result.columns == COLUMNS_HEADER
      ensures result.rows == old(result.rows)
        + Map(ColumnsAddEntries(db, catalogValue, schemaValue, tableName, t.columns, columnPattern), ColumnRow)
    {
      var columns := t.columns;
      for i := 0 to |columns|
        invariant result.columns == COLUMNS_HEADER
        invariant result.rows == old(result.rows)
          + Map(ColumnsAddEntries(db, catalogValue, schemaValue, tableName, columns[..i], columnPattern), ColumnRow)
      {
        var c := columns[i];
        if NameMatches(db, columnPattern, c.name) {
          result.AddRow(ColumnRow(ColumnEntry(catalogValue, schemaValue, tableName, c, i)));
        }
        ColumnsAddEntriesSnoc(db, catalogValue, schemaValue, tableName, columns, columnPattern, i);
      }
      assert columns[..|columns|] == columns;
    }

    /** Appends the column rows of one schema object: nothing for a hidden
        table, and the target's columns under the synonym's own name for a
        synonym. */
    method GetObjectColumnsAdd(result: SimpleResult, catalogValue: Value, schemaValue: Value, o: SchemaObject,
                               columnPattern: Option<string>)
      requires result.columns == COLUMNS_HEADER
      modifies result
      ensures result.columns == COLUMNS_HEADER
      ensures result.rows == old(result.rows) + Map(ObjectColumnsEntries(db, catalogValue, schemaValue, columnPattern)(o), ColumnRow)
    {
      match o {
        case TableObject(t) =>
          if !t.hidden {
            GetColumnsAdd(result, catalogValue, schemaValue, Str(t.id.name), t, columnPattern);
          } else {
            assert Map(ObjectColumnsEntries(db, catalogValue, schemaValue, columnPattern)(o), ColumnRow) == [];
            assert result.rows + [] == result.rows;
          }
        case SynonymObject(y) =>
          GetColumnsAdd(result, catalogValue, schemaValue, Str(y.name), y.synonymFor, columnPattern);
      }
    }

    /** Appends the column rows of the objects of one schema that match the
        table name pattern. */
    method GetSchemaColumnsAdd(result: SimpleResult, catalogValue: Value, s: Schema, tablePattern: Option<string>,
                               columnPattern: Option<string>)
      requires result.columns == COLUMNS_HEADER
      modifies result
      ensures result.columns == COLUMNS_HEADER
      ensures result.rows == old(result.rows) + Map(SchemaColumnsEntries(db, catalogValue, tablePattern, columnPattern)(s), ColumnRow)
    {
      var schemaValue := Str(s.name);
      var objects := GetTablesForPattern(s, tablePattern);
      ghost var g := ObjectColumnsEntries(db, catalogValue, schemaValue, columnPattern);
      ghost var before := result.rows;
      for j := 0 to |objects|
        invariant result.columns == COLUMNS_HEADER
        invariant result.rows == before + Map(FlatMap(objects[..j], g), ColumnRow)
      {
        GetObjectColumnsAdd(result, catalogValue, schemaValue, objects[j], columnPattern);
        MapFlatMapSnoc(objects, g, ColumnRow, j);
        AppendAssoc(before, Map(FlatMap(objects[..j], g), ColumnRow), Map(g(objects[j]), ColumnRow));
      }
      assert objects[..|objects|] == objects;
    }

    /** The column listing. */
    method GetColumns(catalog: Option<string>, schemaPattern: Option<string>, tablePattern: Option<string>,
                      columnPattern: Option<string>) returns (result: SimpleResult)
      ensures fresh(result) && result.columns == COLUMNS_HEADER
      ensures result.rows == Columns(db, catalog, schemaPattern, tablePattern, columnPattern)
    {
      result := new SimpleResult(COLUMNS_HEADER);
      if !CheckCatalogName(db, catalog) {
        return;
      }
      var catalogValue := Str(db.shortName);
      var schemas := GetSchemasForPattern(schemaPattern);
      ghost var f := SchemaColumnsEntries(db, catalogValue, tablePattern, columnPattern);
      for i := 0 to |schemas|
        invariant result.columns == COLUMNS_HEADER
        invariant result.rows == Map(FlatMap(schemas[..i], f), ColumnRow)
      {
        GetSchemaColumnsAdd(result, catalogValue, schemas[i], tablePattern, columnPattern);
        MapFlatMapSnoc(schemas, f, ColumnRow, i);
      }
      assert schemas[..|schemas|] == schemas;
      result.SortRows(db.collation, COLUMNS_ORDER);
    }

    // -------------------------------------------------------------------
    // The primary-key and best-row-identifier listings

    /** Appends the rows of the columns of one primary key, in key order,
        KEY_SEQ counting from 1. */
    method AddKeyColumnRows(result: SimpleResult, catalogValue: Value, schemaValue: Value, tableValue: Value,
                            c: Constraint)
      requires c.PrimaryKey? && result.columns == PRIMARY_KEYS_HEADER
      modifies result
      ensures result.columns == PRIMARY_KEYS_HEADER
      ensures result.rows == old(result.rows)
        + Map(KeyColumnEntries(catalogValue, schemaValue, tableValue, c.name, c.columns), PrimaryKeyRow)
    {
      var columns := c.columns;
      for i := 0 to |columns|
        invariant result.columns == PRIMARY_KEYS_HEADER
        invariant result.rows
               == old(result.rows) + Map(KeyColumnEntries(catalogValue, schemaValue, tableValue, c.name, columns[..i]),
                                         PrimaryKeyRow)
      {
        var e := PrimaryKeyEntry(catalogValue, schemaValue, tableValue, columns[i].column.name, i + 1, c.name);
        result.AddRow(PrimaryKeyRow(e));
        KeyColumnEntriesSnoc(catalogValue, schemaValue, tableValue, c.name, columns, i);
      }
      assert columns[..|columns|] == columns;
    }

    /** Appends the rows of the primary keys of one table, in constraint
        order. */
    method AddPrimaryKeyRows(result: SimpleResult, catalogValue: Value, schemaValue: Value, t: Table)
      requires result.columns == PRIMARY_KEYS_HEADER
      modifies result
      ensures result.columns == PRIMARY_KEYS_HEADER
      ensures result.rows == old(result.rows)
        + Map(FlatMap(t.constraints, ConstraintPrimaryKeyEntries(catalogValue, schemaValue, Str(t.id.name))),
              PrimaryKeyRow)
    {
      var tableValue := Str(t.id.name);
      ghost var g := ConstraintPrimaryKeyEntries(catalogValue, schemaValue, tableValue);
      ghost var before := result.rows;
      for k := 0 to |t.constraints|
        invariant result.columns == PRIMARY_KEYS_HEADER
        invariant result.rows == before + Map(FlatMap(t.constraints[..k], g), PrimaryKeyRow)
      {
        var c := t.constraints[k];
        if c.PrimaryKey? {
          AddKeyColumnRows(result, catalogValue, schemaValue, tableValue, c);
        } else {
          assert Map(g(c), PrimaryKeyRow) == [];
          assert result.rows + [] == result.rows;
        }
        MapFlatMapSnoc(t.constraints, g, PrimaryKeyRow, k);
        AppendAssoc(before, Map(FlatMap(t.constraints[..k], g), PrimaryKeyRow), Map(g(c), PrimaryKeyRow));
      }
      assert t.constraints[..|t.constraints|] == t.constraints;
    }

    /** The primary-key listing: an error for a null table. */
    method GetPrimaryKeys(catalog: Option<string>, schema: Option<string>, table: Option<string>)
      returns (r: Result<SimpleResult>)
      ensures r.Err? <==> table.None?
      ensures r.Err? ==> r.error == InvalidValue("table")
      ensures r.Ok? ==> fresh(r.value) && r.value.columns == PRIMARY_KEYS_HEADER
      ensures r.Ok? ==> r.value.rows == PrimaryKeys(db, catalog, schema, table).value
    {
      if table.None? {
        return Err(InvalidValue("table"));
      }
      var result := new SimpleResult(PRIMARY_KEYS_HEADER);
      if !CheckCatalogName(db, catalog) {
        return Ok(result);
      }
      var catalogValue := Str(db.shortName);
      var schemas := SchemasFor(db, schema);
      ghost var f := SchemaPrimaryKeyEntries(catalogValue, table.value);
      for i := 0 to |schemas|
        invariant result.columns == PRIMARY_KEYS_HEADER
        invariant result.rows == Map(FlatMap(schemas[..i], f), PrimaryKeyRow)
      {
        var s := schemas[i];
        var found := VisibleTable(s, table.value);
        if found.Some? {
          AddPrimaryKeyRows(result, catalogValue, Str(s.name), found.value);
        }
        FlatMapSnoc(schemas, f, i);
        MapAppend(FlatMap(schemas[..i], f), f(s), PrimaryKeyRow);
      }
      assert schemas[..|schemas|] == schemas;
      result.SortRows(db.collation, PRIMARY_KEYS_ORDER);
      return Ok(result);
    }

    /** Appends the best-row rows of one table: the columns of each of its
        primary keys, in key order. */
    method AddBestRowRows(result: SimpleResult, t: Table)
      requires result.columns == BEST_ROW_HEADER
      modifies result
      ensures result.columns == BEST_ROW_HEADER
      ensures result.rows == old(result.rows) + Map(FlatMap(t.constraints, ConstraintBestRowColumns()), BestRowRow)
    {
      ghost var g := ConstraintBestRowColumns();
      for k := 0 to |t.constraints|
        invariant result.columns == BEST_ROW_HEADER
        invariant result.rows == old(result.rows) + Map(FlatMap(t.constraints[..k], g), BestRowRow)
      {
        var c := t.constraints[k];
        ghost var before := result.rows;
        if c.PrimaryKey? {
          var columns := c.columns;
          ghost var keyColumns := KeyColumns(columns);
          for i := 0 to |columns|
            invariant result.columns == BEST_ROW_HEADER
            invariant result.rows == before + Map(keyColumns[..i], BestRowRow)
          {
            result.AddRow(BestRowRow(columns[i].column));
            assert keyColumns[i] == columns[i].column;
            MapSnoc(keyColumns, BestRowRow, i);
          }
          assert keyColumns[..|columns|] == keyColumns;
        }
        FlatMapSnoc(t.constraints, g, k);
        MapAppend(FlatMap(t.constraints[..k], g), g(c), BestRowRow);
      }
      assert t.constraints[..|t.constraints|] == t.constraints;
    }

    /** The best-row-identifier listing: an error for a null table; the
        scope and nullable arguments are not consulted, and the rows are
        not sorted. */
    method GetBestRowIdentifier(catalog: Option<string>, schema: Option<string>, table: Option<string>, scope: int,
                                nullable: bool) returns (r: Result<SimpleResult>)
      ensures r.Err? <==> table.None?
      ensures r.Err? ==> r.error == InvalidValue("table")
      ensures r.Ok? ==> fresh(r.value) && r.value.columns == BEST_ROW_HEADER
      ensures r.Ok? ==> r.value.rows == BestRowIdentifier(db, catalog, schema, table, scope, nullable).value
    {
      if table.None? {
        return Err(InvalidValue("table"));
      }
      var result := new SimpleResult(BEST_ROW_HEADER);
      if !CheckCatalogName(db, catalog) {
        return Ok(result);
      }
      var schemas := SchemasFor(db, schema);
      ghost var f := SchemaBestRowColumns(table.value);
      for i := 0 to |schemas|
        invariant result.columns == BEST_ROW_HEADER
        invariant result.rows == Map(FlatMap(schemas[..i], f), BestRowRow)
      {
        var s := schemas[i];
        var found := VisibleTable(s, table.value);
        if found.Some? {
          AddBestRowRows(result, found.value);
        }
        FlatMapSnoc(schemas, f, i);
        MapAppend(FlatMap(schemas[..i], f), f(s), BestRowRow);
      }
      assert schemas[..|schemas|] == schemas;
      return Ok(result);
    }

    // -------------------------------------------------------------------
    // The imported-keys, exported-keys and cross-reference listings

    /** Appends the rows of one referential constraint, one per column
        pair. An action without a metadata code fails before any row is
        added; a constraint with fewer referenced than referencing columns
        fails at the first missing index after adding the complete pairs. */
    method AddCrossReferenceResult(result: SimpleResult, catalogValue: Value, fk: Constraint)
      returns (err: Option<MetaError>)
      requires fk.Referential? && result.columns == CROSS_REFERENCE_HEADER
      modifies result
      ensures result.columns == CROSS_REFERENCE_HEADER
      ensures err.None? <==> CrossReferenceEntries(catalogValue, fk).Ok?
      ensures err.Some? ==> CrossReferenceEntries(catalogValue, fk) == Err(err.value)
      ensures err.None? ==> result.rows == old(result.rows) + Map(CrossReferenceEntries(catalogValue, fk).value, CrossRow)
      ensures RefAction(fk.updateAction).Err? || RefAction(fk.deleteAction).Err? ==> result.rows == old(result.rows)
      ensures RefAction(fk.updateAction).Ok? && RefAction(fk.deleteAction).Ok? ==>
        result.rows == old(result.rows)
          + Map(PairEntries(catalogValue, fk, RefAction(fk.updateAction).value, RefAction(fk.deleteAction).value,
                            PairsAdded(fk)), CrossRow)
    {
      var update := RefAction(fk.updateAction);
      if update.Err? {
        return Some(update.error);
      }
      var delete := RefAction(fk.deleteAction);
      if delete.Err? {
        return Some(delete.error);
      }
      for j := 0 to |fk.columns|
        invariant j <= |fk.refColumns|
        invariant result.columns == CROSS_REFERENCE_HEADER
        invariant result.rows
               == old(result.rows) + Map(PairEntries(catalogValue, fk, update.value, delete.value, j), CrossRow)
      {
        if j == |fk.refColumns| {
          return Some(IndexOutOfBounds(j));
        }
        var e := PairEntry(catalogValue, fk, update.value, delete.value, j);
        result.AddRow(CrossRow(e));
        MapAppend(PairEntries(catalogValue, fk, update.value, delete.value, j), [e], CrossRow);
      }
      err := None;
    }

    /** Appends the rows of one constraint of a table if the listing
        selects it. */
    method AddConstraintCrossReferences(result: SimpleResult, dir: Direction, t: Table, c: Constraint)
      returns (err: Option<MetaError>)
      requires result.columns == CROSS_REFERENCE_HEADER
      modifies result
      ensures result.columns == CROSS_REFERENCE_HEADER
      ensures err.None? <==> ConstraintCrossEntries(db, dir, t)(c).Ok?
      ensures err.Some? ==> ConstraintCrossEntries(db, dir, t)(c) == Err(err.value)
      ensures err.None? ==> result.rows == old(result.rows) + Map(ConstraintCrossEntries(db, dir, t)(c).value, CrossRow)
    {
      if ConstraintSelected(db, dir, t, c) {
        err := AddCrossReferenceResult(result, Str(db.shortName), c);
      } else {
        assert Map(ConstraintCrossEntries(db, dir, t)(c).value, CrossRow) == [];
        assert result.rows + [] == result.rows;
        err := None;
      }
    }

    /** Appends the rows of the constraints of one table that a listing
        selects, in constraint order, stopping at the first that fails. */
    method AddTableCrossReferences(result: SimpleResult, dir: Direction, t: Table) returns (err: Option<MetaError>)
      requires result.columns == CROSS_REFERENCE_HEADER
      modifies result
      ensures result.columns == CROSS_REFERENCE_HEADER
      ensures err.None? <==> FlatMapResult(t.constraints, ConstraintCrossEntries(db, dir, t)).Ok?
      ensures err.Some? ==> FlatMapResult(t.constraints, ConstraintCrossEntries(db, dir, t)) == Err(err.value)
      ensures err.None? ==>
        result.rows == old(result.rows) + Map(FlatMapResult(t.constraints, ConstraintCrossEntries(db, dir, t)).value, CrossRow)
    {
      ghost var g := ConstraintCrossEntries(db, dir, t);
      ghost var before := result.rows;
      for k := 0 to |t.constraints|
        invariant result.columns == CROSS_REFERENCE_HEADER
        invariant FlatMapResult(t.constraints[..k], g).Ok?
        invariant result.rows == before + Map(FlatMapResult(t.constraints[..k], g).value, CrossRow)
      {
        var e := AddConstraintCrossReferences(result, dir, t, t.constraints[k]);
        if e.Some? {
          FlatMapResultErr(t.constraints, g, k);
          return e;
        }
        MapFlatMapResultSnoc(t.constraints, g, CrossRow, k);
        AppendAssoc(before, Map(FlatMapResult(t.constraints[..k], g).value, CrossRow),
                    Map(g(t.constraints[k]).value, CrossRow));
      }
      assert t.constraints[..|t.constraints|] == t.constraints;
      err := None;
    }

    /** Appends the rows of the visible table of that name in one schema, if
        there is one. */
    method AddSchemaCrossReferences(result: SimpleResult, dir: Direction, s: Schema, table: string)
      returns (err: Option<MetaError>)
      requires result.columns == CROSS_REFERENCE_HEADER
      modifies result
      ensures result.columns == CROSS_REFERENCE_HEADER
      ensures err.None? <==> SchemaCrossEntries(db, dir, table)(s).Ok?
      ensures err.Some? ==> SchemaCrossEntries(db, dir, table)(s) == Err(err.value)
      ensures err.None? ==> result.rows == old(result.rows) + Map(SchemaCrossEntries(db, dir, table)(s).value, CrossRow)
    {
      var found := VisibleTable(s, table);
      if found.Some? {
        err := AddTableCrossReferences(result, dir, found.value);
      } else {
        assert Map(SchemaCrossEntries(db, dir, table)(s).value, CrossRow) == [];
        assert result.rows + [] == result.rows;
        err := None;
      }
    }

    /** Appends the rows of a listing in enumeration order: the selected
        constraints of the visible table of that name in each selected
        schema; the first failing constraint fails the listing. */
    method AddCrossReferences(result: SimpleResult, dir: Direction, schema: Option<string>, table: string)
      returns (err: Option<MetaError>)
      requires result.columns == CROSS_REFERENCE_HEADER
      modifies result
      ensures result.columns == CROSS_REFERENCE_HEADER
      ensures err.None? <==> CrossUnsorted(db, dir, schema, table).Ok?
      ensures err.Some? ==> CrossUnsorted(db, dir, schema, table) == Err(err.value)
      ensures err.None? ==> result.rows == old(result.rows) + Map(CrossUnsorted(db, dir, schema, table).value, CrossRow)
    {
      var schemas := SchemasFor(db, schema);
      ghost var f := SchemaCrossEntries(db, dir, table);
      ghost var before := result.rows;
      for i := 0 to |schemas|
        invariant result.columns == CROSS_REFERENCE_HEADER
        invariant FlatMapResult(schemas[..i], f).Ok?
        invariant result.rows == before + Map(FlatMapResult(schemas[..i], f).value, CrossRow)
      {
        var e := AddSchemaCrossReferences(result, dir, schemas[i], table);
        if e.Some? {
          FlatMapResultErr(schemas, f, i);
          return e;
        }
        MapFlatMapResultSnoc(schemas, f, CrossRow, i);
        AppendAssoc(before, Map(FlatMapResult(schemas[..i], f).value, CrossRow), Map(f(schemas[i]).value, CrossRow));
      }
      assert schemas[..|schemas|] == schemas;
      err := None;
    }

    /** The imported-keys listing, sorted like the other two key listings
        on the referencing table's columns and KEY_SEQ. */
    method GetImportedKeys(catalog: Option<string>, schema: Option<string>, table: Option<string>)
      returns (r: Result<SimpleResult>)
      ensures r.Err? <==> ImportedKeysAsWritten(db, catalog, schema, table).Err?
      ensures r.Err? ==> r.error == ImportedKeysAsWritten(db, catalog, schema, table).error
      ensures r.Ok? ==> fresh(r.value) && r.value.columns == CROSS_REFERENCE_HEADER
      ensures r.Ok? ==> r.value.rows == ImportedKeysAsWritten(db, catalog, schema, table).value
    {
      if table.None? {
        return Err(InvalidValue("table"));
      }
      var result := new SimpleResult(CROSS_REFERENCE_HEADER);
      if !CheckCatalogName(db, catalog) {
        return Ok(result);
      }
      ghost var entries := CrossUnsorted(db, Imported, schema, table.value);
      assert ImportedKeysAsWritten(db, catalog, schema, table) == SortedCrossRows(db, entries, CROSS_REFERENCE_ORDER);
      var err := AddCrossReferences(result, Imported, schema, table.value);
      if err.Some? {
        return Err(err.value);
      }
      assert result.rows == Map(entries.value, CrossRow);
      SortCrossReferenceResult(result);
      return Ok(result);
    }

    /** The exported-keys listing. */
    method GetExportedKeys(catalog: Option<string>, schema: Option<string>, table: Option<string>)
      returns (r: Result<SimpleResult>)
      ensures r.Err? <==> ExportedKeys(db, catalog, schema, table).Err?
      ensures r.Err? ==> r.error == ExportedKeys(db, catalog, schema, table).error
      ensures r.Ok? ==> fresh(r.value) && r.value.columns == CROSS_REFERENCE_HEADER
      ensures r.Ok? ==> r.value.rows == ExportedKeys(db, catalog, schema, table).value
    {
      if table.None? {
        return Err(InvalidValue("table"));
      }
      var result := new SimpleResult(CROSS_REFERENCE_HEADER);
      if !CheckCatalogName(db, catalog) {
        return Ok(result);
      }
      ghost var entries := CrossUnsorted(db, Exported, schema, table.value);
      assert ExportedKeys(db, catalog, schema, table) == SortedCrossRows(db, entries, CROSS_REFERENCE_ORDER);
      var err := AddCrossReferences(result, Exported, schema, table.value);
      if err.Some? {
        return Err(err.value);
      }
      assert result.rows == Map(entries.value, CrossRow);
      SortCrossReferenceResult(result);
      return Ok(result);
    }

    /** The cross-reference listing of a primary and a foreign table. */
    method GetCrossReference(primaryCatalog: Option<string>, primarySchema: Option<string>,
                             primaryTable: Option<string>, foreignCatalog: Option<string>,
                             foreignSchema: Option<string>, foreignTable: Option<string>)
      returns (r: Result<SimpleResult>)
      ensures r.Err? <==>
        CrossReference(db, primaryCatalog, primarySchema, primaryTable, foreignCatalog, foreignSchema, foreignTable).Err?
      ensures r.Err? ==>
                r.error == CrossReference(db, primaryCatalog, primarySchema, primaryTable, foreignCatalog, foreignSchema,
                                          foreignTable).error
      ensures r.Ok? ==> fresh(r.value) && r.value.columns == CROSS_REFERENCE_HEADER
      ensures r.Ok? ==>
                r.value.rows == CrossReference(db, primaryCatalog, primarySchema, primaryTable, foreignCatalog,
                                               foreignSchema, foreignTable).value
    {
      if primaryTable.None? {
        return Err(InvalidValue("primaryTable"));
      }
      if foreignTable.None? {
        return Err(InvalidValue("foreignTable"));
      }
      var result := new SimpleResult(CROSS_REFERENCE_HEADER);
      if !CheckCatalogName(db, primaryCatalog) || !CheckCatalogName(db, foreignCatalog) {
        return Ok(result);
      }
      ghost var entries := CrossUnsorted(db, Cross(primarySchema, primaryTable.value), foreignSchema, foreignTable.value);
      assert CrossReference(db, primaryCatalog, primarySchema, primaryTable, foreignCatalog, foreignSchema, foreignTable)
          == SortedCrossRows(db, entries, CROSS_REFERENCE_ORDER);
      var err := AddCrossReferences(result, Cross(primarySchema, primaryTable.value), foreignSchema, foreignTable.value);
      if err.Some? {
        return Err(err.value);
      }
      assert result.rows == Map(entries.value, CrossRow);
      SortCrossReferenceResult(result);
      return Ok(result);
    }

    /** Sorts cross-reference rows on the referencing table's columns and
        KEY_SEQ. */
    method SortCrossReferenceResult(result: SimpleResult)
      modifies result
      ensures result.columns == old(result.columns)
      ensures result.rows == SortBy(old(result.rows), RowOrder(db.collation, CROSS_REFERENCE_ORDER))
    {
      result.SortRows(db.collation, CROSS_REFERENCE_ORDER);
    }

    // -------------------------------------------------------------------
    // The index listing

    /** Appends the rows of one index, one per index column in index
        order, with the type code computed once. */
    method AddIndexColumnRows(catalogValue: Value, schemaValue: Value, t: Table, index: Index, approximate: bool,
                              result: SimpleResult)
      requires result.columns == INDEX_INFO_HEADER
      modifies result
      ensures result.columns == INDEX_INFO_HEADER
      ensures result.rows == old(result.rows)
        + Map(IndexColumnEntries(catalogValue, schemaValue, t, index, approximate, db.pageSize, |index.columns|),
              IndexRow)
    {
      var code := IndexType(index);
      var columns := index.columns;
      for i := 0 to |columns|
        invariant result.columns == INDEX_INFO_HEADER
        invariant result.rows
               == old(result.rows)
                  + Map(IndexColumnEntries(catalogValue, schemaValue, t, index, approximate, db.pageSize, i), IndexRow)
      {
        var c := columns[i];
        var e := IndexEntry(catalogValue, schemaValue, t.id.name, !index.unique, index.name, code, i + 1,
                            c.column.name, c.sortType & DESCENDING != 0,
                            if approximate then index.rowCountApproximation else index.rowCount,
                            index.diskSpaceUsed / db.pageSize);
        IndexColumnEntriesSnoc(catalogValue, schemaValue, t, index, approximate, db.pageSize, code, i);
        result.AddRow(IndexRow(e));
      }
    }

    /** Appends the rows of the listed indexes of one table, in index
        order. */
    method GetTableIndexInfo(catalogValue: Value, schemaValue: Value, t: Table, unique: bool, approximate: bool,
                             result: SimpleResult)
      requires result.columns == INDEX_INFO_HEADER
      modifies result
      ensures result.columns == INDEX_INFO_HEADER
      ensures result.rows == old(result.rows)
        + Map(TableIndexEntries(catalogValue, schemaValue, t, unique, approximate, db.pageSize), IndexRow)
    {
      ghost var g := IndexEntries(catalogValue, schemaValue, t, unique, approximate, db.pageSize);
      ghost var before := result.rows;
      for k := 0 to |t.indexes|
        invariant result.columns == INDEX_INFO_HEADER
        invariant result.rows == before + Map(FlatMap(t.indexes[..k], g), IndexRow)
      {
        var index := t.indexes[k];
        if IndexListed(index, unique) {
          AddIndexColumnRows(catalogValue, schemaValue, t, index, approximate, result);
        } else {
          assert Map(g(index), IndexRow) == [];
          assert result.rows + [] == result.rows;
        }
        MapFlatMapSnoc(t.indexes, g, IndexRow, k);
        AppendAssoc(before, Map(FlatMap(t.indexes[..k], g), IndexRow), Map(g(index), IndexRow));
      }
      assert t.indexes[..|t.indexes|] == t.indexes;
    }

    /** The index listing: an error for a null table. */
    method GetIndexInfo(catalog: Option<string>, schema: Option<string>, table: Option<string>, unique: bool,
                        approximate: bool) returns (r: Result<SimpleResult>)
      ensures r.Err? <==> table.None?
      ensures r.Err? ==> r.error == InvalidValue("table")
      ensures r.Ok? ==> fresh(r.value) && r.value.columns == INDEX_INFO_HEADER
      ensures r.Ok? ==> r.value.rows == IndexInfo(db, catalog, schema, table, unique, approximate).value
    {
      if table.None? {
        return Err(InvalidValue("table"));
      }
      var result := new SimpleResult(INDEX_INFO_HEADER);
      if !CheckCatalogName(db, catalog) {
        return Ok(result);
      }
      var catalogValue := Str(db.shortName);
      var schemas := SchemasFor(db, schema);
      ghost var f := SchemaIndexEntries(catalogValue, table.value, unique, approximate, db.pageSize);
      for i := 0 to |schemas|
        invariant result.columns == INDEX_INFO_HEADER
        invariant result.rows == Map(FlatMap(schemas[..i], f), IndexRow)
      {
        var s := schemas[i];
        var found := VisibleTable(s, table.value);
        if found.Some? {
          GetTableIndexInfo(catalogValue, Str(s.name), found.value, unique, approximate, result);
        }
        FlatMapSnoc(schemas, f, i);
        MapAppend(FlatMap(schemas[..i], f), f(s), IndexRow);
      }
      assert schemas[..|schemas|] == schemas;
      result.SortRows(db.collation, INDEX_INFO_ORDER);
      return Ok(result);
    }

    // -------------------------------------------------------------------
    // The schema listing

    /** The names of the schemas a pattern selects, in schema order: all of
        them for null, otherwise those the pattern matches. */
    method GetSchemaNames(pattern: Option<string>) returns (list: seq<string>)
      ensures list == SchemaNames(db, pattern)
    {
      var all := db.schemas;
      list := [];
      if pattern.None? {
        for k := 0 to |all|
          invariant list == Map(all[..k], SchemaName)
        {
          MapSnoc(all, SchemaName, k);
          list := list + [all[k].name];
        }
      } else {
        var p := pattern.value;
        for k := 0 to |all|
          invariant list == Map(LikeSchemas(db, all[..k], p), SchemaName)
        {
          assert all[..k + 1][..k] == all[..k] && all[..k + 1][k] == all[k];
          ghost var done := LikeSchemas(db, all[..k], p);
          if db.like(p, all[k].name) {
            assert LikeSchemas(db, all[..k + 1], p) == done + [all[k]];
            MapAppend(done, [all[k]], SchemaName);
            assert Map([all[k]], SchemaName) == [all[k].name];
            list := list + [all[k].name];
          } else {
            assert LikeSchemas(db, all[..k + 1], p) == done + [];
            assert done + [] == done;
          }
        }
      }
      assert all[..|all|] == all;
    }

    /** The schema listing: the selected names sorted with the kept
        comparator, each with the catalog. */
    method GetSchemas(catalog: Option<string>, pattern: Option<string>) returns (result: SimpleResult)
      requires Valid()
      modifies this`comparator
      ensures Valid()
      ensures fresh(result) && result.columns == SCHEMAS_HEADER
      ensures result.rows == Schemas(db, catalog, pattern)
    {
      result := new SimpleResult(SCHEMAS_HEADER);
      if !CheckCatalogName(db, catalog) {
        return;
      }
      var list := GetSchemaNames(pattern);
      var cmp := GetComparator();
      list := SortBy(list, cmp);
      var c := Str(db.shortName);
      for k := 0 to |list|
        invariant Valid()
        invariant result.columns == SCHEMAS_HEADER
        invariant result.rows == Map(list[..k], SchemaRow(db.shortName))
      {
        result.AddRow([Str(list[k]), c]);
        MapSnoc(list, SchemaRow(db.shortName), k);
      }
      assert list[..|list|] == list;
    }
  }
}
