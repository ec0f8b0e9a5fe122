/** What the schema listing and the catalog listing contain: the names of
    the schemas a pattern selects, sorted by the collation, each with the
    one catalog; and that one catalog. */
module SchemaRows {
  import opened Values
  import opened Sorting
  import opened Catalog
  import opened SimpleResults
  import opened MetaHelpers

  const SCHEMAS_HEADER: seq<ResultColumn> := [ResultColumn("TABLE_SCHEM", Varchar), ResultColumn("TABLE_CATALOG", Varchar)]

  const CATALOGS_HEADER: seq<ResultColumn> := [ResultColumn("TABLE_CAT", Varchar)]

  function SchemaName(s: Schema): string {
    s.name
  }

  /** The names of the schemas a pattern selects, in schema order: all of
      them for null, otherwise those the pattern matches (an empty pattern
      is an ordinary pattern here). */
  function SchemaNames(db: Database, pattern: Option<string>): seq<string> {
    if pattern.None? then Map(db.schemas, SchemaName)
    else Map(LikeSchemas(db, db.schemas, pattern.value), SchemaName)
  }

  /** The row of one schema name. */
  function SchemaRow(catalogName: string): string -> Row {
    (name: string) => [Str(name), Str(catalogName)]
  }

  /** The rows of the schema listing: none for a foreign catalog, otherwise
      one per selected schema, sorted by name under the collation. */
  function Schemas(db: Database, catalog: Option<string>, pattern: Option<string>): (r: seq<Row>)
    ensures !CheckCatalogName(db, catalog) ==> r == []
    ensures CheckCatalogName(db, catalog) ==> |r| == |SchemaNames(db, pattern)|
  {
    if !CheckCatalogName(db, catalog) then []
    else Map(SortBy(SchemaNames(db, pattern), db.collation), SchemaRow(db.shortName))
  }

  /** A name is listed exactly when a schema of that name passes the
      pattern. */
  lemma SchemaNamesMembers(db: Database, pattern: Option<string>, name: string)
    ensures name in SchemaNames(db, pattern) <==> exists s :: s in db.schemas && NameMatches(db, pattern, s.name) && s.name == name
  {
    var source := if pattern.None? then db.schemas else LikeSchemas(db, db.schemas, pattern.value);
    MapMember(source, SchemaName, name);
    if name in SchemaNames(db, pattern) {
      var i :| 0 <= i < |source| && name == SchemaName(source[i]);
      if pattern.Some? {
        LikeSchemasMembers(db, db.schemas, pattern.value, source[i]);
      }
    }
    if exists s :: s in db.schemas && NameMatches(db, pattern, s.name) && s.name == name {
      var s :| s in db.schemas && NameMatches(db, pattern, s.name) && s.name == name;
      if pattern.Some? {
        LikeSchemasMembers(db, db.schemas, pattern.value, s);
      }
      var i :| 0 <= i < |source| && source[i] == s;
      assert name == SchemaName(source[i]);
    }
  }

  /** Every row of the schema listing is the row of a schema that passes
      the pattern, and every such schema has its row, when the catalog
      passes. */
  lemma SchemasMembers(db: Database, catalog: Option<string>, pattern: Option<string>, r: Row)
    ensures r in Schemas(db, catalog, pattern) <==>
      CheckCatalogName(db, catalog)
      && exists s :: s in db.schemas && NameMatches(db, pattern, s.name) && r == [Str(s.name), Str(db.shortName)]
  {
    if CheckCatalogName(db, catalog) {
      var names := SchemaNames(db, pattern);
      var sorted := SortBy(names, db.collation);
      MapMember(sorted, SchemaRow(db.shortName), r);
      if r in Schemas(db, catalog, pattern) {
        var i :| 0 <= i < |sorted| && r == SchemaRow(db.shortName)(sorted[i]);
        SortByMembers(names, db.collation, sorted[i]);
        SchemaNamesMembers(db, pattern, sorted[i]);
      }
      if exists s :: s in db.schemas && NameMatches(db, pattern, s.name) && r == [Str(s.name), Str(db.shortName)] {
        var s :| s in db.schemas && NameMatches(db, pattern, s.name) && r == [Str(s.name), Str(db.shortName)];
        SchemaNamesMembers(db, pattern, s.name);
        SortByMembers(names, db.collation, s.name);
        var i :| 0 <= i < |sorted| && sorted[i] == s.name;
        assert r == SchemaRow(db.shortName)(sorted[i]);
      }
    }
  }

  /** The schema listing is in ascending collation order of TABLE_SCHEM,
      and lists each selected name as often as it is selected. */
  lemma SchemasSorted(db: Database, catalog: Option<string>, pattern: Option<string>)
    requires TotalPreorder(db.collation) && CheckCatalogName(db, catalog)
    ensures forall i, j :: 0 <= i < j < |Schemas(db, catalog, pattern)| ==>
      db.collation(Schemas(db, catalog, pattern)[i][0].s, Schemas(db, catalog, pattern)[j][0].s) <= 0
    ensures multiset(SortBy(SchemaNames(db, pattern), db.collation)) == multiset(SchemaNames(db, pattern))
  {
    var sorted := SortBy(SchemaNames(db, pattern), db.collation);
    SortBySorted(SchemaNames(db, pattern), db.collation);
    var rows: seq<Row> := Schemas(db, catalog, pattern);
    forall i, j | 0 <= i < j < |rows| ensures db.collation(rows[i][0].s, rows[j][0].s) <= 0 {
      assert rows[i] == SchemaRow(db.shortName)(sorted[i]) && rows[j] == SchemaRow(db.shortName)(sorted[j]);
    }
  }

  /** The catalog listing: the one catalog, by the database's short name. */
  function Catalogs(db: Database): (r: seq<Row>)
    ensures |r| == 1 && r[0] == [Str(db.shortName)]
  {
    [[Str(db.shortName)]]
  }
}
