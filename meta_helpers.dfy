/** The small rules every metadata operation shares: the catalog-name check,
    which schemas and schema objects an argument selects, the schema check
    of the cross-reference listing, and the LIKE patterns handed to the
    information-schema queries. */
module MetaHelpers {
  import opened Values
  import opened Catalog

  /** The name of the main schema. */
  const SCHEMA_MAIN := "PUBLIC"

  /** The LIKE pattern that matches every name. */
  const PERCENT := Str("%")

  /** A name pattern filters by LIKE; a null pattern does not filter. */
  predicate NameMatches(db: Database, pattern: Option<string>, name: string) {
    pattern.None? || db.like(pattern.value, name)
  }

  /** A null or empty catalog argument selects the only catalog; any other
      must equal the database's short name as an identifier. */
  predicate CheckCatalogName(db: Database, catalog: Option<string>) {
    if catalog.Some? && catalog.value != "" then
      db.equalsIdentifiers(catalog.value, db.shortName)
    else
      true
  }

  /** The schemas an exact schema argument selects: all of them for null,
      the main schema for "", otherwise the schema of that name if any. */
  function SchemasFor(db: Database, schema: Option<string>): (r: seq<Schema>)
    ensures schema.None? ==> r == db.schemas
    ensures schema == Some("") ==> r == [db.mainSchema]
    ensures schema.Some? && schema.value != "" ==>
      |r| <= 1 &&
      (forall x :: x in r ==> x in db.schemas && x.name == schema.value) &&
      ((exists x :: x in db.schemas && x.name == schema.value) ==> |r| == 1)
  {
    if schema.None? then db.schemas
    else if schema.value == "" then [db.mainSchema]
    else
      match FindSchema(db.schemas, schema.value)
      case Some(s) => [s]
      case None => []
  }

  /** The schemas of `schemas` whose names match the LIKE pattern, in order. */
  function LikeSchemas(db: Database, schemas: seq<Schema>, pattern: string): seq<Schema>
    decreases |schemas|
  {
    if schemas == [] then []
    else
      var n := |schemas| - 1;
      LikeSchemas(db, schemas[..n], pattern) + (if db.like(pattern, schemas[n].name) then [schemas[n]] else [])
  }

  /** The schemas a schema-name pattern selects: all of them for null, the
      main schema for "", otherwise those whose names match it. */
  function SchemasForPattern(db: Database, pattern: Option<string>): seq<Schema> {
    if pattern.None? then db.schemas
    else if pattern.value == "" then [db.mainSchema]
    else LikeSchemas(db, db.schemas, pattern.value)
  }

  function TableObjects(tables: seq<Table>): (r: seq<SchemaObject>)
    ensures |r| == |tables| && forall i :: 0 <= i < |tables| ==> r[i] == TableObject(tables[i])
  {
    seq(|tables|, i requires 0 <= i < |tables| => TableObject(tables[i]))
  }

  function SynonymObjects(synonyms: seq<TableSynonym>): (r: seq<SchemaObject>)
    ensures |r| == |synonyms| && forall i :: 0 <= i < |synonyms| ==> r[i] == SynonymObject(synonyms[i])
  {
    seq(|synonyms|, i requires 0 <= i < |synonyms| => SynonymObject(synonyms[i]))
  }

  function LikeTables(db: Database, tables: seq<Table>, pattern: string): seq<SchemaObject>
    decreases |tables|
  {
    if tables == [] then []
    else
      var n := |tables| - 1;
      LikeTables(db, tables[..n], pattern) + (if db.like(pattern, tables[n].id.name) then [TableObject(tables[n])] else [])
  }

  function LikeSynonyms(db: Database, synonyms: seq<TableSynonym>, pattern: string): seq<SchemaObject>
    decreases |synonyms|
  {
    if synonyms == [] then []
    else
      var n := |synonyms| - 1;
      LikeSynonyms(db, synonyms[..n], pattern) + (if db.like(pattern, synonyms[n].name) then [SynonymObject(synonyms[n])] else [])
  }

  /** The tables and views, then the synonyms, of a schema whose names match
      a table-name pattern (all of them for a null pattern). */
  function ObjectsForPattern(db: Database, s: Schema, pattern: Option<string>): seq<SchemaObject> {
    if pattern.None? then TableObjects(s.tables) + SynonymObjects(s.synonyms)
    else LikeTables(db, s.tables, pattern.value) + LikeSynonyms(db, s.synonyms, pattern.value)
  }

  predicate ObjectOf(s: Schema, o: SchemaObject) {
    match o
    case TableObject(t) => t in s.tables
    case SynonymObject(y) => y in s.synonyms
  }

  /** Whether a schema (given by name) passes an exact schema argument: null
      passes every schema, "" only the main schema, any other name the
      schema that equals it as an identifier. */
  predicate CheckSchema(db: Database, schemaName: Option<string>, schema: string) {
    if schemaName.None? then true
    else if schemaName.value == "" then schema == db.mainSchema.name
    else db.equalsIdentifiers(schemaName.value, schema)
  }

  /** The LIKE pattern for a name argument: null matches everything. */
  function GetPattern(pattern: Option<string>): Value {
    if pattern.None? then PERCENT else Str(pattern.value)
  }

  /** The LIKE pattern for a schema argument: null matches everything, ""
      means the main schema. */
  function GetSchemaPattern(pattern: Option<string>): Value {
    if pattern.None? then PERCENT
    else if pattern.value == "" then Str(SCHEMA_MAIN)
    else Str(pattern.value)
  }

  /** The LIKE pattern for a catalog argument: null and "" match everything. */
  function GetCatalogPattern(pattern: Option<string>): Value {
    if pattern.None? || pattern.value == "" then PERCENT else Str(pattern.value)
  }

  // ---------------------------------------------------------------------
  // What the selections contain

  lemma {:induction false} LikeSchemasMembers(db: Database, schemas: seq<Schema>, pattern: string, x: Schema)
    ensures x in LikeSchemas(db, schemas, pattern) <==> x in schemas && db.like(pattern, x.name)
    decreases |schemas|
  {
    if schemas != [] {
      var n := |schemas| - 1;
      LikeSchemasMembers(db, schemas[..n], pattern, x);
      assert schemas == schemas[..n] + [schemas[n]];
    }
  }

  /** A schema pattern selects all schemas (null), exactly the main schema
      (""), or exactly the schemas whose names match it. */
  lemma SchemasForPatternMembers(db: Database, pattern: Option<string>, x: Schema)
    ensures pattern.None? ==> (x in SchemasForPattern(db, pattern) <==> x in db.schemas)
    ensures pattern == Some("") ==> (x in SchemasForPattern(db, pattern) <==> x == db.mainSchema)
    ensures pattern.Some? && pattern.value != "" ==>
      (x in SchemasForPattern(db, pattern) <==> x in db.schemas && db.like(pattern.value, x.name))
  {
    if pattern.Some? && pattern.value != "" {
      LikeSchemasMembers(db, db.schemas, pattern.value, x);
    }
  }

  lemma {:induction false} LikeTablesMembers(db: Database, tables: seq<Table>, pattern: string, o: SchemaObject)
    ensures o in LikeTables(db, tables, pattern) <==>
      o.TableObject? && o.table in tables && db.like(pattern, o.table.id.name)
    decreases |tables|
  {
    if tables != [] {
      var n := |tables| - 1;
      LikeTablesMembers(db, tables[..n], pattern, o);
      assert tables == tables[..n] + [tables[n]];
    }
  }

  lemma {:induction false} LikeSynonymsMembers(db: Database, synonyms: seq<TableSynonym>, pattern: string, o: SchemaObject)
    ensures o in LikeSynonyms(db, synonyms, pattern) <==>
      o.SynonymObject? && o.synonym in synonyms && db.like(pattern, o.synonym.name)
    decreases |synonyms|
  {
    if synonyms != [] {
      var n := |synonyms| - 1;
      LikeSynonymsMembers(db, synonyms[..n], pattern, o);
      assert synonyms == synonyms[..n] + [synonyms[n]];
    }
  }

  /** A table pattern selects exactly the schema's tables and synonyms whose
      names pass it, and every one of them when it is null. */
  lemma ObjectsForPatternMembers(db: Database, s: Schema, pattern: Option<string>, o: SchemaObject)
    ensures o in ObjectsForPattern(db, s, pattern) <==> ObjectOf(s, o) && NameMatches(db, pattern, ObjectName(o))
  {
    if pattern.Some? {
      LikeTablesMembers(db, s.tables, pattern.value, o);
      LikeSynonymsMembers(db, s.synonyms, pattern.value, o);
    } else {
      var ts, ys := TableObjects(s.tables), SynonymObjects(s.synonyms);
      if o.TableObject? && o.table in s.tables {
        var i :| 0 <= i < |s.tables| && s.tables[i] == o.table;
        assert ts[i] == o;
      }
      if o.SynonymObject? && o.synonym in s.synonyms {
        var i :| 0 <= i < |s.synonyms| && s.synonyms[i] == o.synonym;
        assert ys[i] == o;
      }
    }
  }

  /** Under exact identifier equality, the schema check of the
      cross-reference listing accepts exactly the schemas that the same
      argument selects for the other key listings. */
  lemma CheckSchemaAgreesWithSchemasFor(db: Database, schemaName: Option<string>, x: Schema)
    requires WellFormed(db) && x in db.schemas
    requires forall a, b :: db.equalsIdentifiers(a, b) <==> a == b
    ensures CheckSchema(db, schemaName, x.name) <==> x in SchemasFor(db, schemaName)
  {
    if schemaName.Some? {
      var i :| 0 <= i < |db.schemas| && db.schemas[i] == x;
      if schemaName.value == "" {
        var j :| 0 <= j < |db.schemas| && db.schemas[j] == db.mainSchema;
        assert x.name == db.mainSchema.name ==> i == j;
      } else if x.name == schemaName.value {
        var y := FindSchema(db.schemas, schemaName.value).value;
        var j :| 0 <= j < |db.schemas| && db.schemas[j] == y;
        assert i == j;
      }
    }
  }

  /** The pattern handed to an information-schema query selects the same
      names as the in-memory filter, provided "%" matches every name. */
  lemma GetPatternAgreesWithFilter(db: Database, pattern: Option<string>, name: string)
    requires forall n :: db.like("%", n)
    ensures db.like(GetPattern(pattern).s, name) <==> NameMatches(db, pattern, name)
  {
  }

  /** The catalog pattern handed to an information-schema query agrees with
      the catalog-name check: a null or empty argument passes the check and
      its pattern matches the database's short name; any other argument is
      itself the pattern, and a pattern that matches only names equal to it
      as identifiers selects the catalog exactly when the check passes. */
  lemma GetCatalogPatternAgreesWithCheckCatalogName(db: Database, catalog: Option<string>)
    requires forall n :: db.like("%", n)
    requires catalog.Some? && catalog.value != "" ==>
      forall n :: db.like(catalog.value, n) <==> db.equalsIdentifiers(catalog.value, n)
    ensures catalog.None? || catalog.value == "" ==> GetCatalogPattern(catalog) == PERCENT
    ensures catalog.Some? && catalog.value != "" ==> GetCatalogPattern(catalog) == Str(catalog.value)
    ensures db.like(GetCatalogPattern(catalog).s, db.shortName) <==> CheckCatalogName(db, catalog)
  {
  }

  /** The schema pattern handed to an information-schema query selects the
      same schemas as the in-memory schema selection, provided "%" matches
      every name, the main schema is PUBLIC and the pattern PUBLIC matches
      only that name. */
  lemma GetSchemaPatternAgreesWithSchemasForPattern(db: Database, pattern: Option<string>, x: Schema)
    requires WellFormed(db) && x in db.schemas
    requires db.mainSchema.name == SCHEMA_MAIN
    requires forall n :: db.like("%", n)
    requires forall n :: db.like(SCHEMA_MAIN, n) <==> n == SCHEMA_MAIN
    ensures db.like(GetSchemaPattern(pattern).s, x.name) <==> x in SchemasForPattern(db, pattern)
  {
    SchemasForPatternMembers(db, pattern, x);
    if pattern == Some("") {
      var i :| 0 <= i < |db.schemas| && db.schemas[i] == x;
      var j :| 0 <= j < |db.schemas| && db.schemas[j] == db.mainSchema;
      assert x.name == SCHEMA_MAIN ==> i == j;
    }
  }
}
