/** The in-memory catalog the metadata engine reads: one database with its
    schemas, tables, synonyms, columns, constraints and indexes, and the
    database services the engine calls (identifier comparison, the LIKE
    matcher, the collation). Everything here is an immutable snapshot. */
module Catalog {
  import opened Values

  /** The kind of a table, reported through its SQL table type. */
  datatype TableKind = BaseTable | GlobalTemporary | LocalTemporary | View

  function SqlTableType(k: TableKind): string {
    match k
    case BaseTable => "BASE TABLE"
    case GlobalTemporary => "GLOBAL TEMPORARY"
    case LocalTemporary => "LOCAL TEMPORARY"
    case View => "VIEW"
  }

  /** A column's type together with what the data-type registry says about
      it: the JDBC type code and name, whether it is numeric, whether it has
      a scale. */
  datatype ColumnType = ColumnType(
    sqlType: int,
    typeName: string,
    precision: int,
    scale: int,
    numeric: bool,
    supportsScale: bool)

  datatype Column = Column(
    name: string,
    colType: ColumnType,
    nullable: bool,
    generated: bool,
    autoIncrement: bool,
    defaultSQL: Option<string>,
    comment: Option<string>)

  /** A column of a key or an index with its sort flags (bit 0: descending). */
  datatype IndexColumn = IndexColumn(column: Column, sortType: bv32)

  /** The identity of a table object: its schema's name and its own name,
      which are unique together. */
  datatype TableId = TableId(schema: string, name: string)

  /** A referential action. `Other` stands for any action value the mapping
      to metadata codes does not list. */
  datatype ActionType = Cascade | Restrict | SetDefault | SetNull | Other(code: int)

  datatype Constraint =
    | PrimaryKey(name: string, columns: seq<IndexColumn>)
    | Unique(name: string, columns: seq<IndexColumn>)
    | Referential(
        name: string,
        table: TableId,                  // the referencing (foreign key) table
        columns: seq<IndexColumn>,
        refTable: TableId,               // the referenced (primary key) table
        refColumns: seq<IndexColumn>,
        updateAction: ActionType,
        deleteAction: ActionType,
        refConstraintName: string)
    | Check(name: string)

  datatype Index = Index(
    name: string,
    createSQL: Option<string>,           // None for an index the system made itself
    unique: bool,
    hash: bool,
    columns: seq<IndexColumn>,
    rowCount: int,
    rowCountApproximation: int,
    diskSpaceUsed: nat)

  /** A table or view. Its constraint list holds the referential constraints
      that point to it as well as those it owns. */
  datatype Table = Table(
    id: TableId,
    kind: TableKind,
    hidden: bool,
    comment: Option<string>,
    columns: seq<Column>,
    constraints: seq<Constraint>,
    indexes: seq<Index>)

  datatype TableSynonym = TableSynonym(name: string, synonymFor: Table)

  datatype Schema = Schema(name: string, tables: seq<Table>, synonyms: seq<TableSynonym>)

  /** What a schema enumeration yields: a table or a synonym. */
  datatype SchemaObject = TableObject(table: Table) | SynonymObject(synonym: TableSynonym)

  function ObjectName(o: SchemaObject): string {
    match o
    case TableObject(t) => t.id.name
    case SynonymObject(y) => y.name
  }

  type PageSize = x: int | x > 0 witness 1

  datatype Database = Database(
    shortName: string,
    schemas: seq<Schema>,
    mainSchema: Schema,
    pageSize: PageSize,
    /** Identifier equality under the database's case rules. */
    equalsIdentifiers: (string, string) -> bool,
    /** like(pattern, name): the LIKE matcher with escape character '\'. */
    like: (string, string) -> bool,
    /** The collation's string comparison. */
    collation: (string, string) -> int)

  /** The schema of that exact name, if any (a lookup by key). */
  function FindSchema(schemas: seq<Schema>, name: string): (r: Option<Schema>)
    ensures r.Some? ==> r.value in schemas && r.value.name == name
    ensures r.None? <==> forall s :: s in schemas ==> s.name != name
    decreases |schemas|
  {
    if schemas == [] then None
    else if schemas[0].name == name then Some(schemas[0])
    else FindSchema(schemas[1..], name)
  }

  /** The table or view of that exact name in the schema, if any. */
  function FindTableOrView(s: Schema, name: string): Option<Table> {
    FindTable(s.tables, name)
  }

  function FindTable(tables: seq<Table>, name: string): (r: Option<Table>)
    ensures r.Some? ==> r.value in tables && r.value.id.name == name
    ensures r.None? <==> forall t :: t in tables ==> t.id.name != name
    decreases |tables|
  {
    if tables == [] then None
    else if tables[0].id.name == name then Some(tables[0])
    else FindTable(tables[1..], name)
  }

  /** No two schemas share a name, and the main schema is one of them. */
  ghost predicate WellFormed(db: Database) {
    && db.mainSchema in db.schemas
    && forall i, j :: 0 <= i < j < |db.schemas| ==> db.schemas[i].name != db.schemas[j].name
  }
}
