/** What the imported-keys, exported-keys and cross-reference listings
    contain. All three walk the referential constraints of one visible table
    and report one row per column pair of every constraint they select,
    pairing the referenced column with the referencing one and numbering the
    pairs from 1. */
module CrossReferenceRows {
  import opened Values
  import opened Sorting
  import opened Catalog
  import opened SimpleResults
  import opened MetaHelpers
  import opened PrimaryKeyRows
  import TableTypes

  const CROSS_REFERENCE_HEADER: seq<ResultColumn> := [
    ResultColumn("PKTABLE_CAT", Varchar),
    ResultColumn("PKTABLE_SCHEM", Varchar),
    ResultColumn("PKTABLE_NAME", Varchar),
    ResultColumn("PKCOLUMN_NAME", Varchar),
    ResultColumn("FKTABLE_CAT", Varchar),
    ResultColumn("FKTABLE_SCHEM", Varchar),
    ResultColumn("FKTABLE_NAME", Varchar),
    ResultColumn("FKCOLUMN_NAME", Varchar),
    ResultColumn("KEY_SEQ", Smallint),
    ResultColumn("UPDATE_RULE", Smallint),
    ResultColumn("DELETE_RULE", Smallint),
    ResultColumn("FK_NAME", Varchar),
    ResultColumn("PK_NAME", Varchar),
    ResultColumn("DEFERRABILITY", Smallint)]

  /** FKTABLE_CAT, FKTABLE_SCHEM, FKTABLE_NAME, KEY_SEQ: the order of all
      three listings as written. */
  const CROSS_REFERENCE_ORDER: seq<nat> := [4, 5, 6, 8]

  /** PKTABLE_CAT, PKTABLE_SCHEM, PKTABLE_NAME, KEY_SEQ: the order the
      metadata contract gives for imported keys. */
  const IMPORTED_KEYS_ORDER: seq<nat> := [0, 1, 2, 8]

  /** The referential-action codes of the metadata contract. */
  const IMPORTED_KEY_CASCADE := 0
  const IMPORTED_KEY_RESTRICT := 1
  const IMPORTED_KEY_SET_NULL := 2
  const IMPORTED_KEY_DEFAULT := 4
  const IMPORTED_KEY_NOT_DEFERRABLE := 7

  // ---------------------------------------------------------------------
  // Referential actions

  /** The code of a referential action; any action outside the four known
      ones is an internal error. */
  function RefAction(action: ActionType): (r: Result<int>)
    ensures r.Ok? <==> !action.Other?
    ensures r.Err? ==> r.error == UnknownAction(action.code)
    ensures r.Ok? ==> r.value in {IMPORTED_KEY_CASCADE, IMPORTED_KEY_RESTRICT, IMPORTED_KEY_SET_NULL, IMPORTED_KEY_DEFAULT}
  {
    match action
    case Cascade => Ok(IMPORTED_KEY_CASCADE)
    case Restrict => Ok(IMPORTED_KEY_RESTRICT)
    case SetDefault => Ok(IMPORTED_KEY_DEFAULT)
    case SetNull => Ok(IMPORTED_KEY_SET_NULL)
    case Other(code) => Err(UnknownAction(code))
  }

  /** The action a code stands for, if it is one of the four codes. */
  function ActionOfRule(rule: int): (r: Option<ActionType>)
    ensures r.Some? ==> !r.value.Other?
  {
    if rule == IMPORTED_KEY_CASCADE then Some(Cascade)
    else if rule == IMPORTED_KEY_RESTRICT then Some(Restrict)
    else if rule == IMPORTED_KEY_DEFAULT then Some(SetDefault)
    else if rule == IMPORTED_KEY_SET_NULL then Some(SetNull)
    else None
  }

  /** A code reported for an action reads back as that action ... */
  lemma RefActionRoundTrip(action: ActionType)
    requires RefAction(action).Ok?
    ensures ActionOfRule(RefAction(action).value) == Some(action)
  {
  }

  /** ... and every code of the four reads back as itself, so the mapping
      is a bijection between the known actions and the four codes. */
  lemma RuleRoundTrip(rule: int)
    requires ActionOfRule(rule).Some?
    ensures RefAction(ActionOfRule(rule).value) == Ok(rule)
  {
  }

  // ---------------------------------------------------------------------
  // The rows of one referential constraint

  /** One row of a cross-reference listing before it is laid out as cells. */
  datatype CrossEntry = CrossEntry(
    catalogValue: Value,
    pkSchema: string, pkTable: string, pkColumn: string,
    fkSchema: string, fkTable: string, fkColumn: string,
    keySeq: nat, updateRule: int, deleteRule: int,
    fkName: string, pkName: string)

  /** The cells of a row: both catalog cells hold the one catalog, KEY_SEQ
      goes through a cast to a 16-bit value, and no key is deferrable. */
  function CrossRow(e: CrossEntry): (r: Row)
    ensures |r| == |CROSS_REFERENCE_HEADER|
    ensures r[0] == r[4] == e.catalogValue
    ensures r[2] == Str(e.pkTable) && r[3] == Str(e.pkColumn)
    ensures r[6] == Str(e.fkTable) && r[7] == Str(e.fkColumn)
    ensures e.keySeq <= SHORT_MAX ==> r[8] == Int(e.keySeq)
    ensures r[1] == Str(e.pkSchema) && r[5] == Str(e.fkSchema)
    ensures r[9] == Int(e.updateRule) && r[10] == Int(e.deleteRule)
    ensures r[11] == Str(e.fkName) && r[12] == Str(e.pkName)
    ensures r[13] == Int(IMPORTED_KEY_NOT_DEFERRABLE)
  {
    // PKTABLE_CAT, PKTABLE_SCHEM, PKTABLE_NAME, PKCOLUMN_NAME
    [e.catalogValue, Str(e.pkSchema), Str(e.pkTable), Str(e.pkColumn)]
    // FKTABLE_CAT, FKTABLE_SCHEM, FKTABLE_NAME, FKCOLUMN_NAME
    + [e.catalogValue, Str(e.fkSchema), Str(e.fkTable), Str(e.fkColumn)]
    // KEY_SEQ, UPDATE_RULE, DELETE_RULE
    + [Int(ToShort(e.keySeq)), Int(e.updateRule), Int(e.deleteRule)]
    // FK_NAME, PK_NAME, DEFERRABILITY
    + [Str(e.fkName), Str(e.pkName), Int(IMPORTED_KEY_NOT_DEFERRABLE)]
  }

  /** The entry of the j-th column pair of a referential constraint: the
      j-th referenced column against the j-th referencing column. */
  function PairEntry(catalogValue: Value, fk: Constraint, update: int, delete: int, j: nat): CrossEntry
    requires fk.Referential? && j < |fk.columns| && j < |fk.refColumns|
  {
    CrossEntry(catalogValue,
               fk.refTable.schema, fk.refTable.name, fk.refColumns[j].column.name,
               fk.table.schema, fk.table.name, fk.columns[j].column.name,
               j + 1, update, delete, fk.name, fk.refConstraintName)
  }

  /** The entries of the first n column pairs. */
  function PairEntries(catalogValue: Value, fk: Constraint, update: int, delete: int, n: nat): (r: seq<CrossEntry>)
    requires fk.Referential? && n <= |fk.columns| && n <= |fk.refColumns|
    ensures |r| == n
  {
    if n == 0 then []
    else PairEntries(catalogValue, fk, update, delete, n - 1) + [PairEntry(catalogValue, fk, update, delete, n - 1)]
  }

  /** The j-th of the first n entries is the entry of the j-th pair. */
  lemma {:induction false} PairEntriesAt(catalogValue: Value, fk: Constraint, update: int, delete: int, n: nat, j: nat)
    requires fk.Referential? && n <= |fk.columns| && n <= |fk.refColumns| && j < n
    ensures PairEntries(catalogValue, fk, update, delete, n)[j] == PairEntry(catalogValue, fk, update, delete, j)
  {
    if j < n - 1 {
      PairEntriesAt(catalogValue, fk, update, delete, n - 1, j);
    }
  }

  /** How many rows the row loop appends for a constraint whose actions are
      known: one per referencing column, but only as many as there are
      referenced columns when those are fewer (the loop then fails at that
      index). */
  function PairsAdded(fk: Constraint): (n: nat)
    requires fk.Referential?
    ensures n <= |fk.columns| && n <= |fk.refColumns|
    ensures n == |fk.columns| || n == |fk.refColumns|
  {
    if |fk.columns| <= |fk.refColumns| then |fk.columns| else |fk.refColumns|
  }

  /** The rows of one referential constraint: the update action's code, then
      the delete action's code (either may fail), then one entry per column
      pair; a constraint with fewer referenced than referencing columns
      fails at the first index past the referenced ones. */
  function CrossReferenceEntries(catalogValue: Value, fk: Constraint): (r: Result<seq<CrossEntry>>)
    requires fk.Referential?
    ensures r.Ok? <==> !fk.updateAction.Other? && !fk.deleteAction.Other? && |fk.columns| <= |fk.refColumns|
    ensures fk.updateAction.Other? ==> r == Err(UnknownAction(fk.updateAction.code))
    ensures !fk.updateAction.Other? && fk.deleteAction.Other? ==> r == Err(UnknownAction(fk.deleteAction.code))
    ensures !fk.updateAction.Other? && !fk.deleteAction.Other? && |fk.refColumns| < |fk.columns| ==>
      r == Err(IndexOutOfBounds(|fk.refColumns|))
    ensures r.Ok? ==> |r.value| == |fk.columns|
  {
    match RefAction(fk.updateAction)
    case Err(e) => Err(e)
    case Ok(update) =>
      match RefAction(fk.deleteAction)
      case Err(e) => Err(e)
      case Ok(delete) =>
        if |fk.refColumns| < |fk.columns| then Err(IndexOutOfBounds(|fk.refColumns|))
        else Ok(PairEntries(catalogValue, fk, update, delete, |fk.columns|))
  }

  /** The j-th row of a constraint pairs its j-th referenced column with its
      j-th referencing column, has KEY_SEQ j + 1, and carries the codes of
      the constraint's actions and the names of both constraints. */
  lemma CrossReferencePairs(catalogValue: Value, fk: Constraint, j: nat)
    requires fk.Referential? && CrossReferenceEntries(catalogValue, fk).Ok? && j < |fk.columns|
    ensures CrossReferenceEntries(catalogValue, fk).value[j]
         == CrossEntry(catalogValue,
                       fk.refTable.schema, fk.refTable.name, fk.refColumns[j].column.name,
                       fk.table.schema, fk.table.name, fk.columns[j].column.name,
                       j + 1, RefAction(fk.updateAction).value, RefAction(fk.deleteAction).value,
                       fk.name, fk.refConstraintName)
  {
    PairEntriesAt(catalogValue, fk, RefAction(fk.updateAction).value, RefAction(fk.deleteAction).value,
                  |fk.columns|, j);
  }

  /** A constraint of at most SHORT_MAX column pairs reports KEY_SEQ 1, 2,
      ..., k in pair order. */
  lemma CrossReferenceKeySeq(catalogValue: Value, fk: Constraint, j: nat)
    requires fk.Referential? && CrossReferenceEntries(catalogValue, fk).Ok? && j < |fk.columns| <= SHORT_MAX
    ensures CrossRow(CrossReferenceEntries(catalogValue, fk).value[j])[8] == Int(j + 1)
    ensures CrossRow(CrossReferenceEntries(catalogValue, fk).value[j])[7] == Str(fk.columns[j].column.name)
    ensures CrossRow(CrossReferenceEntries(catalogValue, fk).value[j])[3] == Str(fk.refColumns[j].column.name)
  {
    CrossReferencePairs(catalogValue, fk, j);
  }

  // ---------------------------------------------------------------------
  // Which constraints each listing selects

  /** The three listings: imported keys (constraints the table owns),
      exported keys (constraints that reference the table), and the cross
      reference (constraints the foreign table owns that reference a table of
      the given name in a schema that passes the given schema argument). */
  datatype Direction = Imported | Exported | Cross(primarySchema: Option<string>, primaryTable: string)

  predicate ConstraintSelected(db: Database, dir: Direction, t: Table, c: Constraint) {
    && c.Referential?
    && match dir
       case Imported => c.table == t.id
       case Exported => c.refTable == t.id
       case Cross(primarySchema, primaryTable) =>
         && c.table == t.id
         && db.equalsIdentifiers(c.refTable.name, primaryTable)
         && CheckSchema(db, primarySchema, c.refTable.schema)
  }

  function ConstraintCrossEntries(db: Database, dir: Direction, t: Table): Constraint -> Result<seq<CrossEntry>> {
    (c: Constraint) =>
      if ConstraintSelected(db, dir, t, c) then CrossReferenceEntries(Str(db.shortName), c) else Ok([])
  }

  /** What one schema adds: the selected constraints of its visible table of
      that name. */
  function SchemaCrossEntries(db: Database, dir: Direction, table: string): Schema -> Result<seq<CrossEntry>> {
    (s: Schema) =>
      match VisibleTable(s, table)
      case None => Ok([])
      case Some(t) => FlatMapResult(t.constraints, ConstraintCrossEntries(db, dir, t))
  }

  function CrossUnsorted(db: Database, dir: Direction, schema: Option<string>, table: string): Result<seq<CrossEntry>> {
    FlatMapResult(SchemasFor(db, schema), SchemaCrossEntries(db, dir, table))
  }

  /** e is the entry of the j-th column pair of a constraint the listing
      selects, on the visible table of that name in a selected schema. */
  ghost predicate CrossPairOf(db: Database, dir: Direction, schema: Option<string>, table: string, e: CrossEntry) {
    exists s, t, c, j ::
      (s in SchemasFor(db, schema) && VisibleTable(s, table) == Some(t) && c in t.constraints
       && ConstraintSelected(db, dir, t, c) && CrossReferenceEntries(Str(db.shortName), c).Ok?
       && 0 <= j < |c.columns|
       && e == CrossReferenceEntries(Str(db.shortName), c).value[j])
  }

  lemma CrossUnsortedOrigin(db: Database, dir: Direction, schema: Option<string>, table: string, e: CrossEntry)
    requires CrossUnsorted(db, dir, schema, table).Ok? && e in CrossUnsorted(db, dir, schema, table).value
    ensures CrossPairOf(db, dir, schema, table, e)
  {
    var schemas := SchemasFor(db, schema);
    var f := SchemaCrossEntries(db, dir, table);
    FlatMapResultMember(schemas, f, e);
    var i :| 0 <= i < |schemas| && f(schemas[i]).Ok? && e in f(schemas[i]).value;
    var s := schemas[i];
    var t := VisibleTable(s, table).value;
    var g := ConstraintCrossEntries(db, dir, t);
    FlatMapResultMember(t.constraints, g, e);
    var k :| 0 <= k < |t.constraints| && g(t.constraints[k]).Ok? && e in g(t.constraints[k]).value;
    var c := t.constraints[k];
    var entries := CrossReferenceEntries(Str(db.shortName), c).value;
    var j :| 0 <= j < |entries| && entries[j] == e;
    assert s in schemas && c in t.constraints;
  }

  lemma CrossUnsortedComplete(db: Database, dir: Direction, schema: Option<string>, table: string,
                              s: Schema, t: Table, c: Constraint, j: nat)
    requires CrossUnsorted(db, dir, schema, table).Ok?
    requires s in SchemasFor(db, schema) && VisibleTable(s, table) == Some(t) && c in t.constraints
    requires ConstraintSelected(db, dir, t, c) && j < |c.columns|
    ensures CrossReferenceEntries(Str(db.shortName), c).Ok?
    ensures CrossReferenceEntries(Str(db.shortName), c).value[j] in CrossUnsorted(db, dir, schema, table).value
  {
    var schemas := SchemasFor(db, schema);
    var f := SchemaCrossEntries(db, dir, table);
    var g := ConstraintCrossEntries(db, dir, t);
    var i :| 0 <= i < |schemas| && schemas[i] == s;
    var k :| 0 <= k < |t.constraints| && t.constraints[k] == c;
    FlatMapResultAllOk(schemas, f, i);
    FlatMapResultAllOk(t.constraints, g, k);
    var e := CrossReferenceEntries(Str(db.shortName), c).value[j];
    FlatMapResultContains(t.constraints, g, k, e);
    FlatMapResultContains(schemas, f, i, e);
  }

  /** A selected constraint with an unknown action or too few referenced
      columns makes the whole listing fail. */
  lemma CrossUnsortedFails(db: Database, dir: Direction, schema: Option<string>, table: string,
                           s: Schema, t: Table, c: Constraint)
    requires s in SchemasFor(db, schema) && VisibleTable(s, table) == Some(t) && c in t.constraints
    requires ConstraintSelected(db, dir, t, c) && CrossReferenceEntries(Str(db.shortName), c).Err?
    ensures CrossUnsorted(db, dir, schema, table).Err?
  {
    var schemas := SchemasFor(db, schema);
    var f := SchemaCrossEntries(db, dir, table);
    var g := ConstraintCrossEntries(db, dir, t);
    var i :| 0 <= i < |schemas| && schemas[i] == s;
    var k :| 0 <= k < |t.constraints| && t.constraints[k] == c;
    if FlatMapResult(schemas, f).Ok? {
      FlatMapResultAllOk(schemas, f, i);
      FlatMapResultErrPrefix(t.constraints, g, k);
    }
  }

  // ---------------------------------------------------------------------
  // The three listings

  /** The entries laid out as rows and sorted on `key`; an error passes
      through. */
  function SortedCrossRows(db: Database, entries: Result<seq<CrossEntry>>, key: seq<nat>): (r: Result<seq<Row>>)
    ensures r.Err? <==> entries.Err?
    ensures r.Err? ==> r.error == entries.error
    ensures r.Ok? ==> |r.value| == |entries.value|
  {
    match entries
    case Err(e) => Err(e)
    case Ok(es) => Ok(SortBy(Map(es, CrossRow), RowOrder(db.collation, key)))
  }

  /** The imported-keys rows sorted on a given key: an error for a null
      table, no rows for a foreign catalog. */
  function ImportedKeysSortedOn(db: Database, catalog: Option<string>, schema: Option<string>, table: Option<string>,
                                key: seq<nat>): (r: Result<seq<Row>>)
    ensures table.None? ==> r == Err(InvalidValue("table"))
    ensures table.Some? && !CheckCatalogName(db, catalog) ==> r == Ok([])
  {
    if table.None? then Err(InvalidValue("table"))
    else if !CheckCatalogName(db, catalog) then Ok([])
    else SortedCrossRows(db, CrossUnsorted(db, Imported, schema, table.value), key)
  }

  /** The imported-keys listing as written: sorted on the referencing
      table's columns and KEY_SEQ. */
  function ImportedKeysAsWritten(db: Database, catalog: Option<string>, schema: Option<string>, table: Option<string>)
    : (r: Result<seq<Row>>)
    ensures table.None? ==> r == Err(InvalidValue("table"))
  {
    ImportedKeysSortedOn(db, catalog, schema, table, CROSS_REFERENCE_ORDER)
  }

  /** The imported-keys listing sorted as the metadata contract asks: on the
      referenced table's columns and KEY_SEQ. */
  function ImportedKeys(db: Database, catalog: Option<string>, schema: Option<string>, table: Option<string>)
    : (r: Result<seq<Row>>)
    ensures table.None? ==> r == Err(InvalidValue("table"))
  {
    ImportedKeysSortedOn(db, catalog, schema, table, IMPORTED_KEYS_ORDER)
  }

  function ExportedKeys(db: Database, catalog: Option<string>, schema: Option<string>, table: Option<string>)
    : (r: Result<seq<Row>>)
    ensures table.None? ==> r == Err(InvalidValue("table"))
    ensures table.Some? && !CheckCatalogName(db, catalog) ==> r == Ok([])
  {
    if table.None? then Err(InvalidValue("table"))
    else if !CheckCatalogName(db, catalog) then Ok([])
    else SortedCrossRows(db, CrossUnsorted(db, Exported, schema, table.value), CROSS_REFERENCE_ORDER)
  }

  /** The cross reference: a null primary table is reported before a null
      foreign table; both catalogs must pass. */
  function CrossReference(db: Database, primaryCatalog: Option<string>, primarySchema: Option<string>,
                          primaryTable: Option<string>, foreignCatalog: Option<string>,
                          foreignSchema: Option<string>, foreignTable: Option<string>): (r: Result<seq<Row>>)
    ensures primaryTable.None? ==> r == Err(InvalidValue("primaryTable"))
    ensures primaryTable.Some? && foreignTable.None? ==> r == Err(InvalidValue("foreignTable"))
    ensures primaryTable.Some? && foreignTable.Some? && !CheckCatalogName(db, primaryCatalog) ==> r == Ok([])
    ensures primaryTable.Some? && foreignTable.Some? && !CheckCatalogName(db, foreignCatalog) ==> r == Ok([])
  {
    if primaryTable.None? then Err(InvalidValue("primaryTable"))
    else if foreignTable.None? then Err(InvalidValue("foreignTable"))
    else if !CheckCatalogName(db, primaryCatalog) || !CheckCatalogName(db, foreignCatalog) then Ok([])
    else SortedCrossRows(db, CrossUnsorted(db, Cross(primarySchema, primaryTable.value), foreignSchema,
                                           foreignTable.value), CROSS_REFERENCE_ORDER)
  }

  /** Every row of a successful sorted listing is the row of an entry, and
      the rows are sorted on the key and a permutation of the entries'. */
  lemma SortedCrossRowsMembers(db: Database, entries: seq<CrossEntry>, key: seq<nat>, r: Row)
    ensures r in SortedCrossRows(db, Ok(entries), key).value <==> exists e :: e in entries && r == CrossRow(e)
  {
    SortByMembers(Map(entries, CrossRow), RowOrder(db.collation, key), r);
    MapMember(entries, CrossRow, r);
    if exists e :: e in entries && r == CrossRow(e) {
      var e :| e in entries && r == CrossRow(e);
      var i :| 0 <= i < |entries| && entries[i] == e;
    }
  }

  /** The sorted rows are in key order and a permutation of the entries'
      rows in which equal keys keep their enumeration order. */
  lemma SortedCrossRowsSorted(db: Database, entries: seq<CrossEntry>, key: seq<nat>)
    requires TotalPreorder(db.collation)
    ensures Sorted(SortedCrossRows(db, Ok(entries), key).value, RowOrder(db.collation, key))
    ensures multiset(SortedCrossRows(db, Ok(entries), key).value) == multiset(Map(entries, CrossRow))
    ensures forall k :: Equivalents(SortedCrossRows(db, Ok(entries), key).value, RowOrder(db.collation, key), k)
                        == Equivalents(Map(entries, CrossRow), RowOrder(db.collation, key), k)
  {
    RowOrderIsTotalPreorder(db.collation, key);
    SortBySorted(Map(entries, CrossRow), RowOrder(db.collation, key));
    forall k {
      SortByStable(Map(entries, CrossRow), RowOrder(db.collation, key), k);
    }
  }

  /** Every imported-keys row is the row of a column pair of a referential
      constraint owned by the visible table of that name in a selected
      schema. */
  lemma ImportedKeysOrigin(db: Database, catalog: Option<string>, schema: Option<string>, table: Option<string>, r: Row)
    requires ImportedKeys(db, catalog, schema, table).Ok? && r in ImportedKeys(db, catalog, schema, table).value
    ensures table.Some? && CheckCatalogName(db, catalog)
    ensures exists e :: CrossPairOf(db, Imported, schema, table.value, e) && r == CrossRow(e)
  {
    var entries := CrossUnsorted(db, Imported, schema, table.value).value;
    SortedCrossRowsMembers(db, entries, IMPORTED_KEYS_ORDER, r);
    var e :| e in entries && r == CrossRow(e);
    CrossUnsortedOrigin(db, Imported, schema, table.value, e);
  }

  /** Conversely, every column pair of every such constraint has its row in
      a successful listing. */
  lemma ImportedKeysComplete(db: Database, catalog: Option<string>, schema: Option<string>, table: string,
                             s: Schema, t: Table, c: Constraint, j: nat)
    requires ImportedKeys(db, catalog, schema, Some(table)).Ok? && CheckCatalogName(db, catalog)
    requires s in SchemasFor(db, schema) && VisibleTable(s, table) == Some(t) && c in t.constraints
    requires c.Referential? && c.table == t.id && j < |c.columns|
    ensures CrossReferenceEntries(Str(db.shortName), c).Ok?
    ensures CrossRow(CrossReferenceEntries(Str(db.shortName), c).value[j]) in ImportedKeys(db, catalog, schema, Some(table)).value
  {
    assert ConstraintSelected(db, Imported, t, c);
    CrossUnsortedComplete(db, Imported, schema, table, s, t, c, j);
    var entries := CrossUnsorted(db, Imported, schema, table).value;
    SortedCrossRowsMembers(db, entries, IMPORTED_KEYS_ORDER, CrossRow(CrossReferenceEntries(Str(db.shortName), c).value[j]));
  }

  /** The imported-keys listing is sorted on PKTABLE_CAT, PKTABLE_SCHEM,
      PKTABLE_NAME and KEY_SEQ, and is a permutation of the enumeration. */
  lemma ImportedKeysSorted(db: Database, catalog: Option<string>, schema: Option<string>, table: string)
    requires TotalPreorder(db.collation) && ImportedKeys(db, catalog, schema, Some(table)).Ok?
    ensures Sorted(ImportedKeys(db, catalog, schema, Some(table)).value, RowOrder(db.collation, IMPORTED_KEYS_ORDER))
    ensures CheckCatalogName(db, catalog) ==>
      multiset(ImportedKeys(db, catalog, schema, Some(table)).value)
      == multiset(Map(CrossUnsorted(db, Imported, schema, table).value, CrossRow))
  {
    if CheckCatalogName(db, catalog) {
      SortedCrossRowsSorted(db, CrossUnsorted(db, Imported, schema, table).value, IMPORTED_KEYS_ORDER);
    }
  }

  /** The listing as written is sorted on FKTABLE_CAT, FKTABLE_SCHEM,
      FKTABLE_NAME and KEY_SEQ, and is a permutation of the enumeration. */
  lemma ImportedKeysAsWrittenSorted(db: Database, catalog: Option<string>, schema: Option<string>, table: string)
    requires TotalPreorder(db.collation) && ImportedKeysAsWritten(db, catalog, schema, Some(table)).Ok?
    ensures Sorted(ImportedKeysAsWritten(db, catalog, schema, Some(table)).value, RowOrder(db.collation, CROSS_REFERENCE_ORDER))
    ensures CheckCatalogName(db, catalog) ==>
      multiset(ImportedKeysAsWritten(db, catalog, schema, Some(table)).value)
      == multiset(Map(CrossUnsorted(db, Imported, schema, table).value, CrossRow))
  {
    if CheckCatalogName(db, catalog) {
      SortedCrossRowsSorted(db, CrossUnsorted(db, Imported, schema, table).value, CROSS_REFERENCE_ORDER);
    }
  }

  /** The listing as written and the listing in the corrected order fail
      alike and otherwise hold the same rows, so what is proved above about
      the rows of one holds for the other. */
  lemma ImportedKeysAsWrittenSameRows(db: Database, catalog: Option<string>, schema: Option<string>, table: Option<string>)
    ensures ImportedKeysAsWritten(db, catalog, schema, table).Err? <==> ImportedKeys(db, catalog, schema, table).Err?
    ensures ImportedKeysAsWritten(db, catalog, schema, table).Err? ==>
      ImportedKeysAsWritten(db, catalog, schema, table).error == ImportedKeys(db, catalog, schema, table).error
    ensures ImportedKeysAsWritten(db, catalog, schema, table).Ok? ==>
      multiset(ImportedKeysAsWritten(db, catalog, schema, table).value) == multiset(ImportedKeys(db, catalog, schema, table).value)
    ensures ImportedKeysAsWritten(db, catalog, schema, table).Ok? ==>
      forall r :: r in ImportedKeysAsWritten(db, catalog, schema, table).value <==> r in ImportedKeys(db, catalog, schema, table).value
  {
    if table.Some? && CheckCatalogName(db, catalog) && CrossUnsorted(db, Imported, schema, table.value).Ok? {
      var rows := Map(CrossUnsorted(db, Imported, schema, table.value).value, CrossRow);
      var written, corrected := ImportedKeysAsWritten(db, catalog, schema, table).value, ImportedKeys(db, catalog, schema, table).value;
      assert multiset(written) == multiset(rows) == multiset(corrected);
      forall r
        ensures r in written <==> r in corrected
      {
        assert r in written <==> r in multiset(written);
        assert r in corrected <==> r in multiset(corrected);
      }
    }
  }

  lemma ExportedKeysOrigin(db: Database, catalog: Option<string>, schema: Option<string>, table: Option<string>, r: Row)
    requires ExportedKeys(db, catalog, schema, table).Ok? && r in ExportedKeys(db, catalog, schema, table).value
    ensures table.Some? && CheckCatalogName(db, catalog)
    ensures exists e :: CrossPairOf(db, Exported, schema, table.value, e) && r == CrossRow(e)
  {
    var entries := CrossUnsorted(db, Exported, schema, table.value).value;
    SortedCrossRowsMembers(db, entries, CROSS_REFERENCE_ORDER, r);
    var e :| e in entries && r == CrossRow(e);
    CrossUnsortedOrigin(db, Exported, schema, table.value, e);
  }

  lemma ExportedKeysComplete(db: Database, catalog: Option<string>, schema: Option<string>, table: string,
                             s: Schema, t: Table, c: Constraint, j: nat)
    requires ExportedKeys(db, catalog, schema, Some(table)).Ok? && CheckCatalogName(db, catalog)
    requires s in SchemasFor(db, schema) && VisibleTable(s, table) == Some(t) && c in t.constraints
    requires c.Referential? && c.refTable == t.id && j < |c.columns|
    ensures CrossReferenceEntries(Str(db.shortName), c).Ok?
    ensures CrossRow(CrossReferenceEntries(Str(db.shortName), c).value[j]) in ExportedKeys(db, catalog, schema, Some(table)).value
  {
    assert ConstraintSelected(db, Exported, t, c);
    CrossUnsortedComplete(db, Exported, schema, table, s, t, c, j);
    var entries := CrossUnsorted(db, Exported, schema, table).value;
    SortedCrossRowsMembers(db, entries, CROSS_REFERENCE_ORDER, CrossRow(CrossReferenceEntries(Str(db.shortName), c).value[j]));
  }

  /** The exported-keys listing is sorted on FKTABLE_CAT, FKTABLE_SCHEM,
      FKTABLE_NAME and KEY_SEQ, and is a permutation of the enumeration. */
  lemma ExportedKeysSorted(db: Database, catalog: Option<string>, schema: Option<string>, table: string)
    requires TotalPreorder(db.collation) && ExportedKeys(db, catalog, schema, Some(table)).Ok?
    ensures Sorted(ExportedKeys(db, catalog, schema, Some(table)).value, RowOrder(db.collation, CROSS_REFERENCE_ORDER))
    ensures CheckCatalogName(db, catalog) ==>
      multiset(ExportedKeys(db, catalog, schema, Some(table)).value)
      == multiset(Map(CrossUnsorted(db, Exported, schema, table).value, CrossRow))
  {
    if CheckCatalogName(db, catalog) {
      SortedCrossRowsSorted(db, CrossUnsorted(db, Exported, schema, table).value, CROSS_REFERENCE_ORDER);
    }
  }

  /** A self-referencing constraint (its table references itself) is
      reported in both the imported and the exported keys of its table. */
  lemma SelfReferenceInBoth(db: Database, catalog: Option<string>, schema: Option<string>, table: string,
                            s: Schema, t: Table, c: Constraint, j: nat)
    requires ImportedKeys(db, catalog, schema, Some(table)).Ok? && ExportedKeys(db, catalog, schema, Some(table)).Ok?
    requires CheckCatalogName(db, catalog)
    requires s in SchemasFor(db, schema) && VisibleTable(s, table) == Some(t) && c in t.constraints
    requires c.Referential? && c.table == t.id && c.refTable == t.id && j < |c.columns|
    ensures CrossReferenceEntries(Str(db.shortName), c).Ok?
    ensures CrossRow(CrossReferenceEntries(Str(db.shortName), c).value[j]) in ImportedKeys(db, catalog, schema, Some(table)).value
    ensures CrossRow(CrossReferenceEntries(Str(db.shortName), c).value[j]) in ExportedKeys(db, catalog, schema, Some(table)).value
  {
    ImportedKeysComplete(db, catalog, schema, table, s, t, c, j);
    ExportedKeysComplete(db, catalog, schema, table, s, t, c, j);
  }

  lemma CrossReferenceOrigin(db: Database, primaryCatalog: Option<string>, primarySchema: Option<string>,
                             primaryTable: Option<string>, foreignCatalog: Option<string>,
                             foreignSchema: Option<string>, foreignTable: Option<string>, r: Row)
    requires CrossReference(db, primaryCatalog, primarySchema, primaryTable, foreignCatalog, foreignSchema, foreignTable).Ok?
    requires r in CrossReference(db, primaryCatalog, primarySchema, primaryTable, foreignCatalog, foreignSchema, foreignTable).value
    ensures primaryTable.Some? && foreignTable.Some?
    ensures CheckCatalogName(db, primaryCatalog) && CheckCatalogName(db, foreignCatalog)
    ensures exists e ::
      CrossPairOf(db, Cross(primarySchema, primaryTable.value), foreignSchema, foreignTable.value, e) && r == CrossRow(e)
  {
    var dir := Cross(primarySchema, primaryTable.value);
    var entries := CrossUnsorted(db, dir, foreignSchema, foreignTable.value).value;
    SortedCrossRowsMembers(db, entries, CROSS_REFERENCE_ORDER, r);
    var e :| e in entries && r == CrossRow(e);
    CrossUnsortedOrigin(db, dir, foreignSchema, foreignTable.value, e);
  }

  lemma CrossReferenceComplete(db: Database, primaryCatalog: Option<string>, primarySchema: Option<string>,
                               primaryTable: string, foreignCatalog: Option<string>,
                               foreignSchema: Option<string>, foreignTable: string,
                               s: Schema, t: Table, c: Constraint, j: nat)
    requires CrossReference(db, primaryCatalog, primarySchema, Some(primaryTable), foreignCatalog, foreignSchema, Some(foreignTable)).Ok?
    requires CheckCatalogName(db, primaryCatalog) && CheckCatalogName(db, foreignCatalog)
    requires s in SchemasFor(db, foreignSchema) && VisibleTable(s, foreignTable) == Some(t) && c in t.constraints
    requires c.Referential? && c.table == t.id && j < |c.columns|
    requires db.equalsIdentifiers(c.refTable.name, primaryTable) && CheckSchema(db, primarySchema, c.refTable.schema)
    ensures CrossReferenceEntries(Str(db.shortName), c).Ok?
    ensures CrossRow(CrossReferenceEntries(Str(db.shortName), c).value[j])
            in CrossReference(db, primaryCatalog, primarySchema, Some(primaryTable), foreignCatalog, foreignSchema, Some(foreignTable)).value
  {
    var dir := Cross(primarySchema, primaryTable);
    assert ConstraintSelected(db, dir, t, c);
    CrossUnsortedComplete(db, dir, foreignSchema, foreignTable, s, t, c, j);
    var entries := CrossUnsorted(db, dir, foreignSchema, foreignTable).value;
    SortedCrossRowsMembers(db, entries, CROSS_REFERENCE_ORDER, CrossRow(CrossReferenceEntries(Str(db.shortName), c).value[j]));
  }

  /** The cross reference is sorted on FKTABLE_CAT, FKTABLE_SCHEM,
      FKTABLE_NAME and KEY_SEQ, and is a permutation of the enumeration. */
  lemma CrossReferenceSorted(db: Database, primaryCatalog: Option<string>, primarySchema: Option<string>,
                             primaryTable: string, foreignCatalog: Option<string>,
                             foreignSchema: Option<string>, foreignTable: string)
    requires TotalPreorder(db.collation)
    requires CrossReference(db, primaryCatalog, primarySchema, Some(primaryTable), foreignCatalog, foreignSchema, Some(foreignTable)).Ok?
    ensures Sorted(CrossReference(db, primaryCatalog, primarySchema, Some(primaryTable), foreignCatalog, foreignSchema, Some(foreignTable)).value,
                   RowOrder(db.collation, CROSS_REFERENCE_ORDER))
    ensures CheckCatalogName(db, primaryCatalog) && CheckCatalogName(db, foreignCatalog) ==>
      multiset(CrossReference(db, primaryCatalog, primarySchema, Some(primaryTable), foreignCatalog, foreignSchema, Some(foreignTable)).value)
      == multiset(Map(CrossUnsorted(db, Cross(primarySchema, primaryTable), foreignSchema, foreignTable).value, CrossRow))
  {
    if CheckCatalogName(db, primaryCatalog) && CheckCatalogName(db, foreignCatalog) {
      SortedCrossRowsSorted(db, CrossUnsorted(db, Cross(primarySchema, primaryTable), foreignSchema, foreignTable).value,
                            CROSS_REFERENCE_ORDER);
    }
  }

  // ---------------------------------------------------------------------
  // The imported-keys order as written

  function SampleColumn(name: string): IndexColumn {
    IndexColumn(Column(name, ColumnType(4, "INTEGER", 32, 0, true, false), true, false, false, None, None), 0)
  }

  /** Key FA of table T of schema S references table A on two columns. */
  function SampleKeyA(): Constraint {
    Referential("FA", TableId("S", "T"), [SampleColumn("X"), SampleColumn("Y")],
                TableId("S", "A"), [SampleColumn("P"), SampleColumn("Q")], Cascade, Cascade, "PA")
  }

  /** Key FB of table T of schema S references table B on one column. */
  function SampleKeyB(): Constraint {
    Referential("FB", TableId("S", "T"), [SampleColumn("Z")],
                TableId("S", "B"), [SampleColumn("R")], Cascade, Cascade, "PB")
  }

  function SampleTable(): Table {
    Table(TableId("S", "T"), BaseTable, false, None, [], [SampleKeyA(), SampleKeyB()], [])
  }

  /** One schema S holding T; the collation is the code-point order. */
  function SampleDatabase(): Database {
    var s := Schema("S", [SampleTable()], []);
    Database("D", [s], s, 1, (a: string, b: string) => a == b, (p: string, n: string) => true,
             TableTypes.CompareStrings)
  }

  /** The imported keys of T enumerate FA's two pairs, then FB's one. */
  lemma SampleImportedEntries()
    ensures CrossUnsorted(SampleDatabase(), Imported, None, "T")
         == Ok([PairEntry(Str("D"), SampleKeyA(), 0, 0, 0), PairEntry(Str("D"), SampleKeyA(), 0, 0, 1),
                PairEntry(Str("D"), SampleKeyB(), 0, 0, 0)])
  {
    var db, t, fkA, fkB := SampleDatabase(), SampleTable(), SampleKeyA(), SampleKeyB();
    var a1, a2 := PairEntry(Str("D"), fkA, 0, 0, 0), PairEntry(Str("D"), fkA, 0, 0, 1);
    var b1 := PairEntry(Str("D"), fkB, 0, 0, 0);
    assert PairEntries(Str("D"), fkA, 0, 0, 1) == [a1];
    assert PairEntries(Str("D"), fkA, 0, 0, 2) == [a1, a2];
    assert PairEntries(Str("D"), fkB, 0, 0, 1) == [b1];
    var g := ConstraintCrossEntries(db, Imported, t);
    assert g(fkA) == Ok([a1, a2]);
    assert g(fkB) == Ok([b1]);
    var cs := t.constraints;
    assert cs == [fkA, fkB];
    assert cs[..0] == [] && cs[..2] == cs;
    FlatMapResultSnoc(cs, g, 0);
    assert [] + [a1, a2] == [a1, a2];
    FlatMapResultSnoc(cs, g, 1);
    assert [a1, a2] + [b1] == [a1, a2, b1];
    assert FlatMapResult(cs, g) == Ok([a1, a2, b1]);
    var s := db.schemas[0];
    assert VisibleTable(s, "T") == Some(t);
    assert SchemaCrossEntries(db, Imported, "T")(s) == Ok([a1, a2, b1]);
    assert [s][..0] == [] && [] + [a1, a2, b1] == [a1, a2, b1];
  }

  function SampleRowA1(): Row { CrossRow(PairEntry(Str("D"), SampleKeyA(), 0, 0, 0)) }
  function SampleRowA2(): Row { CrossRow(PairEntry(Str("D"), SampleKeyA(), 0, 0, 1)) }
  function SampleRowB1(): Row { CrossRow(PairEntry(Str("D"), SampleKeyB(), 0, 0, 0)) }

  /** The cells of the three rows that either order compares. */
  lemma SampleRowCells()
    ensures SampleRowA1()[0] == SampleRowA2()[0] == SampleRowB1()[0] == Str("D")
    ensures SampleRowA1()[1] == SampleRowA2()[1] == SampleRowB1()[1] == Str("S")
    ensures SampleRowA2()[2] == Str("A") && SampleRowB1()[2] == Str("B")
    ensures SampleRowA1()[4] == SampleRowA2()[4] == SampleRowB1()[4] == Str("D")
    ensures SampleRowA1()[5] == SampleRowA2()[5] == SampleRowB1()[5] == Str("S")
    ensures SampleRowA1()[6] == SampleRowA2()[6] == SampleRowB1()[6] == Str("T")
    ensures SampleRowA1()[8] == SampleRowB1()[8] == Int(1) && SampleRowA2()[8] == Int(2)
  {
  }

  /** Two rows of the same referencing table D.S.T compare on KEY_SEQ in
      the order as written. */
  lemma SameReferencingTableComparison(x: Row, y: Row)
    requires 8 < |x| && 8 < |y|
    requires x[4] == y[4] == Str("D") && x[5] == y[5] == Str("S") && x[6] == y[6] == Str("T")
    requires x[8].Int? && y[8].Int?
    ensures CompareRows(TableTypes.CompareStrings, CROSS_REFERENCE_ORDER, x, y) == CompareInt(x[8].i, y[8].i)
  {
    assert TableTypes.CompareStrings("D", "D") == 0;
    assert TableTypes.CompareStrings("S", "S") == 0;
    assert TableTypes.CompareStrings("T", "T") == 0;
    var key := CROSS_REFERENCE_ORDER;
    assert key[1..] == [5, 6, 8] && key[1..][1..] == [6, 8] && key[1..][1..][1..] == [8];
  }

  /** Two rows of keys referencing D.S.A and D.S.B compare as A and B do in
      the corrected order. */
  lemma ReferencedTableComparison(x: Row, y: Row)
    requires 2 < |x| && 2 < |y|
    requires x[0] == y[0] == Str("D") && x[1] == y[1] == Str("S") && x[2] == Str("B") && y[2] == Str("A")
    ensures CompareRows(TableTypes.CompareStrings, IMPORTED_KEYS_ORDER, x, y) > 0
  {
    assert TableTypes.CompareStrings("D", "D") == 0;
    assert TableTypes.CompareStrings("S", "S") == 0;
    assert TableTypes.CompareStrings("B", "A") > 0;
    var key := IMPORTED_KEYS_ORDER;
    assert key[1..] == [1, 2, 8] && key[1..][1..] == [2, 8];
  }

  /** A's second pair comes after B's first pair on KEY_SEQ, A's first pair
      ties with it. */
  lemma SampleWrittenComparisons()
    ensures CompareRows(TableTypes.CompareStrings, CROSS_REFERENCE_ORDER, SampleRowA2(), SampleRowB1()) > 0
    ensures CompareRows(TableTypes.CompareStrings, CROSS_REFERENCE_ORDER, SampleRowA1(), SampleRowB1()) <= 0
  {
    SampleRowCells();
    SameReferencingTableComparison(SampleRowA2(), SampleRowB1());
    SameReferencingTableComparison(SampleRowA1(), SampleRowB1());
  }

  /** In the corrected order B's row comes after A's rows. */
  lemma SampleImportedComparison()
    ensures CompareRows(TableTypes.CompareStrings, IMPORTED_KEYS_ORDER, SampleRowB1(), SampleRowA2()) > 0
  {
    SampleRowCells();
    ReferencedTableComparison(SampleRowB1(), SampleRowA2());
  }

  /** Three elements whose last is strictly below the second but not above
      the first sort to first, last, second. */
  lemma SortThree<T>(x: T, y: T, z: T, cmp: (T, T) -> int)
    requires cmp(y, z) > 0 && cmp(x, z) <= 0
    ensures SortBy([x, y, z], cmp) == [x, z, y]
  {
    calc {
      SortBy([z], cmp);
      { assert [z][1..] == []; }
      Insert(z, [], cmp);
      [z];
    }
    calc {
      SortBy([y, z], cmp);
      { assert [y, z][1..] == [z]; }
      Insert(y, [z], cmp);
      { assert [z][1..] == []; }
      [z] + Insert(y, [], cmp);
      [z, y];
    }
    calc {
      SortBy([x, y, z], cmp);
      { assert [x, y, z][1..] == [y, z]; }
      Insert(x, [z, y], cmp);
      [x, z, y];
    }
  }

  /** Sorting on the referencing table's columns and KEY_SEQ puts B's row
      between A's two rows. */
  lemma SampleSortedAsWritten()
    ensures SortBy([SampleRowA1(), SampleRowA2(), SampleRowB1()], RowOrder(TableTypes.CompareStrings, CROSS_REFERENCE_ORDER))
         == [SampleRowA1(), SampleRowB1(), SampleRowA2()]
  {
    SampleWrittenComparisons();
    SortThree(SampleRowA1(), SampleRowA2(), SampleRowB1(), RowOrder(TableTypes.CompareStrings, CROSS_REFERENCE_ORDER));
  }

  /** As written, the imported keys of T come out as (A, 1), (B, 1), (A, 2):
      the rows of the key referencing A are split by the row of B, so the
      listing is not in referenced-table order. */
  lemma ImportedKeysAsWrittenUnordered()
    ensures ImportedKeysAsWritten(SampleDatabase(), None, None, Some("T")).Ok?
    ensures !Sorted(ImportedKeysAsWritten(SampleDatabase(), None, None, Some("T")).value,
                    RowOrder(SampleDatabase().collation, IMPORTED_KEYS_ORDER))
  {
    var db := SampleDatabase();
    var a1, a2, b1 := SampleRowA1(), SampleRowA2(), SampleRowB1();
    SampleImportedEntries();
    var rows := Map([PairEntry(Str("D"), SampleKeyA(), 0, 0, 0), PairEntry(Str("D"), SampleKeyA(), 0, 0, 1),
                     PairEntry(Str("D"), SampleKeyB(), 0, 0, 0)], CrossRow);
    assert rows == [a1, a2, b1];
    var written := RowOrder(db.collation, CROSS_REFERENCE_ORDER);
    SampleImportedComparison();
    SampleSortedAsWritten();
    var sorted := SortBy(rows, written);
    assert RowOrder(db.collation, IMPORTED_KEYS_ORDER)(sorted[1], sorted[2]) > 0;
  }
}
