# H2 local catalog metadata, modelled in Dafny

This project models `DatabaseMetaLocal`, the part of the H2 database engine
that answers the JDBC `DatabaseMetaData` catalog listings from the
in-memory catalog of an embedded session. It covers:

- tables and table types;
- columns;
- primary keys and the best row identifier;
- imported keys, exported keys and cross references;
- index information;
- schemas and catalogs.

The catalog is an immutable value (`Catalog.Database`). It holds:

- the schemas;
- the tables, views and synonyms of each schema;
- the columns, constraints and indexes of each table.

Three collaborators the Java code calls into are fields of the database
value. They are taken as given functions:

- the LIKE matcher (`like`);
- identifier equality (`equalsIdentifiers`);
- the collation used by the result sorter (`collation`).

A result set is `SimpleResults.SimpleResult`. It is a class whose `rows`
field the listings append to and then sort in place.

Each listing is a method of the class `MetaLocal.DatabaseMetaLocal`. Each
method is proved to produce exactly the rows of a specification function:

| method | specification function |
|---|---|
| `GetTables` | `TableRows.Tables` |
| `GetColumns` | `ColumnRows.Columns` |
| `GetPrimaryKeys` | `PrimaryKeyRows.PrimaryKeys` |
| `GetBestRowIdentifier` | `PrimaryKeyRows.BestRowIdentifier` |
| `GetImportedKeys` | `CrossReferenceRows.ImportedKeysAsWritten` |
| `GetExportedKeys` | `CrossReferenceRows.ExportedKeys` |
| `GetCrossReference` | `CrossReferenceRows.CrossReference` |
| `GetIndexInfo` | `IndexRows.IndexInfo` |
| `GetSchemas` | `SchemaRows.Schemas` |

Lemmas about each specification function state three things:

- what a listing returns: every row comes from a selected catalog object (the `Origin` lemmas);
- that nothing is missed: every selected object yields its row (the `Complete` lemmas);
- how the rows are ordered: the rows are sorted on the listing's key and are a permutation of the rows in enumeration order (the `Sorted` lemmas).

A null Java argument is `None` of an `Option`. An exception the Java code
throws is the `Err` case of a `Result`:

- `InvalidValue` for a null table argument;
- `UnknownAction` for an unexpected referential action;
- `IndexOutOfBounds` for a foreign key with fewer referenced columns than columns.

The modules are:

- `Values`: SQL values, rows, the integer narrowings, the sequence helpers and the row order of the result sorter.
- `Sorting`: the stable sort that models `sortRows` and `List.sort`.
- `SimpleResults`: the result set.
- `Catalog`: the catalog objects.
- `MetaHelpers`: the catalog-name check, the schema and object selection, and the patterns.
- `TableTypes`: the ordered table-type list, its binary search and the type filter.
- One module per listing: `TableRows`, `ColumnRows`, `PrimaryKeyRows`, `CrossReferenceRows`, `IndexRows`, `SchemaRows`.
- `MetaLocal`: the class.

Points of the code worth knowing:

- `getExportedKeys` and `getCrossReference` sort on FKTABLE_CAT, FKTABLE_SCHEM, FKTABLE_NAME, KEY_SEQ, as the JDBC `DatabaseMetaData` contract asks.
- `getImportedKeys` sorts on the same foreign-key columns. The JDBC contract asks for PKTABLE_CAT, PKTABLE_SCHEM, PKTABLE_NAME, KEY_SEQ. `GetImportedKeys` models the order as written (`CrossReferenceRows.ImportedKeysAsWritten`); the contract's order is modelled beside it (`CrossReferenceRows.ImportedKeys`) and the difference is recorded under Findings.
- `getIndexInfo` sorts on NON_UNIQUE, TYPE, INDEX_NAME, ORDINAL_POSITION, as the JDBC contract asks. It does not sort on INDEX_QUALIFIER.
- `getSchemas(catalog, pattern)` treats an empty pattern as an ordinary LIKE pattern. The rule that "" means the main schema applies only to exact schema arguments and to the patterns of the other listings.

## Model

| member | source | states |
|---|---|---|
| MetaHelpers.SchemasFor | h2/src/main/org/h2/jdbc/meta/DatabaseMetaLocal.java:1095-1108 | null selects every schema; "" selects the main schema; any other name selects at most one schema, with that name, and exactly one when one exists |
| MetaHelpers.LikeSchemasMembers | h2/src/main/org/h2/jdbc/meta/DatabaseMetaLocal.java:1117-1124 | the LIKE-filtered schemas are exactly those whose name matches the pattern |
| MetaHelpers.SchemasForPatternMembers | h2/src/main/org/h2/jdbc/meta/DatabaseMetaLocal.java:1110-1126 | a schema pattern selects: every schema (null); only the main schema (""); otherwise the schemas whose name matches by LIKE |
| MetaHelpers.LikeTablesMembers | h2/src/main/org/h2/jdbc/meta/DatabaseMetaLocal.java:1146-1150 | the LIKE-filtered tables are exactly the schema's tables whose name matches |
| MetaHelpers.LikeSynonymsMembers | h2/src/main/org/h2/jdbc/meta/DatabaseMetaLocal.java:1151-1155 | the LIKE-filtered synonyms are exactly the schema's synonyms whose name matches |
| MetaHelpers.ObjectsForPatternMembers | h2/src/main/org/h2/jdbc/meta/DatabaseMetaLocal.java:1128-1158 | the selected objects are exactly the schema's tables and synonyms whose name passes the pattern; null passes every name |
| MetaHelpers.CheckSchemaAgreesWithSchemasFor | h2/src/main/org/h2/jdbc/meta/DatabaseMetaLocal.java:1160-1168 | when identifier equality is name equality, the schema check passes a schema exactly when the exact schema selection contains it |
| MetaHelpers.GetPatternAgreesWithFilter | h2/src/main/org/h2/jdbc/meta/DatabaseMetaLocal.java:1079-1081 | the pattern of a name argument matches a name exactly when the null-means-all filter passes it, given that "%" matches everything |
| MetaHelpers.GetSchemaPatternAgreesWithSchemasForPattern | h2/src/main/org/h2/jdbc/meta/DatabaseMetaLocal.java:1083-1085 | the pattern of a schema argument matches a schema exactly when the schema selection contains it ("" becomes PUBLIC) |
| MetaHelpers.GetCatalogPatternAgreesWithCheckCatalogName | h2/src/main/org/h2/jdbc/meta/DatabaseMetaLocal.java:1180-1182 | null and "" become "%"; any other argument is the pattern itself; the pattern matches the database's name exactly when the catalog-name check passes |
| TableTypes.TableTypesSorted | h2/src/main/org/h2/jdbc/meta/DatabaseMetaLocal.java:99-101 | the table-type list is strictly ascending in String order, as binary search requires |
| TableTypes.BinarySearch | h2/src/main/org/h2/jdbc/meta/DatabaseMetaLocal.java:265 | a non-negative result indexes the key; a negative result means the key is absent and encodes its insertion point |
| TableTypes.RequestedTypesMembers | h2/src/main/org/h2/jdbc/meta/DatabaseMetaLocal.java:262-271 | a type is in the filter exactly when it is a listed table type that was requested, or it is BASE TABLE and TABLE was requested |
| TableTypes.TableIsBaseTable | h2/src/main/org/h2/jdbc/meta/DatabaseMetaLocal.java:268-270 | requesting TABLE selects the same types as requesting BASE TABLE |
| TableTypes.NormalizeTableTypes | h2/src/main/org/h2/jdbc/meta/DatabaseMetaLocal.java:262-271 | the loop builds exactly the requested-type set, a subset of the listed table types |
| TableRows.TableRow | h2/src/main/org/h2/jdbc/meta/DatabaseMetaLocal.java:303-323 | a row has the ten header columns, the table's name and type, and NULL in the five trailing columns |
| TableRows.ObjectTablesEntriesListed | h2/src/main/org/h2/jdbc/meta/DatabaseMetaLocal.java:282-290 | an object yields its one row when it is listed (visible, and its type passes the filter), and no row otherwise |
| TableRows.TablesUnsortedOrigin | h2/src/main/org/h2/jdbc/meta/DatabaseMetaLocal.java:278-291 | every enumerated entry comes from a selected object of a selected schema that passes the type filter |
| TableRows.TablesUnsortedComplete | h2/src/main/org/h2/jdbc/meta/DatabaseMetaLocal.java:278-291 | every such object is enumerated |
| TableRows.TablesOrigin | h2/src/main/org/h2/jdbc/meta/DatabaseMetaLocal.java:244-295 | a row implies: the catalog-name check passed; the type filter is not empty; the row is the row of a selected, listed object |
| TableRows.TablesComplete | h2/src/main/org/h2/jdbc/meta/DatabaseMetaLocal.java:244-295 | when the catalog-name check passes, every selected and listed object has its row in the listing |
| TableRows.TablesSorted | h2/src/main/org/h2/jdbc/meta/DatabaseMetaLocal.java:293 | the listing is sorted on TABLE_TYPE, TABLE_CAT, TABLE_SCHEM, TABLE_NAME; it permutes the enumerated rows and keeps the enumeration order of ties |
| TableRows.TablesTypeAlias | h2/src/main/org/h2/jdbc/meta/DatabaseMetaLocal.java:268-270 | asking for TABLE and asking for BASE TABLE give the same listing |
| TableRows.TablesTypesAreListed | h2/src/main/org/h2/jdbc/meta/DatabaseMetaLocal.java:299 | every TABLE_TYPE in the listing is one of the five table types |
| TableRows.ObjectTypeIsKnown | h2/src/main/org/h2/jdbc/meta/DatabaseMetaLocal.java:299 | the type of a table, view or synonym is one of the five table types |
| TableRows.TableTypeRows | h2/src/main/org/h2/jdbc/meta/DatabaseMetaLocal.java:341-350 | one row per table type, in the order of the type list, strictly ascending |
| ColumnRows.ColumnRow | h2/src/main/org/h2/jdbc/meta/DatabaseMetaLocal.java:419-467 | the catalog, schema, table and column names; NULLABLE and IS_NULLABLE both follow the column's nullability; COLUMN_DEF is the default, or NULL for a generated column; IS_AUTOINCREMENT and IS_GENERATEDCOLUMN follow the column's flags; COLUMN_SIZE equals CHAR_OCTET_LENGTH and fits in 32 bits; ORDINAL_POSITION is the position plus one |
| ColumnRows.ColumnsAddEntriesAll | h2/src/main/org/h2/jdbc/meta/DatabaseMetaLocal.java:406-469 | with no column pattern, every column yields a row, in declaration order |
| ColumnRows.ColumnsAddEntriesMembers | h2/src/main/org/h2/jdbc/meta/DatabaseMetaLocal.java:409-414 | a table's entries are exactly its columns whose name passes the column pattern, each at its declared position |
| ColumnRows.ColumnsAddEntriesIncreasing | h2/src/main/org/h2/jdbc/meta/DatabaseMetaLocal.java:409 | the entries of one table come in strictly increasing position |
| ColumnRows.ColumnsAddRowsInOrder | h2/src/main/org/h2/jdbc/meta/DatabaseMetaLocal.java:402 | the rows of one table are already in the listing's sort order, so sorting leaves them unchanged |
| ColumnRows.RowsInPositionOrder | h2/src/main/org/h2/jdbc/meta/DatabaseMetaLocal.java:402 | of two columns of one table, the earlier one sorts first |
| ColumnRows.ColumnsUnsortedOrigin | h2/src/main/org/h2/jdbc/meta/DatabaseMetaLocal.java:386-401 | every enumerated entry is a matching column of a visible table or synonym target selected by the schema and table patterns |
| ColumnRows.ColumnsUnsortedComplete | h2/src/main/org/h2/jdbc/meta/DatabaseMetaLocal.java:386-401 | every such column is enumerated |
| ColumnRows.ColumnsOrigin | h2/src/main/org/h2/jdbc/meta/DatabaseMetaLocal.java:353-404 | a row implies that the catalog-name check passed and that the row is the row of such a column |
| ColumnRows.ColumnsComplete | h2/src/main/org/h2/jdbc/meta/DatabaseMetaLocal.java:353-404 | when the catalog-name check passes, every such column has its row in the listing |
| ColumnRows.ColumnsSorted | h2/src/main/org/h2/jdbc/meta/DatabaseMetaLocal.java:402 | the listing is sorted on TABLE_CAT, TABLE_SCHEM, TABLE_NAME, ORDINAL_POSITION and permutes the enumerated rows; rows with equal keys keep their enumeration order |
| PrimaryKeyRows.VisibleTable | h2/src/main/org/h2/jdbc/meta/DatabaseMetaLocal.java:595-598 | a found table belongs to the schema, has the requested name and is not hidden; no table means the lookup failed or found a hidden one |
| PrimaryKeyRows.PrimaryKeyRow | h2/src/main/org/h2/jdbc/meta/DatabaseMetaLocal.java:612-624 | COLUMN_NAME, PK_NAME, and KEY_SEQ when it fits in a SMALLINT |
| PrimaryKeyRows.KeyColumnEntriesSeq | h2/src/main/org/h2/jdbc/meta/DatabaseMetaLocal.java:611-625 | the j-th entry of a key names its j-th column with sequence number j + 1 |
| PrimaryKeyRows.KeySeqRunsFromOne | h2/src/main/org/h2/jdbc/meta/DatabaseMetaLocal.java:622 | in a key of at most 32767 columns, KEY_SEQ runs 1, 2, … alongside the key's columns |
| PrimaryKeyRows.PrimaryKeys | h2/src/main/org/h2/jdbc/meta/DatabaseMetaLocal.java:577-580 | an error exactly when the table argument is null, and that error names "table" |
| PrimaryKeyRows.PrimaryKeysUnsortedOrigin | h2/src/main/org/h2/jdbc/meta/DatabaseMetaLocal.java:594-627 | every entry is a column of a primary key of the visible table of that name in a selected schema |
| PrimaryKeyRows.PrimaryKeysUnsortedComplete | h2/src/main/org/h2/jdbc/meta/DatabaseMetaLocal.java:594-627 | every such key column is enumerated |
| PrimaryKeyRows.PrimaryKeysOrigin | h2/src/main/org/h2/jdbc/meta/DatabaseMetaLocal.java:577-630 | a row implies that the catalog-name check passed and that the row is the row of such a key column |
| PrimaryKeyRows.PrimaryKeysComplete | h2/src/main/org/h2/jdbc/meta/DatabaseMetaLocal.java:577-630 | when the catalog-name check passes, every such key column has its row |
| PrimaryKeyRows.PrimaryKeysSorted | h2/src/main/org/h2/jdbc/meta/DatabaseMetaLocal.java:628 | the listing is sorted on COLUMN_NAME and permutes the enumerated rows; rows with equal names keep their enumeration order |
| PrimaryKeyRows.BestRowRow | h2/src/main/org/h2/jdbc/meta/DatabaseMetaLocal.java:554-569 | SCOPE is bestRowSession and PSEUDO_COLUMN bestRowNotPseudo; DECIMAL_DIGITS is NULL exactly when the type has no scale; COLUMN_SIZE fits in 32 bits |
| PrimaryKeyRows.BestRowIdentifier | h2/src/main/org/h2/jdbc/meta/DatabaseMetaLocal.java:517-521 | an error exactly when the table argument is null |
| PrimaryKeyRows.BestRowColumnsOrigin | h2/src/main/org/h2/jdbc/meta/DatabaseMetaLocal.java:535-572 | every enumerated column is a primary-key column of the visible table of that name in a selected schema |
| PrimaryKeyRows.BestRowIdentifierOrigin | h2/src/main/org/h2/jdbc/meta/DatabaseMetaLocal.java:517-574 | a row implies that the catalog-name check passed and that the row describes such a column |
| PrimaryKeyRows.BestRowIdentifierComplete | h2/src/main/org/h2/jdbc/meta/DatabaseMetaLocal.java:535-572 | every column of every primary key of the visible table of that name in a selected schema has its row in the listing |
| PrimaryKeyRows.BestRowIdentifierKeyBlock | h2/src/main/org/h2/jdbc/meta/DatabaseMetaLocal.java:544-573 | the rows of each such primary key appear as one contiguous block, in key order, whatever else the listing holds |
| PrimaryKeyRows.BestRowIdentifierKeyOrder | h2/src/main/org/h2/jdbc/meta/DatabaseMetaLocal.java:544-573 | for one table with one primary key, the listing is that key's columns in key order: it is not sorted |
| CrossReferenceRows.RefAction | h2/src/main/org/h2/jdbc/meta/DatabaseMetaLocal.java:819-832 | the four known actions map to their JDBC rule codes; any other action is an error naming it |
| CrossReferenceRows.RefActionRoundTrip | h2/src/main/org/h2/jdbc/meta/DatabaseMetaLocal.java:819-832 | the rule code of a known action decodes back to that action |
| CrossReferenceRows.RuleRoundTrip | h2/src/main/org/h2/jdbc/meta/DatabaseMetaLocal.java:78-88 | a decodable rule code is the code of the action it decodes to |
| CrossReferenceRows.CrossRow | h2/src/main/org/h2/jdbc/meta/DatabaseMetaLocal.java:787-815 | PKTABLE_CAT equals FKTABLE_CAT; the schema, table and column names of both sides; KEY_SEQ; UPDATE_RULE and DELETE_RULE; FK_NAME and PK_NAME; DEFERRABILITY is importedKeyNotDeferrable |
| CrossReferenceRows.PairsAdded | h2/src/main/org/h2/jdbc/meta/DatabaseMetaLocal.java:786-787 | the rows written before the loop stops number the key's columns, or the referenced columns if there are fewer of those |
| CrossReferenceRows.CrossReferenceEntries | h2/src/main/org/h2/jdbc/meta/DatabaseMetaLocal.java:774-817 | succeeds exactly when both actions are known and there are no fewer referenced columns than columns. Errors in order: the update action, the delete action, the missing column index. On success, one entry per column |
| CrossReferenceRows.CrossReferencePairs | h2/src/main/org/h2/jdbc/meta/DatabaseMetaLocal.java:786-816 | the j-th entry pairs the j-th referenced column with the j-th column, with KEY_SEQ j + 1, the two rule codes and both constraint names |
| CrossReferenceRows.CrossReferenceKeySeq | h2/src/main/org/h2/jdbc/meta/DatabaseMetaLocal.java:805 | in a key of at most 32767 columns, row j carries KEY_SEQ j + 1 and the j-th column pair |
| CrossReferenceRows.CrossUnsortedOrigin | h2/src/main/org/h2/jdbc/meta/DatabaseMetaLocal.java:643-665 | every entry is a column pair of a referential constraint of the visible table that the listing's direction selects |
| CrossReferenceRows.CrossUnsortedComplete | h2/src/main/org/h2/jdbc/meta/DatabaseMetaLocal.java:643-665 | every column pair of every selected constraint is enumerated |
| CrossReferenceRows.CrossUnsortedFails | h2/src/main/org/h2/jdbc/meta/DatabaseMetaLocal.java:782-783 | one selected constraint with an unknown action fails the whole listing |
| CrossReferenceRows.SortedCrossRows | h2/src/main/org/h2/jdbc/meta/DatabaseMetaLocal.java:834-837 | an error passes through unchanged; otherwise there is one row per entry |
| CrossReferenceRows.SortedCrossRowsMembers | h2/src/main/org/h2/jdbc/meta/DatabaseMetaLocal.java:834-837 | the sorted rows are exactly the rows of the entries |
| CrossReferenceRows.SortedCrossRowsSorted | h2/src/main/org/h2/jdbc/meta/DatabaseMetaLocal.java:834-837 | the rows are sorted on the given key and permute the enumerated rows; rows with equal keys keep their enumeration order |
| CrossReferenceRows.ImportedKeysSortedOn | h2/src/main/org/h2/jdbc/meta/DatabaseMetaLocal.java:633-640 | a null table is an error naming "table"; a foreign catalog gives no rows |
| CrossReferenceRows.ImportedKeysAsWritten | h2/src/main/org/h2/jdbc/meta/DatabaseMetaLocal.java:666 | the listing as written: sorted on the referencing table's columns; a null table is an error |
| CrossReferenceRows.ImportedKeys | h2/src/main/org/h2/jdbc/meta/DatabaseMetaLocal.java:633-667 | a null table is an error naming "table" |
| CrossReferenceRows.ImportedKeysOrigin | h2/src/main/org/h2/jdbc/meta/DatabaseMetaLocal.java:633-667 | a row implies that the catalog-name check passed and that the row is a column pair of a foreign key whose referencing table is the named table |
| CrossReferenceRows.ImportedKeysComplete | h2/src/main/org/h2/jdbc/meta/DatabaseMetaLocal.java:652-664 | every column pair of every foreign key of the named table appears |
| CrossReferenceRows.ImportedKeysAsWrittenSorted | h2/src/main/org/h2/jdbc/meta/DatabaseMetaLocal.java:666 | the listing as written is sorted on FKTABLE_CAT, FKTABLE_SCHEM, FKTABLE_NAME, KEY_SEQ and permutes the enumerated rows |
| CrossReferenceRows.ImportedKeysAsWrittenSameRows | h2/src/main/org/h2/jdbc/meta/DatabaseMetaLocal.java:633-667 | the listing as written and the corrected listing fail alike, with the same error, and otherwise hold the same rows, so the `Origin` and `Complete` lemmas of `ImportedKeys` hold for the listing as written |
| CrossReferenceRows.ImportedKeysSorted | h2/src/main/org/h2/jdbc/meta/DatabaseMetaLocal.java:666 | corrected order: sorted on PKTABLE_CAT, PKTABLE_SCHEM, PKTABLE_NAME, KEY_SEQ, a permutation of the enumerated rows |
| CrossReferenceRows.ImportedKeysAsWrittenUnordered | h2/src/main/org/h2/jdbc/meta/DatabaseMetaLocal.java:834-837 | on a concrete catalog, the listing as written is not in referenced-table order |
| CrossReferenceRows.ExportedKeys | h2/src/main/org/h2/jdbc/meta/DatabaseMetaLocal.java:670-677 | a null table is an error naming "table"; a foreign catalog gives no rows |
| CrossReferenceRows.ExportedKeysOrigin | h2/src/main/org/h2/jdbc/meta/DatabaseMetaLocal.java:670-704 | a row implies that the catalog-name check passed and that the row is a column pair of a foreign key whose referenced table is the named table |
| CrossReferenceRows.ExportedKeysComplete | h2/src/main/org/h2/jdbc/meta/DatabaseMetaLocal.java:689-701 | every column pair of every foreign key referencing the named table appears |
| CrossReferenceRows.ExportedKeysSorted | h2/src/main/org/h2/jdbc/meta/DatabaseMetaLocal.java:703 | sorted on FKTABLE_CAT, FKTABLE_SCHEM, FKTABLE_NAME, KEY_SEQ, a permutation of the enumerated rows |
| CrossReferenceRows.SelfReferenceInBoth | h2/src/main/org/h2/jdbc/meta/DatabaseMetaLocal.java:658-695 | a foreign key from a table to itself shows in both its imported and its exported keys |
| CrossReferenceRows.CrossReference | h2/src/main/org/h2/jdbc/meta/DatabaseMetaLocal.java:707-718 | a null primary table is an error, checked before the foreign table; if either catalog-name check fails, no rows |
| CrossReferenceRows.CrossReferenceOrigin | h2/src/main/org/h2/jdbc/meta/DatabaseMetaLocal.java:707-752 | a row implies that both catalog-name checks passed and that the row is a column pair of a foreign key of the named foreign table whose referenced table has the primary name and passes the schema check |
| CrossReferenceRows.CrossReferenceComplete | h2/src/main/org/h2/jdbc/meta/DatabaseMetaLocal.java:730-749 | every column pair of every such foreign key appears |
| CrossReferenceRows.CrossReferenceSorted | h2/src/main/org/h2/jdbc/meta/DatabaseMetaLocal.java:751 | sorted on FKTABLE_CAT, FKTABLE_SCHEM, FKTABLE_NAME, KEY_SEQ, a permutation of the enumerated rows |
| IndexRows.HasNullableColumn | h2/src/main/org/h2/jdbc/meta/DatabaseMetaLocal.java:961-965 | true exactly when some column of the index is nullable |
| IndexRows.IndexTypeCode | h2/src/main/org/h2/jdbc/meta/DatabaseMetaLocal.java:959-967 | hashed exactly for a unique hash index without nullable columns; other exactly for the remaining unique indexes without nullable columns; statistic exactly for non-unique indexes and those with a nullable column |
| IndexRows.IndexType | h2/src/main/org/h2/jdbc/meta/DatabaseMetaLocal.java:959-967 | the labelled-break loop computes exactly that code |
| IndexRows.IndexRow | h2/src/main/org/h2/jdbc/meta/DatabaseMetaLocal.java:970-996 | INDEX_QUALIFIER equals TABLE_CAT; NON_UNIQUE, INDEX_NAME, TYPE, ORDINAL_POSITION and COLUMN_NAME; ASC_OR_DESC is "D" exactly for a descending column; FILTER_CONDITION is NULL |
| IndexRows.IndexColumnEntry | h2/src/main/org/h2/jdbc/meta/DatabaseMetaLocal.java:968-996 | position i + 1; the row count (the approximation when approximate is true); PAGES is disk space divided by page size, rounded down |
| IndexRows.IndexColumnEntriesAt | h2/src/main/org/h2/jdbc/meta/DatabaseMetaLocal.java:968-997 | the i-th entry of an index describes its i-th column |
| IndexRows.IndexEntriesOrigin | h2/src/main/org/h2/jdbc/meta/DatabaseMetaLocal.java:946-954 | an index contributes rows only if it has creation SQL and, when unique is asked, is unique; each row describes one of its columns |
| IndexRows.IndexInfo | h2/src/main/org/h2/jdbc/meta/DatabaseMetaLocal.java:908-930 | an error exactly when the table argument is null; a foreign catalog gives no rows |
| IndexRows.IndexInfoUnsortedOrigin | h2/src/main/org/h2/jdbc/meta/DatabaseMetaLocal.java:933-939 | every entry is a column of a listed index of the visible table of that name in a selected schema |
| IndexRows.IndexInfoUnsortedComplete | h2/src/main/org/h2/jdbc/meta/DatabaseMetaLocal.java:933-939 | every column of every listed index is enumerated |
| IndexRows.IndexInfoOrigin | h2/src/main/org/h2/jdbc/meta/DatabaseMetaLocal.java:908-942 | a row implies that the catalog-name check passed and that the row describes such an index column |
| IndexRows.IndexInfoComplete | h2/src/main/org/h2/jdbc/meta/DatabaseMetaLocal.java:908-942 | when the catalog-name check passes, every such index column has its row |
| IndexRows.IndexInfoUniqueOnly | h2/src/main/org/h2/jdbc/meta/DatabaseMetaLocal.java:951-957 | when only unique indexes are asked for, every row has NON_UNIQUE false |
| IndexRows.IndexInfoSorted | h2/src/main/org/h2/jdbc/meta/DatabaseMetaLocal.java:940 | the listing is sorted on NON_UNIQUE, TYPE, INDEX_NAME, ORDINAL_POSITION and permutes the enumerated rows; rows with equal keys keep their enumeration order |
| SchemaRows.Schemas | h2/src/main/org/h2/jdbc/meta/DatabaseMetaLocal.java:1002-1033 | no rows for a foreign catalog, otherwise one row per selected schema name |
| SchemaRows.SchemaNamesMembers | h2/src/main/org/h2/jdbc/meta/DatabaseMetaLocal.java:1010-1026 | the collected names are exactly the names of schemas that pass the pattern; a null pattern passes all |
| SchemaRows.SchemasMembers | h2/src/main/org/h2/jdbc/meta/DatabaseMetaLocal.java:1002-1033 | a row is in the listing exactly when the catalog-name check passes and the row is (name, catalog) for a schema whose name passes the pattern |
| SchemaRows.SchemasSorted | h2/src/main/org/h2/jdbc/meta/DatabaseMetaLocal.java:1027 | the rows are in collation order of TABLE_SCHEM, and the sorted names permute the collected ones |
| Values.ConvertLongToInt | h2/src/main/org/h2/jdbc/meta/DatabaseMetaLocal.java:417 | the precision is clamped into the 32-bit range and kept when it fits |
| Values.ConvertIntToShort | h2/src/main/org/h2/jdbc/meta/DatabaseMetaLocal.java:566 | the scale is clamped into the 16-bit range and kept when it fits |
| Values.ToShort | h2/src/main/org/h2/jdbc/meta/DatabaseMetaLocal.java:805 | the (short) cast yields a 16-bit value congruent to its argument and keeps any value that fits |
| MetaLocal.DatabaseMetaLocal.constructor | h2/src/main/org/h2/jdbc/meta/DatabaseMetaLocal.java:111-113 | a new object holds the database and no comparator yet |
| MetaLocal.DatabaseMetaLocal.GetComparator | h2/src/main/org/h2/jdbc/meta/DatabaseMetaLocal.java:1066-1073 | returns the database collation and caches it |
| MetaLocal.DatabaseMetaLocal.GetSchemasForPattern | h2/src/main/org/h2/jdbc/meta/DatabaseMetaLocal.java:1110-1126 | the loop selects exactly the schemas of `SchemasForPattern` |
| MetaLocal.DatabaseMetaLocal.GetTablesForPattern | h2/src/main/org/h2/jdbc/meta/DatabaseMetaLocal.java:1128-1158 | all four branches and both loops select exactly the objects of `ObjectsForPattern` |
| MetaLocal.DatabaseMetaLocal.GetTablesAdd | h2/src/main/org/h2/jdbc/meta/DatabaseMetaLocal.java:297-324 | appends the object's row when its type passes the filter and nothing otherwise |
| MetaLocal.DatabaseMetaLocal.GetObjectTablesAdd | h2/src/main/org/h2/jdbc/meta/DatabaseMetaLocal.java:281-290 | a visible table adds its row under its own type, a synonym adds a row typed SYNONYM, and a hidden table adds nothing |
| MetaLocal.DatabaseMetaLocal.GetSchemaTablesAdd | h2/src/main/org/h2/jdbc/meta/DatabaseMetaLocal.java:279-291 | appends the rows of the schema's selected objects in enumeration order |
| MetaLocal.DatabaseMetaLocal.GetTablesUnsortedAdd | h2/src/main/org/h2/jdbc/meta/DatabaseMetaLocal.java:278-292 | appends the rows of all selected schemas in enumeration order |
| MetaLocal.DatabaseMetaLocal.GetTables | h2/src/main/org/h2/jdbc/meta/DatabaseMetaLocal.java:244-295 | the result has the tables header and exactly the rows of `Tables` |
| MetaLocal.DatabaseMetaLocal.GetTableTypes | h2/src/main/org/h2/jdbc/meta/DatabaseMetaLocal.java:341-350 | exactly the five table-type rows, in order |
| MetaLocal.DatabaseMetaLocal.GetCatalogs | h2/src/main/org/h2/jdbc/meta/DatabaseMetaLocal.java:332-338 | one row holding the database's short name |
| MetaLocal.DatabaseMetaLocal.GetColumnsAdd | h2/src/main/org/h2/jdbc/meta/DatabaseMetaLocal.java:406-469 | appends the rows of the matching columns, in declaration order |
| MetaLocal.DatabaseMetaLocal.GetObjectColumnsAdd | h2/src/main/org/h2/jdbc/meta/DatabaseMetaLocal.java:389-399 | a visible table or a synonym's target adds its column rows; a hidden table adds nothing |
| MetaLocal.DatabaseMetaLocal.GetSchemaColumnsAdd | h2/src/main/org/h2/jdbc/meta/DatabaseMetaLocal.java:387-400 | appends the column rows of the schema's selected objects |
| MetaLocal.DatabaseMetaLocal.GetColumns | h2/src/main/org/h2/jdbc/meta/DatabaseMetaLocal.java:353-404 | the result has the columns header and exactly the rows of `Columns` |
| MetaLocal.DatabaseMetaLocal.AddKeyColumnRows | h2/src/main/org/h2/jdbc/meta/DatabaseMetaLocal.java:607-625 | appends one row per key column, with KEY_SEQ counting from one |
| MetaLocal.DatabaseMetaLocal.AddPrimaryKeyRows | h2/src/main/org/h2/jdbc/meta/DatabaseMetaLocal.java:603-626 | appends the rows of the table's primary-key constraints and skips every other constraint |
| MetaLocal.DatabaseMetaLocal.GetPrimaryKeys | h2/src/main/org/h2/jdbc/meta/DatabaseMetaLocal.java:577-630 | an error for a null table, otherwise exactly the rows of `PrimaryKeys` |
| MetaLocal.DatabaseMetaLocal.AddBestRowRows | h2/src/main/org/h2/jdbc/meta/DatabaseMetaLocal.java:544-571 | appends one row per primary-key column of the table |
| MetaLocal.DatabaseMetaLocal.GetBestRowIdentifier | h2/src/main/org/h2/jdbc/meta/DatabaseMetaLocal.java:517-574 | an error for a null table, otherwise exactly the rows of `BestRowIdentifier` |
| MetaLocal.DatabaseMetaLocal.AddCrossReferenceResult | h2/src/main/org/h2/jdbc/meta/DatabaseMetaLocal.java:774-817 | on success, appends the key's column pairs. An unknown action appends nothing and reports the error. A short referenced-column list reports an index error after appending the pairs that exist |
| MetaLocal.DatabaseMetaLocal.AddConstraintCrossReferences | h2/src/main/org/h2/jdbc/meta/DatabaseMetaLocal.java:652-664 | a constraint the direction selects adds its pairs or fails; any other constraint adds nothing |
| MetaLocal.DatabaseMetaLocal.AddTableCrossReferences | h2/src/main/org/h2/jdbc/meta/DatabaseMetaLocal.java:648-664 | appends the pairs of the table's selected constraints, stopping at the first error |
| MetaLocal.DatabaseMetaLocal.AddSchemaCrossReferences | h2/src/main/org/h2/jdbc/meta/DatabaseMetaLocal.java:644-664 | appends the pairs of the schema's visible table of that name, if any |
| MetaLocal.DatabaseMetaLocal.AddCrossReferences | h2/src/main/org/h2/jdbc/meta/DatabaseMetaLocal.java:643-665 | appends the pairs of all selected schemas, stopping at the first error |
| MetaLocal.DatabaseMetaLocal.GetImportedKeys | h2/src/main/org/h2/jdbc/meta/DatabaseMetaLocal.java:633-667 | the error or exactly the rows of `ImportedKeysAsWritten`: sorted on the referencing table's columns, as written |
| MetaLocal.DatabaseMetaLocal.GetExportedKeys | h2/src/main/org/h2/jdbc/meta/DatabaseMetaLocal.java:670-704 | the error or exactly the rows of `ExportedKeys` |
| MetaLocal.DatabaseMetaLocal.GetCrossReference | h2/src/main/org/h2/jdbc/meta/DatabaseMetaLocal.java:707-752 | the error or exactly the rows of `CrossReference` |
| MetaLocal.DatabaseMetaLocal.SortCrossReferenceResult | h2/src/main/org/h2/jdbc/meta/DatabaseMetaLocal.java:834-837 | sorts the rows in place on FKTABLE_CAT, FKTABLE_SCHEM, FKTABLE_NAME, KEY_SEQ |
| MetaLocal.DatabaseMetaLocal.AddIndexColumnRows | h2/src/main/org/h2/jdbc/meta/DatabaseMetaLocal.java:955-997 | appends one row per index column, in column order |
| MetaLocal.DatabaseMetaLocal.GetTableIndexInfo | h2/src/main/org/h2/jdbc/meta/DatabaseMetaLocal.java:944-999 | appends the rows of the table's listed indexes in index order |
| MetaLocal.DatabaseMetaLocal.GetIndexInfo | h2/src/main/org/h2/jdbc/meta/DatabaseMetaLocal.java:908-942 | an error for a null table, otherwise exactly the rows of `IndexInfo` |
| MetaLocal.DatabaseMetaLocal.GetSchemaNames | h2/src/main/org/h2/jdbc/meta/DatabaseMetaLocal.java:1010-1026 | both loops collect exactly the names of `SchemaNames` |
| MetaLocal.DatabaseMetaLocal.GetSchemas | h2/src/main/org/h2/jdbc/meta/DatabaseMetaLocal.java:1002-1033 | exactly the rows of `Schemas`; `getSchemas()` is this method with two null arguments |
| SimpleResults.SimpleResult.AddRow | h2/src/main/org/h2/jdbc/meta/DatabaseMetaLocal.java:303-323 | appends one row of the header's width and changes nothing else |
| SimpleResults.SimpleResult.SortRows | h2/src/main/org/h2/jdbc/meta/DatabaseMetaLocal.java:293 | replaces the rows by their stable sort on the key columns |

## Left out

- `getTypeInfo`, `getSQLKeywords`, `getFunctions` and the numeric, string, system and time function lists: they return fixed tables or data-type registry contents, with no catalog logic to verify.
- `executeQuery` and the listings that pass through to it (procedures, privileges, UDTs, super tables, pseudo-columns, version columns): they run SQL against INFORMATION_SCHEMA, and the query engine is not part of this model. `MetaHelpers.GetPatternAgreesWithFilter`, `GetSchemaPatternAgreesWithSchemasForPattern` and `GetCatalogPatternAgreesWithCheckCatalogName` relate the patterns they pass to the in-memory selections.
- `checkClosed`: a closed session throws before any listing starts. Sessions are not modelled; every call is on an open session.
- `getLike` and `CompareLike`: LIKE matching with `\` escapes is the given function `like`. Identifier equality (`equalsIdentifiers`) and the collation of `CompareMode` are given functions too.
- The collation is a hypothesis of the sorting lemmas. They assume it is a total preorder.
- `Schema.findTableOrView` is modelled as the first table or view of that name in the schema. Session-local temporary tables that it also finds are not modelled.
- `Database.findSchema` is modelled as the first schema of that name.
- The `constraints == null` guard is not modelled. A table's constraints are always a (possibly empty) sequence.
- TableTypes.NormalizeTableTypes: takes a sequence of strings, so a null element of the `types` array is not modelled. In the code it throws a NullPointerException from `Arrays.binarySearch` (h2/src/main/org/h2/jdbc/meta/DatabaseMetaLocal.java:265).
- `getString` of a null string is not modelled. Names are never null in the catalog; comments and defaults are `Option`s and become NULL.
- Object identity is modelled by value:
  - `fkTable != t` compares `TableId` values (schema and table name);
  - `schema == getMainSchema()` compares schema names.
- The result-set headers are given to the `SimpleResult` constructor as a list of (name, SQL type) pairs. The model does not make one `addColumn` call per column.
- Row-count and disk-space queries on an index (`getRowCount`, `getRowCountApproximation`, `getDiskSpaceUsed`) are fields of the index value.
- `SimpleResult.sortRows` with a `SortOrder` and `List.sort` with the comparator are both the stable insertion sort `Sorting.SortBy`. It compares on the key columns: NULL first, strings by the collation, numbers and booleans by value.
- The bodies of the Java loops over schemas, objects and constraints are methods of their own, each with its contract. The order of the appended rows is the same.
- Exceptions are `Err` values. The model does not distinguish the Java exception classes.
- PrimaryKeyRows.PrimaryKeyRow: states KEY_SEQ only when it fits in a SMALLINT. Beyond 32767 the `(short)` cast wraps; the row wraps too (`Values.ToShort`), but the contract states nothing about the wrapped value.
- CrossReferenceRows.CrossRow: states KEY_SEQ only when it fits in a SMALLINT, for the same reason.
- IndexRows.IndexRow: states ORDINAL_POSITION only when it fits in a SMALLINT, for the same reason.

## Findings

| source | as written | input that shows it | evidently intended | confidence | as-written member | corrected member |
|---|---|---|---|---|---|---|
| h2/src/main/org/h2/jdbc/meta/DatabaseMetaLocal.java:666 | `getImportedKeys` sorts through `sortCrossReferenceResult` (lines 834-837) on FKTABLE_CAT, FKTABLE_SCHEM, FKTABLE_NAME, KEY_SEQ. With one schema selected, every row shares the one referencing table, so the listing is sorted on KEY_SEQ alone | table T with foreign key FA on two columns referencing table A, and foreign key FB on one column referencing table B. The rows come out as (A, 1), (B, 1), (A, 2) | sort on PKTABLE_CAT, PKTABLE_SCHEM, PKTABLE_NAME, KEY_SEQ, as the JDBC contract of `getImportedKeys` specifies. The rows would come out as (A, 1), (A, 2), (B, 1) | not executed | CrossReferenceRows.ImportedKeysAsWrittenUnordered | CrossReferenceRows.ImportedKeysSorted |
