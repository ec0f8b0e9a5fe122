/** The result table every metadata operation fills: a fixed header of typed
    columns, a growing list of rows, and an in-place stable sort. */
module SimpleResults {
  import opened Values
  import opened Sorting

  datatype SqlType = Varchar | Integer | Smallint | Bigint | Boolean

  datatype ResultColumn = ResultColumn(name: string, sqlType: SqlType)

  class SimpleResult {
    var columns: seq<ResultColumn>
    var rows: seq<Row>

    /** A result with the given header (the operation's sequence of column
        additions) and no rows. */
    constructor (header: seq<ResultColumn>)
      ensures columns == header && rows == []
    {
      columns := header;
      rows := [];
    }

    /** Appends one row, which has one cell per column. */
    method AddRow(row: Row)
      requires |row| == |columns|
      modifies this
      ensures columns == old(columns)
      ensures rows == old(rows) + [row]
    {
      rows := rows + [row];
    }

    /** Sorts the rows in ascending order of the cells in the `key` columns,
        compared lexicographically; the sort is stable. */
    method SortRows(coll: (string, string) -> int, key: seq<nat>)
      modifies this
      ensures columns == old(columns)
      ensures rows == SortBy(old(rows), RowOrder(coll, key))
    {
      rows := SortBy(rows, RowOrder(coll, key));
    }
  }
}
