/** The metadata and query results the dumper reads through JDBC, as values.
    Each per-table query is a map keyed by table name: a name missing from a map
    stands for a query that threw SQLException. */
module CatalogReader {
  import opened Base
  import opened JavaStrings

  /** A row of DatabaseMetaData.getTables: TABLE_NAME (column 3) and TABLE_TYPE (column 4). */
  datatype TableRow = TableRow(name: string, tableType: string)

  /** A row of DatabaseMetaData.getColumns. */
  datatype ColumnRow = ColumnRow(name: string, typeName: string, isNullable: string)

  /** A row of DatabaseMetaData.getImportedKeys: the local column and the table and column it references. */
  datatype ImportedKey = ImportedKey(fkColumn: string, pkTable: string, pkColumn: string)

  /** A row of DatabaseMetaData.getIndexInfo; ASC_OR_DESC may be NULL. */
  datatype IndexRow = IndexRow(indexName: string, columnName: string, ascOrDesc: Option<string>)

  /** The result of "SELECT * FROM name": the column type names and the rows; None is SQL NULL. */
  datatype QueryResult = QueryResult(columnTypes: seq<string>, rows: seq<seq<Option<string>>>)

  /** Every row has one cell per column, as a JDBC ResultSet does. */
  predicate WellFormed(q: QueryResult) {
    forall r :: r in q.rows ==> |r| == |q.columnTypes|
  }

  /** Everything the connection can answer. */
  datatype Catalog = Catalog(
    tables: Option<seq<TableRow>>,          // getTables(null, null, "%", null); None: it threw
    views: Option<seq<string>>,             // TABLE_NAME of getTables(null, null, null, {"VIEW"})
    columns: map<string, seq<ColumnRow>>,
    primaryKeys: map<string, seq<string>>,  // COLUMN_NAME of getPrimaryKeys, in catalog order
    importedKeys: map<string, seq<ImportedKey>>,
    indexInfo: map<string, seq<IndexRow>>,  // getIndexInfo(null, null, name, true, false): unique indexes only
    selectAll: map<string, QueryResult>)    // executeQuery("SELECT * FROM " + name)

  predicate ValidCatalog(c: Catalog) {
    forall name :: name in c.selectAll ==> WellFormed(c.selectAll[name])
  }

  /** The getTableNames row filter: an ordinary table, not one of SQLite's own. */
  predicate IsUserTable(row: TableRow) {
    EqualsIgnoreCase(row.tableType, "TABLE") && !Contains(row.name, "sqlite_")
  }

  /** The names of the rows the filter keeps, in row order. */
  function FilterTables(rows: seq<TableRow>): (names: seq<string>)
    ensures |names| <= |rows|
  {
    if rows == [] then []
    else (if IsUserTable(rows[0]) then [rows[0].name] else []) + FilterTables(rows[1..])
  }

  /** A name is kept exactly when some row of an ordinary, non-SQLite table carries it. */
  lemma {:induction false} FilterTablesMembers(rows: seq<TableRow>, n: string)
    ensures n in FilterTables(rows) <==> exists r :: r in rows && IsUserTable(r) && r.name == n
  {
    if rows != [] {
      FilterTablesMembers(rows[1..], n);
      if exists r :: r in rows && IsUserTable(r) && r.name == n {
        var r :| r in rows && IsUserTable(r) && r.name == n;
        if r != rows[0] {
          assert r in rows[1..];
        }
      }
      if exists r :: r in rows[1..] && IsUserTable(r) && r.name == n {
        var r :| r in rows[1..] && IsUserTable(r) && r.name == n;
        assert r in rows;
      }
    }
  }

  /** Filtering keeps the order of the rows: filtering a concatenation concatenates the results. */
  lemma {:induction false} FilterTablesAppend(a: seq<TableRow>, b: seq<TableRow>)
    ensures FilterTables(a + b) == FilterTables(a) + FilterTables(b)
  {
    if a == [] {
      assert a + b == b;
    } else {
      assert (a + b)[0] == a[0] && (a + b)[1..] == a[1..] + b;
      FilterTablesAppend(a[1..], b);
      var head := if IsUserTable(a[0]) then [a[0].name] else [];
      AppendAssoc(head, FilterTables(a[1..]), FilterTables(b));
    }
  }

  /** What getTableNames returns: the filtered names, or nothing when the query threw. */
  function TableNames(c: Catalog): seq<string> {
    match c.tables
    case None => []
    case Some(rows) => FilterTables(rows)
  }

  /** What getViewNames returns: every row's name, or nothing when the query threw. */
  function ViewNames(c: Catalog): seq<string> {
    match c.views
    case None => []
    case Some(names) => names
  }

  /** getTableNames: one pass over the getTables rows, appending the name of each kept row. */
  method GetTableNames(c: Catalog) returns (result: seq<string>)
    ensures result == TableNames(c)
    ensures forall n :: n in result <==> c.tables.Some? && exists r :: r in c.tables.value && IsUserTable(r) && r.name == n
  {
    result := [];
    if c.tables.None? {
      return;
    }
    var rows := c.tables.value;
    var i := 0;
    while i < |rows|
      invariant 0 <= i <= |rows|
      invariant result == FilterTables(rows[..i])
    {
      FilterTablesAppend(rows[..i], [rows[i]]);
      assert rows[..i + 1] == rows[..i] + [rows[i]];
      if EqualsIgnoreCase(rows[i].tableType, "TABLE") && !Contains(rows[i].name, "sqlite_") {
        result := result + [rows[i].name];
      }
      i := i + 1;
    }
    assert rows[..i] == rows;
    forall n ensures n in result <==> exists r :: r in rows && IsUserTable(r) && r.name == n {
      FilterTablesMembers(rows, n);
    }
  }

  /** getViewNames: every row's TABLE_NAME, in row order; nothing when the query threw. */
  method GetViewNames(c: Catalog) returns (result: seq<string>)
    ensures result == ViewNames(c)
    ensures c.views.None? ==> result == []
    ensures c.views.Some? ==> |result| == |c.views.value| && forall i :: 0 <= i < |result| ==> result[i] == c.views.value[i]
  {
    result := [];
    if c.views.None? {
      return;
    }
    var rows := c.views.value;
    var i := 0;
    while i < |rows|
      invariant 0 <= i <= |rows|
      invariant result == rows[..i]
    {
      var tableName := rows[i];
      result := result + [tableName];
      i := i + 1;
    }
  }
}
