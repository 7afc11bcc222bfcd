/** getDatabaseIndexes and order: one CREATE INDEX statement per table, built from the
    rows of DatabaseMetaData.getIndexInfo, with SQLite's automatic indexes left out. */
module Indexes {
  import opened Base
  import opened JavaStrings
  import opened CatalogReader

  /** order: the sort direction suffix written after an index column. Only "A" counts as
      ascending; every other reported value is written "DSC". */
  function Order(ascOrDesc: Option<string>): (r: string)
    ensures r == "" <==> ascOrDesc.None?
    ensures r == "ASC" <==> ascOrDesc == Some("A")
    ensures r == "DSC" <==> ascOrDesc.Some? && ascOrDesc.value != "A"
    ensures ',' !in r
  {
    if ascOrDesc.None? then ""
    else if ascOrDesc.value == "A" then "ASC"
    else "DSC"
  }

  /** The text written for one index row: the column name, then its direction. */
  function IndexColumn(row: IndexRow): string {
    row.columnName + Order(row.ascOrDesc)
  }

  function IndexColumns(rows: seq<IndexRow>): seq<string>
  {
    seq(|rows|, i requires 0 <= i < |rows| => IndexColumn(rows[i]))
  }

  /** The opening of the statement, named after the index of the first row. */
  function IndexHead(indexName: string, table: string): string {
    "CREATE INDEX '" + indexName + "' ON " + table + " ("
  }

  /** SQLite's automatic indexes carry "sqlite_autoindex" in their name. */
  predicate IsAutoIndex(indexName: string) {
    Contains(indexName, "sqlite_autoindex")
  }

  /** What getDatabaseIndexes appends for one table: nothing when the table has no index rows
      or the first row belongs to an automatic index, otherwise a single statement naming the
      first row's index and listing the columns of all rows, comma separated, in row order. */
  function IndexStatement(table: string, rows: seq<IndexRow>): string {
    if rows == [] || IsAutoIndex(rows[0].indexName) then ""
    else IndexHead(rows[0].indexName, table) + (Join(",", IndexColumns(rows)) + ");\n")
  }

  /** The statements of the tables in order, up to the first table whose getIndexInfo
      throws: the exception ends the loop, keeping what was appended before it. */
  function IndexesOf(tables: seq<string>, info: map<string, seq<IndexRow>>): string {
    if tables == [] || tables[0] !in info then ""
    else IndexStatement(tables[0], info[tables[0]]) + IndexesOf(tables[1..], info)
  }

  /** What getDatabaseIndexes returns, for the tables of getTableNames. */
  function IndexesText(c: Catalog): string {
    IndexesOf(TableNames(c), c.indexInfo)
  }

  /** The getIndexInfo row loop for one table. The index flag is raised by every row and
      lowered again when the first row is an automatic index, which also ends the loop. */
  method AppendIndex(table: string, rows: seq<IndexRow>) returns (statement: string)
    ensures statement == IndexStatement(table, rows)
  {
    statement := "";
    var index := false;
    var firstLine := true;
    ghost var columns := IndexColumns(rows);
    var i := 0;
    while i < |rows|
      invariant 0 <= i <= |rows|
      invariant firstLine <==> i == 0
      invariant index <==> i > 0
      invariant i == 0 ==> statement == ""
      invariant i > 0 ==> !IsAutoIndex(rows[0].indexName) &&
                          statement == IndexHead(rows[0].indexName, table) + Join(",", columns[..i])
    {
      var order := Order(rows[i].ascOrDesc);
      index := true;
      var columnName := rows[i].columnName;
      if firstLine {
        var indexName := rows[i].indexName;
        if Contains(indexName, "sqlite_autoindex") {
          index := false;
          break;
        }
        statement := statement + "CREATE INDEX '" + indexName + "' ON " + table + " (" + columnName + order;
        assert statement == IndexHead(indexName, table) + columns[0] by {
          assert "" + "CREATE INDEX '" == "CREATE INDEX '";
          AppendAssoc(IndexHead(indexName, table), columnName, order);
        }
        assert columns[..1] == [columns[0]];
        firstLine := false;
      } else {
        ghost var before := statement;
        statement := statement + "," + columnName + order;
        assert statement == before + ("," + columns[i]) by {
          AppendAssoc(before + ",", columnName, order);
          AppendAssoc(before, ",", columns[i]);
        }
        JoinStep(",", columns, i);
        AppendAssoc(IndexHead(rows[0].indexName, table), Join(",", columns[..i]), "," + columns[i]);
      }
      i := i + 1;
    }
    if index {
      assert columns[..i] == columns;
      AppendAssoc(IndexHead(rows[0].indexName, table), Join(",", columns), ");\n");
      statement := statement + ");\n";
    }
  }

  /** getDatabaseIndexes: the statements of every table, stopping at the first failed query. */
  method GetDatabaseIndexes(c: Catalog) returns (indexStatements: string)
    ensures indexStatements == IndexesText(c)
  {
    indexStatements := "";
    var tables := GetTableNames(c);
    var i := 0;
    while i < |tables|
      invariant 0 <= i <= |tables|
      invariant indexStatements + IndexesOf(tables[i..], c.indexInfo) == IndexesOf(tables, c.indexInfo)
    {
      if tables[i] !in c.indexInfo {
        break;
      }
      var statement := AppendIndex(tables[i], c.indexInfo[tables[i]]);
      assert tables[i..][1..] == tables[i + 1..];
      AppendAssoc(indexStatements, statement, IndexesOf(tables[i + 1..], c.indexInfo));
      indexStatements := indexStatements + statement;
      i := i + 1;
    }
  }

  /** The statement for a table is empty exactly when there are no index rows or the first
      row is an automatic index; otherwise it opens with the first row's index name and closes
      with ");\n", and the text between the two splits on commas back into every row's
      column-and-direction text when no column name holds a comma. */
  lemma IndexStatementMeaning(table: string, rows: seq<IndexRow>)
    ensures IndexStatement(table, rows) == "" <==> rows == [] || IsAutoIndex(rows[0].indexName)
    ensures rows != [] && !IsAutoIndex(rows[0].indexName) ==>
              var r := IndexStatement(table, rows);
              var head := IndexHead(rows[0].indexName, table);
              && head <= r && EndsWith(r, ");\n")
              && ((forall i :: 0 <= i < |rows| ==> ',' !in rows[i].columnName) ==>
                    Split(r[|head|..|r| - 3], ',') == IndexColumns(rows))
  {
    if rows != [] && !IsAutoIndex(rows[0].indexName) {
      StatementParts(table, rows);
      if forall i :: 0 <= i < |rows| ==> ',' !in rows[i].columnName {
        ColumnsSplit(rows);
      }
    }
  }

  /** A written statement is its head, the joined column texts, and ");\n". */
  lemma StatementParts(table: string, rows: seq<IndexRow>)
    requires rows != [] && !IsAutoIndex(rows[0].indexName)
    ensures var r := IndexStatement(table, rows);
            var head := IndexHead(rows[0].indexName, table);
            && head <= r && EndsWith(r, ");\n")
            && r[|head|..|r| - 3] == Join(",", IndexColumns(rows))
  {
    var r := IndexStatement(table, rows);
    var head := IndexHead(rows[0].indexName, table);
    var joined := Join(",", IndexColumns(rows));
    var tail := joined + ");\n";
    assert r == head + tail;
    assert r[|r| - 3..] == tail[|tail| - 3..];
    assert r[|head|..|r| - 3] == joined;
  }

  /** Column texts without commas survive the join and a split on commas. */
  lemma ColumnsSplit(rows: seq<IndexRow>)
    requires rows != [] && forall i :: 0 <= i < |rows| ==> ',' !in rows[i].columnName
    ensures Split(Join(",", IndexColumns(rows)), ',') == IndexColumns(rows)
  {
    var columns := IndexColumns(rows);
    forall i | 0 <= i < |columns| ensures ',' !in columns[i] {
      assert columns[i] == rows[i].columnName + Order(rows[i].ascOrDesc);
    }
    SplitJoin(columns, ',');
  }

  /** Only the first row's index name is tested: the rows of an automatic index that follow
      a user index's rows are listed in the user index's statement. */
  lemma AutoIndexRowsJoinUserIndex()
    ensures IndexStatement("t", [IndexRow("idx_a", "a", None), IndexRow("sqlite_autoindex_t_1", "b", None)]) ==
            "CREATE INDEX 'idx_a' ON t (a,b);\n"
  {
    var rows := [IndexRow("idx_a", "a", None), IndexRow("sqlite_autoindex_t_1", "b", None)];
    assert !IsAutoIndex("idx_a");
    assert IndexColumn(rows[0]) == "a" && IndexColumn(rows[1]) == "b";
    assert IndexColumns(rows) == ["a", "b"];
    assert Join(",", ["a", "b"]) == "a,b" by {
      assert ["a", "b"][1..] == ["b"];
    }
  }

  /** Automatic indexes leave no trace: when every table's index rows are empty or start
      with an automatic index, no statement is written at all. */
  lemma {:induction false} AutoIndexesOnly(tables: seq<string>, info: map<string, seq<IndexRow>>)
    requires forall t :: t in info ==> info[t] == [] || IsAutoIndex(info[t][0].indexName)
    ensures IndexesOf(tables, info) == ""
  {
    if tables != [] && tables[0] in info {
      AutoIndexesOnly(tables[1..], info);
    }
  }

  /** A table whose getIndexInfo throws ends the dump of indexes: the text is that of the
      tables before it, and the tables after it contribute nothing. */
  lemma {:induction false} FailureHidesLaterTables(tables: seq<string>, info: map<string, seq<IndexRow>>, i: nat)
    requires i < |tables| && tables[i] !in info
    ensures IndexesOf(tables, info) == IndexesOf(tables[..i], info)
  {
    if i > 0 && tables[0] in info {
      assert tables[1..][..i - 1] == tables[..i][1..];
      FailureHidesLaterTables(tables[1..], info, i - 1);
    }
  }

  /** Without failures the text is every table's statement, in table order. */
  lemma {:induction false} IndexesOfAppend(a: seq<string>, b: seq<string>, info: map<string, seq<IndexRow>>)
    requires forall t :: t in a ==> t in info
    ensures IndexesOf(a + b, info) == IndexesOf(a, info) + IndexesOf(b, info)
  {
    if a == [] {
      assert a + b == b;
    } else {
      assert (a + b)[1..] == a[1..] + b;
      IndexesOfAppend(a[1..], b, info);
      AppendAssoc(IndexStatement(a[0], info[a[0]]), IndexesOf(a[1..], info), IndexesOf(b, info));
    }
  }
}
