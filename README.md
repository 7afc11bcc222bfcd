# DatabaseDumper201 — a Dafny model of the SQLite dump generator

`DatabaseDumper201` turns a JDBC connection to a SQLite database into one SQL script. The script holds:

- a driver header;
- for every table, in the order `sortedTables` gives, `DROP TABLE IF EXISTS` / `CREATE TABLE` text;
- one `INSERT` statement per row;
- `CREATE INDEX` statements;
- a `-- Views:` comment;
- every view frozen as a table named `view_<name>`, with its rows.

This project models the text generation and the table ordering. Every JDBC query becomes an input value.

- `CatalogReader.Catalog` holds:
  - the rows of `getTables`, for tables and for views;
  - per table name: the `getColumns` rows, the `getPrimaryKeys` column names, the `getImportedKeys` rows, the `getIndexInfo` rows, and the result of `SELECT * FROM name`.
- A cell is `Option<string>`, where `None` is SQL NULL.
- A name missing from one of the per-table maps stands for a query that threw `SQLException`. The model follows where each `try` block ends:
  - a failed `getImportedKeys` ends the `sortedTables` loop;
  - a failed query inside `getDDL` skips the rest of that try block, but `"\n);\n"` is still appended;
  - a failed `getIndexInfo` ends the `getDatabaseIndexes` loop.

The source appends to a local `StringBuilder` or `ArrayList` inside loops. Those loops are modelled as Dafny methods over local strings and sequences: `SortedTables`, `GetDDL` and its three loops, `GetInserts`, `GetDatabaseIndexes`, and `GetDumpString` with its table and view loops. Each method is proved equal to a specification function of its inputs:

- `SortedTablesOf`;
- `DdlText`;
- `InsertsText`;
- `IndexesText`;
- `DumpText`.

The properties the dumper promises are lemmas about those functions. `DatabaseDumper201` has no fields it updates, so there is no class.

Modules: `Base` (lists, joins, splitting), `JavaStrings` (`equalsIgnoreCase`, `contains`, `replace`), `CatalogReader`, `TableOrder`, `Ddl`, `Inserts`, `Indexes`, `Dump`.

The model keeps the source's quirks as written:

- A descending index column is written `DSC`.
- The direction follows the column name with no space, so an indexed column is written `idASC` or `idDSC`.
- A null in a non-integer column writes nothing between the separators, while a null in an integer column writes `null`.
- All index rows of a table go into one statement, named after the first row's index.
- Only the first index row's name is tested for `sqlite_autoindex`, so the rows of an automatic index that follow a user index's rows end up in the user index's statement (`Indexes.AutoIndexRowsJoinUserIndex`).
- `getIndexInfo` is asked for unique indexes only, and they are written back as plain `CREATE INDEX`, not `CREATE UNIQUE INDEX`; non-unique indexes are never dumped.
- The whole index text of the database is emitted once per ordered table, because `getDatabaseIndexes` runs inside the table loop.
- In the view inserts every `;` is replaced by `"\n---"`, so the view statements lose their terminators.
- The `";\n---"` marking of the insert section also reaches semicolons inside quoted values, so a text value holding `;` no longer reads back as the stored value (`Dump.MarkedLiteralReadsBackMarked`).
- `NOT NULL` is written only when `IS_NULLABLE` is `n` or `N`. JDBC drivers report `YES`/`NO`, so with them the clause never appears.
- `sortedTables` is not a full topological sort. It is correct for schemas one level deep (`OneLevelSchemaIsOrdered`), and `ChainOfThreeKeysIsMisordered` exhibits a chain of three keys it misorders.

Where the code departs from standard SQL or from what its comments suggest, this model follows the code:

- The code writes `DSC`, not `DESC`.
- The code omits a null text value; it does not write `NULL`.
- The code writes one `CREATE INDEX` per table, not one per index.
- The code single-quotes the index name.
- The code writes a table's `INSERT` statements with the bare, unquoted name.
- The code does not quote the table name in `CREATE INDEX ... ON`.

## Model

| member | source | states |
|---|---|---|
| CatalogReader.GetTableNames | DatabaseDumper201.java:27-42 | the result is the names of the rows whose type equals `TABLE` ignoring case and whose name does not contain `sqlite_`, in row order; a name is in it exactly when such a row carries it; a failed query gives the empty list |
| CatalogReader.FilterTablesMembers | DatabaseDumper201.java:33-36 | a name is kept if and only if some ordinary, non-`sqlite_` row carries it |
| CatalogReader.FilterTablesAppend | DatabaseDumper201.java:33-37 | the filter keeps row order: filtering a concatenation concatenates the filtered parts |
| CatalogReader.GetViewNames | DatabaseDumper201.java:101-115 | every view row's name, in row order, elementwise; the empty list when the query throws |
| TableOrder.SortedTables | DatabaseDumper201.java:48-98 | the in-place list algorithm (append, insert at an index, remove and reinsert) returns `SortedTablesOf`; the result has no duplicates, holds only listed tables and tables they reference, and, when every imported-key query succeeds, holds all of them |
| TableOrder.FkStepContents | DatabaseDumper201.java:60-84 | one imported-key row keeps the list free of duplicates and adds exactly the table and the referenced table |
| TableOrder.FkStepOrders | DatabaseDumper201.java:62-84 | right after a row in which a table references another table, the referenced table stands at a lower index than the referencing one |
| TableOrder.FkStepKeepsOrder | DatabaseDumper201.java:62-84 | one row never changes the relative order of two names, unless the second is the referenced table being moved forward |
| TableOrder.FkStepsContents | DatabaseDumper201.java:58-85 | all rows of one table keep the list duplicate-free and add the table (if it has rows) and exactly the tables its keys reference |
| TableOrder.FkStepsOrder | DatabaseDumper201.java:58-85 | after all imported-key rows of a table, every other table it references stands before it |
| TableOrder.ProcessTablesContents | DatabaseDumper201.java:55-91 | the table loop never duplicates a name and never adds anything but the tables and the tables they reference; when every key query succeeds, every table (lines 86-89) and every referenced table is in the result |
| TableOrder.ProcessTablesOrder | DatabaseDumper201.java:55-91 | on a one-level schema whose keys can all be read, the loop leaves every referenced table before each table that references it |
| TableOrder.OneLevelSchemaIsOrdered | DatabaseDumper201.java:48-98 | when no referenced table references a further table, the result is a correct creation order |
| TableOrder.ChainOfThreeKeysIsMisordered | DatabaseDumper201.java:73-84 | for `line_items -> invoices -> customers -> regions` listed as line_items, customers, invoices, regions, the result is customers, invoices, line_items, regions: `customers` precedes the `regions` table it references |
| JavaStrings.EqualsIgnoreCaseN | DatabaseDumper201.java:187 | `equalsIgnoreCase("n")` holds exactly for `n` and `N` |
| JavaStrings.ContainsIff | DatabaseDumper201.java:34 | `contains` holds exactly when the pattern occurs at some position |
| JavaStrings.ReplaceCharAppend | DatabaseDumper201.java:306-308 | `replace` of a one-character target distributes over concatenation |
| JavaStrings.ReplaceCharRemoves | DatabaseDumper201.java:308 | after `replace`, the target no longer occurs when the replacement does not contain it |
| JavaStrings.ReplaceCharLength | DatabaseDumper201.java:306-308 | every occurrence of the target grows the text by the replacement's length minus one |
| Ddl.ColumnLineNotNull | DatabaseDumper201.java:183-192 | a column line is the quoted name and the type, followed by ` NOT NULL` exactly when `IS_NULLABLE` is `n` or `N` |
| Ddl.PrimaryKeyText | DatabaseDumper201.java:195-210 | the primary-key clause is empty if and only if there are no key rows; otherwise it opens with `",\n  PRIMARY KEY ("` and the first column and ends with `")` |
| Ddl.DdlText | DatabaseDumper201.java:173-227 | the statement starts with its header and always ends with `\n);\n`, whatever query fails |
| Ddl.AppendColumns | DatabaseDumper201.java:178-193 | the `firstLine` loop writes the column lines in catalog order, `", \n"` between consecutive lines |
| Ddl.AppendPrimaryKey | DatabaseDumper201.java:195-210 | the `firstLine`/`empty` loop writes the primary-key clause, listing the quoted names in order joined by `", "`, and closes it only when a row was seen |
| Ddl.AppendForeignKeys | DatabaseDumper201.java:212-220 | one `FOREIGN KEY ... REFERENCES` clause per imported-key row, in row order |
| Ddl.GetDDL | DatabaseDumper201.java:173-227 | the three loops run in order in one try block; a failed query skips the rest of the block; the result is `DdlText` |
| Ddl.GetDDLForTable | DatabaseDumper201.java:139-144 | the table statement starts with `DROP TABLE IF EXISTS "name";` and the `CREATE TABLE` header |
| Ddl.GetDDLForView | DatabaseDumper201.java:161-165 | the view statement starts with `CREATE TABLE "view_name` and has no `DROP` |
| Inserts.AppendCell | DatabaseDumper201.java:265-270 | one cell of the row: integer columns verbatim, other columns quoted and escaped, a null in them nothing |
| Inserts.AppendRow | DatabaseDumper201.java:260-272 | one row is `INSERT INTO name VALUES(`, the cells with `", "` before every column but the first, then `);\n` |
| Inserts.GetInserts | DatabaseDumper201.java:255-275 | one statement per row, in row order |
| Inserts.GetInsertsForTable | DatabaseDumper201.java:147-158 | the rows of `SELECT * FROM name` under the bare name; nothing when the query fails |
| Inserts.GetInsertsForView | DatabaseDumper201.java:234-246 | the view's rows inserted into `"view_name"`; nothing when the query fails |
| Inserts.CollapseEscape | DatabaseDumper201.java:268 | collapsing every doubled quote of an escaped value gives the value back |
| Inserts.LiteralRoundTrip | DatabaseDumper201.java:267-269 | a quoted text cell, read as an SQL string literal, gives the original value, and the reader stops right after the closing quote |
| Inserts.CellTextMeaning | DatabaseDumper201.java:265-270 | integer cells are written verbatim and unquoted, a null one as `null`; a null in any other column is written as nothing; any other value is a literal that reads back as the value |
| Inserts.RowSeparators | DatabaseDumper201.java:259-273 | a row of n columns is the head, the first cell, each later cell preceded by `", "`, then `);\n`: n - 1 separators |
| Inserts.InsertsTextAppend | DatabaseDumper201.java:259-273 | rows are rendered independently: the text of two batches of rows is the text of the first followed by that of the second |
| Indexes.Order | DatabaseDumper201.java:340-354 | null gives the empty text, `"A"` gives `ASC`, and every other value gives `DSC`; none contains a comma |
| Indexes.AppendIndex | DatabaseDumper201.java:365-397 | the `firstLine`/`index` row loop writes `IndexStatement`: nothing for no rows or an automatic first index, else one statement for all rows |
| Indexes.GetDatabaseIndexes | DatabaseDumper201.java:357-405 | the statements of the tables of `getTableNames`, in order, up to the first table whose `getIndexInfo` fails |
| Indexes.IndexStatementMeaning | DatabaseDumper201.java:371-397 | a table's statement is empty if and only if it has no index rows or its first row is an automatic index; otherwise it opens with `CREATE INDEX 'first index' ON table (` and ends with `);\n`, and, when no column name holds a comma, the text between that opening and the closing `);\n` splits on commas back into every row's column-and-direction text (the name with `ASC`/`DSC` glued on; the two cannot be told apart) |
| Indexes.AutoIndexesOnly | DatabaseDumper201.java:378-384 | when every table's first index row is an automatic index, or the table has none, no statement is written (only the first row is tested; see `Indexes.AutoIndexRowsJoinUserIndex`) |
| Indexes.AutoIndexRowsJoinUserIndex | DatabaseDumper201.java:377-390 | the rows of an automatic index that follow a user index's rows are listed in the user index's statement: `idx_a` on `a` followed by `sqlite_autoindex_t_1` on `b` gives `CREATE INDEX 'idx_a' ON t (a,b);` |
| Indexes.FailureHidesLaterTables | DatabaseDumper201.java:360-403 | a failed `getIndexInfo` for a table hides every later table: the text is that of the tables before it |
| Indexes.IndexesOfAppend | DatabaseDumper201.java:363-398 | without failures, the index text of two table lists is that of the first followed by that of the second |
| Dump.AppendTables | DatabaseDumper201.java:290-296 | the table loop builds each table's DDL followed by `---\n`, the inserts in table order, and the database's index text once per table |
| Dump.AppendViews | DatabaseDumper201.java:297-302 | the view loop builds each view's DDL followed by `---\n`, and the view inserts in view order |
| Dump.GetDumpString | DatabaseDumper201.java:278-311 | the dump is the header, the tables' DDL, the marked inserts, the marked index sections, the views comment, the views' DDL and the view inserts with `;` replaced by `"\n---"`, in that order |
| Dump.UnmarkRoundTrip | DatabaseDumper201.java:306-307 | the `";\n---"` marking of the insert and index sections can be undone: removing the marks gives the section text back (the marked literals themselves read back differently, see `Dump.MarkedLiteralReadsBackMarked`) |
| Dump.MarkedLiteralReadsBackMarked | DatabaseDumper201.java:306 | a quoted text value, once the insert section is marked, reads back as an SQL literal giving the marked value, which differs from the stored value whenever the value holds a semicolon |
| Dump.MarkedLength | DatabaseDumper201.java:306-307 | the marking adds four characters per semicolon, statement terminators and semicolons inside quoted values alike |
| Dump.IndexSectionRepeats | DatabaseDumper201.java:295 | the marked index section is the marked index text of the database, repeated once per ordered table |
| Dump.ViewInsertsLoseSemicolons | DatabaseDumper201.java:308 | the view-insert section of the dump contains no semicolon |
| Dump.ViewMarkingLosesTerminators | DatabaseDumper201.java:308 | the view-insert replacement cannot be undone: a terminator and a literal `"\n---"` in a value come out the same |
| Dump.EmptyDump | DatabaseDumper201.java:278-311 | a database whose table and view queries fail still gets the header and the views comment, and nothing else |

## Left out

- JDBC plumbing is not modelled: `getConnection`, `DatabaseMetaData`, `Statement`, the `ResultSet` cursors and `close`. Every query result is an input value.
- `SQLException` handling is modelled only as "this query failed". The `printStackTrace` logging is left out.
- A query that fails part-way through its rows (`rs.next()` throwing after some rows) is not modelled; a query either succeeds with all its rows or fails before the first.
- A failure of `getConnection().getMetaData()` itself is not modelled separately.
- `getDriverInfo` is left out, because it only formats four integers from the driver. `Dump.GetDumpString` takes its text as the parameter `info`.
- `dumpToFileName` and `dumpToSystemOut` are left out, because they are file and console output of `getDumpString`.
- The constructor is left out; it is wiring and reflection (`getClass().getCanonicalName()`).
- Metadata strings are never null in the model. A null `IS_NULLABLE`, `INDEX_NAME` or type name, on which the source would throw `NullPointerException`, is not represented.
- Strings are sequences of Unicode scalar values, not of Java's UTF-16 code units. Java's UTF-16 lengths and lone surrogates are not represented, so the length counted by `JavaStrings.ReplaceCharLength` is in code points. Every test and replacement the source makes uses an ASCII pattern (`TABLE`, `sqlite_`, `n`, `integer`, `sqlite_autoindex`, `'`, `;`), so those results agree with Java's. Case folding is only what `equalsIgnoreCase` needs against those ASCII keywords.
- TableOrder.SortedTables: does not claim a full dependency order, because the source's insertion rules do not give one; the ordering is proved for one-level schemas and a misordered three-level chain is exhibited.
