/** getDDL, getDDLForTable and getDDLForView: the CREATE TABLE text of a table or
    of a view frozen as a table, built from its columns, primary key and imported keys. */
module Ddl {
  import opened Base
  import opened JavaStrings
  import opened CatalogReader

  /** A name in double quotes. */
  function Quoted(name: string): string {
    "\"" + name + "\""
  }

  /** A column's name and type, as the columns loop writes them. */
  function ColumnDecl(col: ColumnRow): string {
    "  " + Quoted(col.name) + " " + col.typeName
  }

  /** The text appended for one column: its declaration, then NOT NULL when IS_NULLABLE says so. */
  function ColumnLine(col: ColumnRow): string {
    ColumnDecl(col) + (if EqualsIgnoreCase(col.isNullable, "n") then " NOT NULL" else "")
  }

  /** NOT NULL is emitted exactly for the IS_NULLABLE values n and N. */
  lemma ColumnLineNotNull(col: ColumnRow)
    ensures ColumnLine(col) == ColumnDecl(col) + (if col.isNullable == "n" || col.isNullable == "N" then " NOT NULL" else "")
  {
    EqualsIgnoreCaseN(col.isNullable);
  }

  function ColumnLines(cols: seq<ColumnRow>): seq<string>
  {
    seq(|cols|, i requires 0 <= i < |cols| => ColumnLine(cols[i]))
  }

  /** The column part: one line per column, in catalog order, separated by ", \n". */
  function ColumnsText(cols: seq<ColumnRow>): string {
    Join(", \n", ColumnLines(cols))
  }

  function QuotedNames(names: seq<string>): seq<string>
  {
    seq(|names|, i requires 0 <= i < |names| => Quoted(names[i]))
  }

  /** The primary-key clause: present exactly when the key has a column, listing the quoted
      column names in catalog order. */
  function PrimaryKeyText(pks: seq<string>): (r: string)
    ensures r == "" <==> pks == []
    ensures pks != [] ==> ",\n  PRIMARY KEY (\"" + pks[0] + "\"" <= r && EndsWith(r, "\")")
  {
    if pks == [] then ""
    else
      var joined := Join(", ", QuotedNames(pks));
      JoinIsFirstThenPrefixed(", ", QuotedNames(pks));
      assert EndsWith(joined, "\"") by {
        if |pks| > 1 {
          var items := Prefixed(", ", QuotedNames(pks)[1..]);
          LastOfConcat(items);
        }
      }
      ",\n  PRIMARY KEY (" + joined + ")"
  }

  /** The last item's last character ends the concatenation. */
  lemma {:induction false} LastOfConcat(items: seq<string>)
    requires items != [] && forall i :: 0 <= i < |items| ==> EndsWith(items[i], "\"")
    ensures EndsWith(Concat(items), "\"")
  {
    if |items| > 1 {
      LastOfConcat(items[1..]);
    } else {
      assert Concat(items) == items[0] + "";
    }
  }

  /** The clause for one imported-key row. */
  function ForeignKeyClause(k: ImportedKey): string {
    ",\n" + "  FOREIGN KEY " + "(\"" + k.fkColumn + "\")" + " REFERENCES \"" + k.pkTable + "\"(\"" + k.pkColumn + "\"" + ")"
  }

  function ForeignKeyClauses(keys: seq<ImportedKey>): seq<string>
  {
    seq(|keys|, i requires 0 <= i < |keys| => ForeignKeyClause(keys[i]))
  }

  /** One FOREIGN KEY clause per imported-key row, in row order. */
  function ForeignKeyText(keys: seq<ImportedKey>): string {
    Concat(ForeignKeyClauses(keys))
  }

  /** What the try block appends: a failed query skips itself and everything after it. */
  function DdlBody(c: Catalog, name: string): string {
    if name !in c.columns then ""
    else if name !in c.primaryKeys then ColumnsText(c.columns[name])
    else if name !in c.importedKeys then ColumnsText(c.columns[name]) + PrimaryKeyText(c.primaryKeys[name])
    else ColumnsText(c.columns[name]) + PrimaryKeyText(c.primaryKeys[name]) + ForeignKeyText(c.importedKeys[name])
  }

  /** What getDDL returns for a statement begun with `header`: it always closes with "\n);\n". */
  function DdlText(c: Catalog, name: string, header: string): (r: string)
    ensures header <= r && EndsWith(r, "\n);\n")
  {
    header + DdlBody(c, name) + "\n);\n"
  }

  function TableHeader(name: string): string {
    "DROP TABLE IF EXISTS \"" + name + "\";\n" + "CREATE TABLE " + "\"" + name + "\"" + " (\n"
  }

  function ViewHeader(name: string): string {
    "CREATE TABLE " + "\"view_" + name + "\" (\n"
  }

  /** The getColumns loop of getDDL: a ", \n" before every column but the first. */
  method AppendColumns(sb: string, cols: seq<ColumnRow>) returns (ddl: string)
    ensures ddl == sb + ColumnsText(cols)
  {
    ddl := sb;
    var firstLine := true;
    ghost var lines := ColumnLines(cols);
    var i := 0;
    while i < |cols|
      invariant 0 <= i <= |cols|
      invariant firstLine <==> i == 0
      invariant ddl == sb + Join(", \n", lines[..i])
    {
      ghost var separated := ddl;
      if !firstLine {
        ddl := ddl + ", \n";
      }
      firstLine := false;
      var columnName := "\"" + cols[i].name + "\"";
      var typeName := cols[i].typeName;
      var nullable := if EqualsIgnoreCase(cols[i].isNullable, "n") then " NOT NULL" else "";
      var line := "  " + columnName + " " + typeName + nullable;
      assert line == lines[i];
      JoinStep(", \n", lines, i);
      AppendAssoc(separated, if i > 0 then ", \n" else "", line);
      AppendAssoc(sb, Join(", \n", lines[..i]), (if i > 0 then ", \n" else "") + line);
      ddl := ddl + line;
      i := i + 1;
    }
    assert lines[..i] == lines;
  }

  /** The getPrimaryKeys loop of getDDL: the clause is opened on the first row and closed
      after the loop only if some row was seen. */
  method AppendPrimaryKey(sb: string, pks: seq<string>) returns (ddl: string)
    ensures ddl == sb + PrimaryKeyText(pks)
  {
    ddl := sb;
    var firstLine := true;
    var empty := true;
    ghost var names := QuotedNames(pks);
    ghost var opening := ",\n  PRIMARY KEY (";
    var j := 0;
    while j < |pks|
      invariant 0 <= j <= |pks|
      invariant firstLine == empty == (j == 0)
      invariant j == 0 ==> ddl == sb
      invariant j > 0 ==> ddl == sb + opening + Join(", ", names[..j])
    {
      ghost var before := ddl;
      empty := false;
      if firstLine {
        ddl := ddl + ",\n  PRIMARY KEY (";
      } else {
        ddl := ddl + ", ";
      }
      firstLine := false;
      ddl := ddl + "\"" + pks[j] + "\"";
      JoinStep(", ", names, j);
      if j == 0 {
        assert ddl == sb + opening + Quoted(pks[j]) by {
          AppendAssoc(sb + opening, "\"" + pks[j], "\"");
          AppendAssoc(sb + opening, "\"", pks[j]);
        }
      } else {
        assert ddl == sb + opening + (Join(", ", names[..j]) + (", " + Quoted(pks[j]))) by {
          AppendAssoc(before + ", " + "\"" + pks[j], "\"", "");
          AppendAssoc(before + ", ", "\"" + pks[j], "\"");
          AppendAssoc(before + ", ", "\"", pks[j]);
          AppendAssoc(before, ", ", Quoted(pks[j]));
          AppendAssoc(sb + opening, Join(", ", names[..j]), ", " + Quoted(pks[j]));
        }
      }
      j := j + 1;
    }
    if !empty {
      assert names[..j] == names;
      ddl := ddl + ")";
      AppendAssoc(sb + opening, Join(", ", names), ")");
      AppendAssoc(sb, opening, Join(", ", names) + ")");
      assert PrimaryKeyText(pks) == opening + (Join(", ", names) + ")");
    }
  }

  /** The getImportedKeys loop of getDDL: one clause per row. */
  method AppendForeignKeys(sb: string, keys: seq<ImportedKey>) returns (ddl: string)
    ensures ddl == sb + ForeignKeyText(keys)
  {
    ddl := sb;
    ghost var clauses := ForeignKeyClauses(keys);
    var k := 0;
    while k < |keys|
      invariant 0 <= k <= |keys|
      invariant ddl == sb + Concat(clauses[..k])
    {
      var foreignTable := keys[k].pkTable;
      var foreignColumn := keys[k].pkColumn;
      var foreignKey := keys[k].fkColumn;
      var clause := ",\n" + "  FOREIGN KEY " + "(\"" + foreignKey + "\")" + " REFERENCES \"" + foreignTable + "\"(\"" + foreignColumn + "\"" + ")";
      assert clause == clauses[k];
      ConcatStep(clauses, k);
      AppendAssoc(sb, Concat(clauses[..k]), clause);
      ddl := ddl + clause;
      k := k + 1;
    }
    assert clauses[..k] == clauses;
  }

  /** getDDL: the three loops run in order inside one try block; whatever happens, the
      statement is closed with "\n);\n". */
  method GetDDL(c: Catalog, tableName: string, header: string) returns (ddl: string)
    ensures ddl == DdlText(c, tableName, header)
  {
    ddl := header;
    if tableName in c.columns {
      ddl := AppendColumns(ddl, c.columns[tableName]);
      ghost var columns := ColumnsText(c.columns[tableName]);
      if tableName in c.primaryKeys {
        ddl := AppendPrimaryKey(ddl, c.primaryKeys[tableName]);
        ghost var primaryKey := PrimaryKeyText(c.primaryKeys[tableName]);
        AppendAssoc(header, columns, primaryKey);
        if tableName in c.importedKeys {
          ddl := AppendForeignKeys(ddl, c.importedKeys[tableName]);
          AppendAssoc(header, columns + primaryKey, ForeignKeyText(c.importedKeys[tableName]));
        }
      }
    }
    assert ddl == header + DdlBody(c, tableName);
    ddl := ddl + "\n);\n";
  }

  /** getDDLForTable: the statement opens with DROP TABLE IF EXISTS and CREATE TABLE for the table. */
  method GetDDLForTable(c: Catalog, tableName: string) returns (ddl: string)
    ensures ddl == DdlText(c, tableName, TableHeader(tableName))
    ensures TableHeader(tableName) <= ddl
    ensures "DROP TABLE IF EXISTS \"" + tableName + "\";\n" <= ddl
  {
    ddl := GetDDL(c, tableName, TableHeader(tableName));
    assert "DROP TABLE IF EXISTS \"" + tableName + "\";\n" <= TableHeader(tableName);
  }

  /** getDDLForView: no DROP; the view's rows are kept in a table named view_<name>. */
  method GetDDLForView(c: Catalog, viewName: string) returns (ddl: string)
    ensures ddl == DdlText(c, viewName, ViewHeader(viewName))
    ensures ViewHeader(viewName) <= ddl
    ensures "CREATE TABLE \"view_" + viewName <= ddl && ddl[..4] != "DROP"
  {
    ddl := GetDDL(c, viewName, ViewHeader(viewName));
    assert "CREATE TABLE \"view_" + viewName <= ViewHeader(viewName);
    assert ddl[..4] == "CREA" by {
      assert ddl[..4] == ViewHeader(viewName)[..4];
    }
  }
}
