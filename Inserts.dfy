/** getInserts, getInsertsForTable and getInsertsForView: one INSERT statement per
    row of "SELECT * FROM name", with SQL single-quote doubling for text values. */
module Inserts {
  import opened Base
  import opened JavaStrings
  import opened CatalogReader

  /** The column type test of getInserts: the type name is "integer" in any letter case. */
  predicate IsIntegerType(typeName: string) {
    EqualsIgnoreCase(typeName, "integer")
  }

  /** What StringBuilder.append(String) writes: a SQL NULL arrives as a null String, written "null". */
  function AppendedText(cell: Option<string>): string {
    match cell
    case None => "null"
    case Some(v) => v
  }

  /** The value with every single quote doubled. */
  function Escape(v: string): string {
    ReplaceChar(v, '\'', "''")
  }

  /** The quoted literal written for a text value. */
  function Quote(v: string): string {
    "'" + Escape(v) + "'"
  }

  /** The text written for one cell: integer columns verbatim and unquoted (null as "null"),
      other columns quoted, and nothing at all for a null in them. */
  function CellText(typeName: string, cell: Option<string>): string {
    if IsIntegerType(typeName) then AppendedText(cell)
    else if cell.Some? then Quote(cell.value)
    else ""
  }

  function CellTexts(types: seq<string>, row: seq<Option<string>>): seq<string>
    requires |row| == |types|
  {
    seq(|types|, i requires 0 <= i < |types| => CellText(types[i], row[i]))
  }

  /** The statement for one row. */
  function RowText(tableName: string, types: seq<string>, row: seq<Option<string>>): string
    requires |row| == |types|
  {
    RowHead(tableName) + (Join(", ", CellTexts(types, row)) + ");\n")
  }

  function RowTexts(tableName: string, q: QueryResult): seq<string>
    requires WellFormed(q)
  {
    seq(|q.rows|, j requires 0 <= j < |q.rows| => RowText(tableName, q.columnTypes, q.rows[j]))
  }

  /** Everything getInserts appends for a result: the row statements in row order. */
  function InsertsText(tableName: string, q: QueryResult): string
    requires WellFormed(q)
  {
    Concat(RowTexts(tableName, q))
  }

  /** One cell of getInserts: an integer column appends the value as it is, any other column
      appends the quoted, escaped value when there is one. */
  method AppendCell(sb: string, typeName: string, cell: Option<string>) returns (s: string)
    ensures s == sb + CellText(typeName, cell)
  {
    s := sb;
    if EqualsIgnoreCase(typeName, "integer") {
      s := s + AppendedText(cell);
    } else if cell != None {
      var replacement := ReplaceChar(cell.value, '\'', "''");
      s := s + "'" + replacement + "'";
    }
  }

  /** The text getInserts opens every row statement with. */
  function RowHead(tableName: string): string {
    "INSERT INTO " + tableName + " VALUES("
  }

  /** The body of getInserts' row loop: "INSERT INTO name VALUES(", the cells with ", " before
      every column but the first, then ");\n". */
  method AppendRow(sb: string, tableName: string, types: seq<string>, row: seq<Option<string>>) returns (insert: string)
    requires |row| == |types|
    ensures insert == sb + RowText(tableName, types, row)
  {
    var columns := |types|;
    ghost var cells := CellTexts(types, row);
    var head := sb + "INSERT INTO " + tableName + " VALUES(";
    insert := head;
    var i := 1;
    while i < columns + 1
      invariant 1 <= i <= columns + 1
      invariant insert == head + Join(", ", cells[..i - 1])
    {
      if i > 1 {
        insert := insert + ", ";
      }
      insert := AppendCell(insert, types[i - 1], row[i - 1]);
      JoinStep(", ", cells, i - 1);
      AppendAssoc(head, Join(", ", cells[..i - 1]), (if i > 1 then ", " else "") + cells[i - 1]);
      i := i + 1;
    }
    assert cells[..i - 1] == cells;
    assert head == sb + RowHead(tableName) by {
      AppendAssoc(sb, "INSERT INTO ", tableName);
      AppendAssoc(sb, "INSERT INTO " + tableName, " VALUES(");
    }
    ghost var body := Join(", ", cells) + ");\n";
    AppendAssoc(sb + RowHead(tableName), Join(", ", cells), ");\n");
    AppendAssoc(sb, RowHead(tableName), body);
    insert := insert + ");\n";
  }

  /** getInserts: one statement per row, in row order. */
  method GetInserts(tableName: string, q: QueryResult) returns (insert: string)
    requires WellFormed(q)
    ensures insert == InsertsText(tableName, q)
  {
    insert := "";
    ghost var lines := RowTexts(tableName, q);
    var r := 0;
    while r < |q.rows|
      invariant 0 <= r <= |q.rows|
      invariant insert == Concat(lines[..r])
    {
      assert q.rows[r] in q.rows;
      insert := AppendRow(insert, tableName, q.columnTypes, q.rows[r]);
      ConcatStep(lines, r);
      r := r + 1;
    }
    assert lines[..r] == lines;
  }

  /** What getInsertsForTable returns: the rows of "SELECT * FROM name" under the bare name. */
  function TableInserts(c: Catalog, tableName: string): string
    requires ValidCatalog(c)
  {
    if tableName in c.selectAll then InsertsText(tableName, c.selectAll[tableName]) else ""
  }

  /** What getInsertsForView returns: the view's rows, inserted into "view_<name>". */
  function ViewInserts(c: Catalog, viewName: string): string
    requires ValidCatalog(c)
  {
    if viewName in c.selectAll then InsertsText("\"view_" + viewName + "\"", c.selectAll[viewName]) else ""
  }

  /** getInsertsForTable: the table's rows under its bare name; a failed query yields nothing. */
  method GetInsertsForTable(c: Catalog, tableName: string) returns (insert: string)
    requires ValidCatalog(c)
    ensures tableName !in c.selectAll ==> insert == ""
    ensures tableName in c.selectAll ==> insert == InsertsText(tableName, c.selectAll[tableName])
  {
    insert := "";
    if tableName in c.selectAll {
      insert := GetInserts(tableName, c.selectAll[tableName]);
    }
  }

  /** getInsertsForView: the view's rows inserted into "view_<name>"; a failed query yields nothing. */
  method GetInsertsForView(c: Catalog, viewName: string) returns (insert: string)
    requires ValidCatalog(c)
    ensures viewName !in c.selectAll ==> insert == ""
    ensures viewName in c.selectAll ==> insert == InsertsText("\"view_" + viewName + "\"", c.selectAll[viewName])
  {
    insert := "";
    if viewName in c.selectAll {
      var target := "\"view_" + viewName + "\"";
      insert := GetInserts(target, c.selectAll[viewName]);
    }
  }

  /** Collapses every doubled quote back to one. */
  function CollapseQuotes(t: string): string {
    if |t| >= 2 && t[0] == '\'' && t[1] == '\'' then "'" + CollapseQuotes(t[2..])
    else if t == [] then ""
    else [t[0]] + CollapseQuotes(t[1..])
  }

  /** Collapsing the doubled quotes of an escaped value gives the value back. */
  lemma {:induction false} CollapseEscape(v: string)
    ensures CollapseQuotes(Escape(v)) == v
  {
    if v != [] {
      CollapseEscape(v[1..]);
      if v[0] == '\'' {
        assert Escape(v) == "''" + Escape(v[1..]);
      } else {
        assert Escape(v) == [v[0]] + Escape(v[1..]);
      }
    }
  }

  /** Reads a SQL string literal after its opening quote: a doubled quote stands for one quote
      and a single quote ends the literal. Gives the value and the text after the literal. */
  function ReadQuoted(t: string): Option<(string, string)>
    decreases |t|
  {
    if t == [] then None
    else if t[0] != '\'' then
      match ReadQuoted(t[1..])
      case None => None
      case Some(p) => Some(([t[0]] + p.0, p.1))
    else if |t| > 1 && t[1] == '\'' then
      match ReadQuoted(t[2..])
      case None => None
      case Some(p) => Some(("'" + p.0, p.1))
    else Some(("", t[1..]))
  }

  /** Reads one SQL string literal at the start of t. */
  function ParseLiteral(t: string): Option<(string, string)> {
    if t != [] && t[0] == '\'' then ReadQuoted(t[1..]) else None
  }

  lemma {:induction false} ReadQuotedEscape(v: string, rest: string)
    requires rest == [] || rest[0] != '\''
    ensures ReadQuoted(Escape(v) + "'" + rest) == Some((v, rest))
  {
    var t := Escape(v) + "'" + rest;
    if v == [] {
      assert t == "'" + rest;
    } else if v[0] == '\'' {
      ReadQuotedEscape(v[1..], rest);
      assert t == "''" + (Escape(v[1..]) + "'" + rest);
      assert t[2..] == Escape(v[1..]) + "'" + rest;
      assert "'" + v[1..] == v;
    } else {
      ReadQuotedEscape(v[1..], rest);
      assert t == [v[0]] + (Escape(v[1..]) + "'" + rest);
      assert t[1..] == Escape(v[1..]) + "'" + rest;
      assert [v[0]] + v[1..] == v;
    }
  }

  /** A quoted text cell, read back as a SQL string literal, is the original value, and the
      reader stops right after it (the next text is ", " or ");", never a quote). */
  lemma LiteralRoundTrip(v: string, rest: string)
    requires rest == [] || rest[0] != '\''
    ensures ParseLiteral(Quote(v) + rest) == Some((v, rest))
  {
    ReadQuotedEscape(v, rest);
    assert (Quote(v) + rest)[1..] == Escape(v) + "'" + rest;
  }

  /** What each cell means: integer cells verbatim (a null one as "null"), a null in any other
      column as nothing, and any other value as a literal that reads back as the value. */
  lemma CellTextMeaning(typeName: string, cell: Option<string>, rest: string)
    requires rest == [] || rest[0] != '\''
    ensures IsIntegerType(typeName) && cell.Some? ==> CellText(typeName, cell) == cell.value
    ensures IsIntegerType(typeName) && cell.None? ==> CellText(typeName, cell) == "null"
    ensures !IsIntegerType(typeName) && cell.None? ==> CellText(typeName, cell) == ""
    ensures !IsIntegerType(typeName) && cell.Some? ==>
              ParseLiteral(CellText(typeName, cell) + rest) == Some((cell.value, rest))
  {
    if !IsIntegerType(typeName) && cell.Some? {
      LiteralRoundTrip(cell.value, rest);
    }
  }

  /** Every row statement lists its cells with ", " in front of every column but the first,
      so a row of n columns holds n - 1 separators. */
  lemma RowSeparators(tableName: string, types: seq<string>, row: seq<Option<string>>)
    requires |row| == |types| && |types| > 0
    ensures var cells := CellTexts(types, row);
            RowText(tableName, types, row) ==
              "INSERT INTO " + tableName + " VALUES(" + cells[0] + Concat(Prefixed(", ", cells[1..])) + ");\n"
            && |Join(", ", cells)| == TotalLength(cells) + 2 * (|types| - 1)
  {
    JoinIsFirstThenPrefixed(", ", CellTexts(types, row));
    JoinLength(", ", CellTexts(types, row));
  }

  /** Rows are rendered independently: the statements of two batches of rows are the
      statements of the first followed by those of the second. */
  lemma InsertsTextAppend(tableName: string, types: seq<string>, a: seq<seq<Option<string>>>, b: seq<seq<Option<string>>>)
    requires WellFormed(QueryResult(types, a)) && WellFormed(QueryResult(types, b))
    ensures WellFormed(QueryResult(types, a + b))
    ensures InsertsText(tableName, QueryResult(types, a + b)) ==
            InsertsText(tableName, QueryResult(types, a)) + InsertsText(tableName, QueryResult(types, b))
  {
    var ra := RowTexts(tableName, QueryResult(types, a));
    var rb := RowTexts(tableName, QueryResult(types, b));
    var rab := RowTexts(tableName, QueryResult(types, a + b));
    forall j | 0 <= j < |rab| ensures rab[j] == (ra + rb)[j] {
      if j < |a| {
        assert (a + b)[j] == a[j];
      } else {
        assert (a + b)[j] == b[j - |a|];
      }
    }
    assert rab == ra + rb;
    ConcatAppend(ra, rb);
  }
}
