/** getDumpString: the whole dump, assembled from five builders filled by a loop over the
    ordered tables and a loop over the views, then post-processed with String.replace. */
module Dump {
  import opened Base
  import opened JavaStrings
  import opened CatalogReader
  import opened TableOrder
  import opened Ddl
  import opened Inserts
  import opened Indexes

  /** The comment written between the table part and the view part. */
  const ViewsComment := "\n-- Views: \n"

  /** The text the insert and index sections put after every semicolon. */
  const StatementMark := ";\n---"

  /** The text the view-insert section puts in place of every semicolon. */
  const ViewStatementMark := "\n---"

  /** What the table loop appends to the tables builder for each table: its DDL, then "---\n". */
  function TableDdls(c: Catalog, tables: seq<string>): seq<string>
  {
    seq(|tables|, i requires 0 <= i < |tables| => DdlText(c, tables[i], TableHeader(tables[i])) + "---\n")
  }

  /** What the table loop appends to the inserts builder for each table. */
  function TableInsertTexts(c: Catalog, tables: seq<string>): seq<string>
    requires ValidCatalog(c)
  {
    seq(|tables|, i requires 0 <= i < |tables| => TableInserts(c, tables[i]))
  }

  /** What the view loop appends to the view-tables builder for each view: its DDL, then "---\n". */
  function ViewDdls(c: Catalog, views: seq<string>): seq<string>
  {
    seq(|views|, i requires 0 <= i < |views| => DdlText(c, views[i], ViewHeader(views[i])) + "---\n")
  }

  /** What the view loop appends to the view-inserts builder for each view. */
  function ViewInsertTexts(c: Catalog, views: seq<string>): seq<string>
    requires ValidCatalog(c)
  {
    seq(|views|, i requires 0 <= i < |views| => ViewInserts(c, views[i]))
  }

  /** n copies of s, one after the other. */
  function Repeat(s: string, n: nat): string {
    if n == 0 then "" else Repeat(s, n - 1) + s
  }

  /** The dump: the driver header, the tables' DDL, the marked table inserts, the marked
      index statements (all of them once per table), the views comment, the views' DDL and
      the view inserts with every semicolon turned into a line break and "---". */
  function DumpText(c: Catalog, info: string): string
    requires ValidCatalog(c)
  {
    var ordered := SortedTablesOf(c);
    var views := ViewNames(c);
    info + Concat(TableDdls(c, ordered))
      + ReplaceChar(Concat(TableInsertTexts(c, ordered)), ';', StatementMark)
      + ReplaceChar(Repeat(IndexesText(c), |ordered|), ';', StatementMark)
      + ViewsComment + Concat(ViewDdls(c, views))
      + ReplaceChar(Concat(ViewInsertTexts(c, views)), ';', ViewStatementMark)
  }

  /** One round of the table loop: the table's DDL and "---\n", its inserts, and the indexes
      of the whole database. */
  method AppendTable(c: Catalog, tableName: string, tables: string, inserts: string, indexes: string)
    returns (tables': string, inserts': string, indexes': string)
    requires ValidCatalog(c)
    ensures tables' == tables + (DdlText(c, tableName, TableHeader(tableName)) + "---\n")
    ensures inserts' == inserts + TableInserts(c, tableName)
    ensures indexes' == indexes + IndexesText(c)
  {
    var ddl := GetDDLForTable(c, tableName);
    AppendAssoc(tables, ddl, "---\n");
    tables' := tables + ddl;
    tables' := tables' + "---\n";
    var insert := GetInsertsForTable(c, tableName);
    inserts' := inserts + insert;
    var index := GetDatabaseIndexes(c);
    indexes' := indexes + index;
  }

  /** The loop over the ordered tables. */
  method AppendTables(c: Catalog, orderedTables: seq<string>) returns (tables: string, inserts: string, indexes: string)
    requires ValidCatalog(c)
    ensures tables == Concat(TableDdls(c, orderedTables))
    ensures inserts == Concat(TableInsertTexts(c, orderedTables))
    ensures indexes == Repeat(IndexesText(c), |orderedTables|)
  {
    tables, inserts, indexes := "", "", "";
    ghost var ddls := TableDdls(c, orderedTables);
    ghost var insertTexts := TableInsertTexts(c, orderedTables);
    var i := 0;
    while i < |orderedTables|
      invariant 0 <= i <= |orderedTables|
      invariant tables == Concat(ddls[..i])
      invariant inserts == Concat(insertTexts[..i])
      invariant indexes == Repeat(IndexesText(c), i)
    {
      ConcatStep(ddls, i);
      ConcatStep(insertTexts, i);
      tables, inserts, indexes := AppendTable(c, orderedTables[i], tables, inserts, indexes);
      i := i + 1;
    }
    assert ddls[..i] == ddls;
    assert insertTexts[..i] == insertTexts;
  }

  /** One round of the view loop: the view's DDL and "---\n", and its inserts. */
  method AppendView(c: Catalog, view: string, viewTables: string, viewInserts: string)
    returns (viewTables': string, viewInserts': string)
    requires ValidCatalog(c)
    ensures viewTables' == viewTables + (DdlText(c, view, ViewHeader(view)) + "---\n")
    ensures viewInserts' == viewInserts + ViewInserts(c, view)
  {
    var ddl := GetDDLForView(c, view);
    AppendAssoc(viewTables, ddl, "---\n");
    viewTables' := viewTables + ddl;
    viewTables' := viewTables' + "---\n";
    var insert := GetInsertsForView(c, view);
    viewInserts' := viewInserts + insert;
  }

  /** The loop over the views. */
  method AppendViews(c: Catalog, views: seq<string>) returns (viewTables: string, viewInserts: string)
    requires ValidCatalog(c)
    ensures viewTables == Concat(ViewDdls(c, views))
    ensures viewInserts == Concat(ViewInsertTexts(c, views))
  {
    viewTables, viewInserts := "", "";
    ghost var ddls := ViewDdls(c, views);
    ghost var insertTexts := ViewInsertTexts(c, views);
    var i := 0;
    while i < |views|
      invariant 0 <= i <= |views|
      invariant viewTables == Concat(ddls[..i])
      invariant viewInserts == Concat(insertTexts[..i])
    {
      ConcatStep(ddls, i);
      ConcatStep(insertTexts, i);
      viewTables, viewInserts := AppendView(c, views[i], viewTables, viewInserts);
      i := i + 1;
    }
    assert ddls[..i] == ddls;
    assert insertTexts[..i] == insertTexts;
  }

  /** getDumpString, with the driver header given as `info`. */
  method GetDumpString(c: Catalog, info: string) returns (dump: string)
    requires ValidCatalog(c)
    ensures dump == DumpText(c, info)
  {
    var views := GetViewNames(c);
    var orderedTables := SortedTables(c);
    var tables, inserts, indexes := AppendTables(c, orderedTables);
    var viewTables, viewInserts := AppendViews(c, views);
    var comment := "\n-- Views: \n";
    var appendInserts := ReplaceChar(inserts, ';', ";\n---");
    var appendIndexes := ReplaceChar(indexes, ';', ";\n---");
    var appendViewInserts := ReplaceChar(viewInserts, ';', "\n---");
    dump := info + tables + appendInserts + appendIndexes + comment + viewTables + appendViewInserts;
  }

  /** Removes the "\n---" that follows every semicolon of a marked section. */
  function Unmark(t: string): string {
    if t == [] then ""
    else if t[0] == ';' && |t| >= |StatementMark| then ";" + Unmark(t[|StatementMark|..])
    else [t[0]] + Unmark(t[1..])
  }

  /** The marking of the insert and index sections loses nothing: every semicolon of the
      marked text is one of the original ones, followed by the mark, so removing the marks
      gives the section back. */
  lemma {:induction false} UnmarkRoundTrip(s: string)
    ensures Unmark(ReplaceChar(s, ';', StatementMark)) == s
  {
    if s != [] {
      UnmarkRoundTrip(s[1..]);
      var t := ReplaceChar(s, ';', StatementMark);
      if s[0] == ';' {
        assert t == StatementMark + ReplaceChar(s[1..], ';', StatementMark);
        assert t[|StatementMark|..] == ReplaceChar(s[1..], ';', StatementMark);
        assert ";" + s[1..] == s;
      } else {
        assert t == [s[0]] + ReplaceChar(s[1..], ';', StatementMark);
        assert t[1..] == ReplaceChar(s[1..], ';', StatementMark);
        assert [s[0]] + s[1..] == s;
      }
    }
  }

  /** Doubling quotes and marking semicolons commute on one character. */
  lemma EscapeMarkChar(ch: char)
    ensures ReplaceChar(Escape([ch]), ';', StatementMark) == Escape(ReplaceChar([ch], ';', StatementMark))
  {
    assert [ch][1..] == [];
    assert Escape([ch]) == (if ch == '\'' then "''" else [ch]) + ReplaceChar([], '\'', "''");
    assert ReplaceChar([ch], ';', StatementMark) == (if ch == ';' then StatementMark else [ch]) + ReplaceChar([], ';', StatementMark);
    if ch == ';' {
      assert ReplaceChar([ch], ';', StatementMark) == StatementMark;
      ReplaceCharAbsent(StatementMark, '\'', "''");
      assert Escape([ch]) == [ch];
    } else if ch == '\'' {
      assert Escape([ch]) == "''";
      assert ReplaceChar([ch], ';', StatementMark) == [ch];
      ReplaceCharAbsent("''", ';', StatementMark);
    } else {
      assert Escape([ch]) == [ch];
      assert ReplaceChar([ch], ';', StatementMark) == [ch];
    }
  }

  /** Doubling quotes and marking semicolons touch different characters, so they commute. */
  lemma {:induction false} EscapeMarkCommute(v: string)
    ensures ReplaceChar(Escape(v), ';', StatementMark) == Escape(ReplaceChar(v, ';', StatementMark))
  {
    if v != [] {
      var a, rest := [v[0]], v[1..];
      assert v == a + rest;
      EscapeMarkCommute(rest);
      EscapeMarkChar(v[0]);
      ReplaceCharAppend(a, rest, '\'', "''");
      ReplaceCharAppend(Escape(a), Escape(rest), ';', StatementMark);
      ReplaceCharAppend(a, rest, ';', StatementMark);
      ReplaceCharAppend(ReplaceChar(a, ';', StatementMark), ReplaceChar(rest, ';', StatementMark), '\'', "''");
    }
  }

  lemma {:induction false} CountPositive(s: string, c: char)
    requires c in s
    ensures Count(s, c) > 0
  {
    if s[0] != c {
      CountPositive(s[1..], c);
    }
  }

  /** The marking of the insert section also reaches semicolons inside quoted values: a
      marked literal reads back as the marked value, which differs from the stored value
      whenever that holds a semicolon. */
  lemma MarkedLiteralReadsBackMarked(v: string, rest: string)
    requires rest == [] || rest[0] != '\''
    ensures ParseLiteral(ReplaceChar(Quote(v), ';', StatementMark) + rest) ==
            Some((ReplaceChar(v, ';', StatementMark), rest))
    ensures ';' in v ==> ReplaceChar(v, ';', StatementMark) != v
  {
    var marked := ReplaceChar(v, ';', StatementMark);
    assert ReplaceChar(Quote(v), ';', StatementMark) == Quote(marked) by {
      ReplaceCharAbsent("'", ';', StatementMark);
      ReplaceCharAppend("'" + Escape(v), "'", ';', StatementMark);
      ReplaceCharAppend("'", Escape(v), ';', StatementMark);
      EscapeMarkCommute(v);
    }
    LiteralRoundTrip(marked, rest);
    if ';' in v {
      CountPositive(v, ';');
      ReplaceCharLength(v, ';', StatementMark);
    }
  }

  /** Every semicolon of the section, statement terminators and semicolons inside quoted
      values alike, grows the text by the four characters of "\n---". */
  lemma MarkedLength(s: string)
    ensures |ReplaceChar(s, ';', StatementMark)| == |s| + 4 * Count(s, ';')
  {
    ReplaceCharLength(s, ';', StatementMark);
  }

  /** Because getDatabaseIndexes runs once per ordered table, the index section of the dump
      is the marked index text of the whole database, once per table. */
  lemma {:induction false} IndexSectionRepeats(s: string, n: nat)
    ensures ReplaceChar(Repeat(s, n), ';', StatementMark) == Repeat(ReplaceChar(s, ';', StatementMark), n)
  {
    if n > 0 {
      IndexSectionRepeats(s, n - 1);
      ReplaceCharAppend(Repeat(s, n - 1), s, ';', StatementMark);
    }
  }

  /** The view-insert section of a dump holds no semicolon at all: every statement terminator
      has been turned into "\n---". */
  lemma ViewInsertsLoseSemicolons(c: Catalog)
    requires ValidCatalog(c)
    ensures ';' !in ReplaceChar(Concat(ViewInsertTexts(c, ViewNames(c))), ';', ViewStatementMark)
  {
    ReplaceCharRemoves(Concat(ViewInsertTexts(c, ViewNames(c))), ';', ViewStatementMark);
  }

  /** Unlike the marking of the insert section, the view-insert replacement cannot be undone:
      a terminator and a literal "\n---" in a value come out the same. */
  lemma ViewMarkingLosesTerminators()
    ensures ReplaceChar("x;", ';', ViewStatementMark) == ReplaceChar("x\n---", ';', ViewStatementMark)
  {
    assert ReplaceChar("x;", ';', ViewStatementMark) == "x\n---";
    ReplaceCharAbsent("x\n---", ';', ViewStatementMark);
  }

  /** A database without tables and views still gets the header and the views comment. */
  lemma EmptyDump(c: Catalog, info: string)
    requires ValidCatalog(c) && c.tables.None? && c.views.None?
    ensures DumpText(c, info) == info + ViewsComment
  {
    assert SortedTablesOf(c) == [];
    assert ReplaceChar("", ';', StatementMark) == "";
  }
}
