/** sortedTables: orders the table names so that, as far as its insertion rules
    reach, a table referenced by a foreign key comes before the table holding it. */
module TableOrder {
  import opened Base
  import opened CatalogReader

  /** The effect of one imported-key row of `table` that names `refer` on the list built so far. */
  function FkStep(sorted: seq<string>, table: string, refer: string): seq<string> {
    var index := IndexOf(sorted, table);
    if index == -1 then
      var s := if refer in sorted then sorted else sorted + [refer];
      if table in s then s else s + [table]
    else if refer !in sorted then InsertAt(sorted, index, refer)
    else if IndexOf(sorted, refer) > index then InsertAt(RemoveFirst(sorted, refer), index, refer)
    else sorted
  }

  /** All imported-key rows of one table, in row order. */
  function FkSteps(sorted: seq<string>, table: string, keys: seq<ImportedKey>): seq<string>
    decreases |keys|
  {
    if keys == [] then sorted else FkSteps(FkStep(sorted, table, keys[0].pkTable), table, keys[1..])
  }

  /** The for loop over the table names. A table whose imported keys cannot be read
      ends the loop, as the SQLException leaves the try block. */
  function ProcessTables(sorted: seq<string>, tables: seq<string>, fks: map<string, seq<ImportedKey>>): seq<string>
    decreases |tables|
  {
    if tables == [] || tables[0] !in fks then sorted
    else
      var s := FkSteps(sorted, tables[0], fks[tables[0]]);
      ProcessTables(if tables[0] in s then s else s + [tables[0]], tables[1..], fks)
  }

  /** What sortedTables returns for the catalog. */
  function SortedTablesOf(c: Catalog): seq<string> {
    ProcessTables([], TableNames(c), c.importedKeys)
  }

  /** `referenced` is named by one of the keys. */
  ghost predicate Refers(keys: seq<ImportedKey>, referenced: string) {
    exists k :: k in keys && k.pkTable == referenced
  }

  /** x is one of the tables, or a table one of them references. */
  ghost predicate Mentioned(x: string, tables: seq<string>, fks: map<string, seq<ImportedKey>>) {
    x in tables || exists t :: t in tables && t in fks && Refers(fks[t], x)
  }

  /** The imported keys of every table could be read. */
  predicate AllKeysRead(tables: seq<string>, fks: map<string, seq<ImportedKey>>) {
    forall t :: t in tables ==> t in fks
  }

  /** One step never duplicates a name and adds exactly the table and the referenced table. */
  lemma FkStepContents(sorted: seq<string>, table: string, refer: string)
    requires NoDup(sorted)
    ensures NoDup(FkStep(sorted, table, refer))
    ensures forall x :: x in FkStep(sorted, table, refer) <==> x in sorted || x == table || x == refer
  {
    var index := IndexOf(sorted, table);
    if index == -1 {
      var s := if refer in sorted then sorted else sorted + [refer];
      if refer !in sorted { NoDupAppend(sorted, refer); }
      if table !in s { NoDupAppend(s, table); }
    } else if refer !in sorted {
      NoDupInsertAt(sorted, index, refer);
    } else if IndexOf(sorted, refer) > index {
      NoDupRemoveFirst(sorted, refer);
      NoDupInsertAt(RemoveFirst(sorted, refer), index, refer);
    }
  }

  /** Right after a row in which `table` references another table, that table stands before `table`. */
  lemma FkStepOrders(sorted: seq<string>, table: string, refer: string)
    requires NoDup(sorted) && refer != table
    ensures Before(FkStep(sorted, table, refer), refer, table)
  {
    FkStepContents(sorted, table, refer);
    var r := FkStep(sorted, table, refer);
    var index := IndexOf(sorted, table);
    if index == -1 {
      if refer in sorted {
        IndexOfAppend(sorted, [table], refer);
        assert r[|sorted|] == table;
        IndexOfUnique(r, |sorted|);
      } else {
        assert r == sorted + [refer] + [table] && r[|sorted|] == refer && r[|sorted| + 1] == table;
        IndexOfUnique(r, |sorted|);
        IndexOfUnique(r, |sorted| + 1);
      }
    } else if refer !in sorted {
      assert r[index] == refer && r[index + 1] == table;
      IndexOfUnique(r, index);
      IndexOfUnique(r, index + 1);
    } else if IndexOf(sorted, refer) > index {
      var removed := RemoveFirst(sorted, refer);
      assert removed[index] == table;
      assert r[index] == refer && r[index + 1] == table;
      IndexOfUnique(r, index);
      IndexOfUnique(r, index + 1);
    } else {
      assert IndexOf(sorted, refer) != index;
    }
  }

  /** One step keeps x before y unless y is the referenced table being moved forward. */
  lemma FkStepKeepsOrder(sorted: seq<string>, table: string, refer: string, x: string, y: string)
    requires NoDup(sorted) && Before(sorted, x, y)
    requires y != refer || refer == table
    ensures Before(FkStep(sorted, table, refer), x, y)
  {
    var index := IndexOf(sorted, table);
    if index == -1 {
      AppendKeepsPositions(sorted, FkStep(sorted, table, refer), x, y);
    } else if refer !in sorted {
      IndexOfInsertAt(sorted, index, refer, x);
      IndexOfInsertAt(sorted, index, refer, y);
    } else if IndexOf(sorted, refer) > index {
      MoveKeepsPositions(sorted, index, refer, x, y);
    }
  }

  /** Appending after the names already placed keeps their positions. */
  lemma AppendKeepsPositions(sorted: seq<string>, r: seq<string>, x: string, y: string)
    requires sorted <= r && x in sorted && y in sorted && IndexOf(sorted, x) < IndexOf(sorted, y)
    ensures x in r && y in r && IndexOf(r, x) < IndexOf(r, y)
  {
    assert r == sorted + r[|sorted|..];
    IndexOfAppend(sorted, r[|sorted|..], x);
    IndexOfAppend(sorted, r[|sorted|..], y);
  }

  /** Moving refer forward to position index keeps x before y, unless y is refer. */
  lemma MoveKeepsPositions(sorted: seq<string>, index: nat, refer: string, x: string, y: string)
    requires NoDup(sorted) && index < |sorted| && refer in sorted && IndexOf(sorted, refer) > index
    requires x in sorted && y in sorted && IndexOf(sorted, x) < IndexOf(sorted, y) && y != refer
    ensures var r := InsertAt(RemoveFirst(sorted, refer), index, refer);
            x in r && y in r && IndexOf(r, x) < IndexOf(r, y)
  {
    if x == refer {
      MovedKeepsAhead(sorted, index, refer, y);
    } else {
      MoveKeepsOthers(sorted, index, refer, x, y);
    }
  }

  /** The moved name lands at index, ahead of every name that was at index or later. */
  lemma MovedKeepsAhead(sorted: seq<string>, index: nat, refer: string, y: string)
    requires NoDup(sorted) && index < |sorted| && refer in sorted && IndexOf(sorted, refer) > index
    requires y in sorted && IndexOf(sorted, refer) < IndexOf(sorted, y)
    ensures var r := InsertAt(RemoveFirst(sorted, refer), index, refer);
            refer in r && y in r && IndexOf(r, refer) < IndexOf(r, y)
  {
    var removed := RemoveFirst(sorted, refer);
    NoDupRemoveFirst(sorted, refer);
    assert y != refer && y in removed;
    IndexOfRemoveFirst(sorted, refer, y);
    assert IndexOf(removed, y) == IndexOf(sorted, y) - 1 >= index;
    var r := InsertAt(removed, index, refer);
    IndexOfInsertAt(removed, index, refer, y);
    assert IndexOf(r, y) == IndexOf(removed, y) + 1;
    NoDupInsertAt(removed, index, refer);
    IndexOfUnique(r, index);
  }

  /** Names other than the moved one keep their relative order. */
  lemma MoveKeepsOthers(sorted: seq<string>, index: nat, refer: string, x: string, y: string)
    requires NoDup(sorted) && index < |sorted| && refer in sorted && IndexOf(sorted, refer) > index
    requires x in sorted && y in sorted && IndexOf(sorted, x) < IndexOf(sorted, y) && x != refer && y != refer
    ensures var r := InsertAt(RemoveFirst(sorted, refer), index, refer);
            x in r && y in r && IndexOf(r, x) < IndexOf(r, y)
  {
    var removed := RemoveFirst(sorted, refer);
    NoDupRemoveFirst(sorted, refer);
    IndexOfRemoveFirst(sorted, refer, x);
    IndexOfRemoveFirst(sorted, refer, y);
    IndexOfInsertAt(removed, index, refer, x);
    IndexOfInsertAt(removed, index, refer, y);
  }

  /** Processing one table's keys never duplicates a name and adds exactly the referenced tables
      (and the table itself, once it has a key). */
  lemma {:induction false} FkStepsContents(sorted: seq<string>, table: string, keys: seq<ImportedKey>)
    requires NoDup(sorted)
    decreases |keys|
    ensures NoDup(FkSteps(sorted, table, keys))
    ensures forall x :: x in FkSteps(sorted, table, keys) <==>
                        x in sorted || (x == table && keys != []) || Refers(keys, x)
  {
    if keys != [] {
      var next := FkStep(sorted, table, keys[0].pkTable);
      FkStepContents(sorted, table, keys[0].pkTable);
      FkStepsContents(next, table, keys[1..]);
      forall x ensures Refers(keys, x) <==> x == keys[0].pkTable || Refers(keys[1..], x) {
        if Refers(keys, x) {
          var k :| k in keys && k.pkTable == x;
          if k != keys[0] {
            assert k in keys[1..];
          }
        }
        if Refers(keys[1..], x) {
          var k :| k in keys[1..] && k.pkTable == x;
          assert k in keys;
        }
      }
    }
  }

  /** The whole loop never duplicates a name, keeps what was there, and adds only the tables
      and the tables they reference; when every key query succeeds it adds all of them. */
  lemma {:induction false} ProcessTablesContents(sorted: seq<string>, tables: seq<string>, fks: map<string, seq<ImportedKey>>)
    requires NoDup(sorted)
    decreases |tables|
    ensures var r := ProcessTables(sorted, tables, fks);
            && NoDup(r)
            && (forall x :: x in r ==> x in sorted || Mentioned(x, tables, fks))
            && (AllKeysRead(tables, fks) ==> forall x :: x in sorted || Mentioned(x, tables, fks) ==> x in r)
  {
    if tables != [] && tables[0] in fks {
      var t := tables[0];
      var s := FkSteps(sorted, t, fks[t]);
      FkStepsContents(sorted, t, fks[t]);
      var s' := if t in s then s else s + [t];
      if t !in s { NoDupAppend(s, t); }
      ProcessTablesContents(s', tables[1..], fks);
      var r := ProcessTables(sorted, tables, fks);
      assert r == ProcessTables(s', tables[1..], fks);
      forall x | Mentioned(x, tables[1..], fks) ensures Mentioned(x, tables, fks) {
        if x !in tables[1..] {
          var u :| u in tables[1..] && u in fks && Refers(fks[u], x);
          assert u in tables;
        }
      }
      forall x | x in s' ensures x in sorted || Mentioned(x, tables, fks) {
        if x != t && !(x in sorted) {
          assert Refers(fks[t], x);
        }
      }
      if AllKeysRead(tables, fks) {
        assert AllKeysRead(tables[1..], fks);
        forall x | Mentioned(x, tables, fks) ensures x in s' || Mentioned(x, tables[1..], fks) {
          if x !in tables {
            var u :| u in tables && u in fks && Refers(fks[u], x);
            if u == t {
              assert x in s;
            } else {
              assert u in tables[1..];
            }
          } else if x != t {
            assert x in tables[1..];
          }
        }
      }
    }
  }

  /** a stands before b in s. */
  ghost predicate Before(s: seq<string>, a: string, b: string) {
    a in s && b in s && IndexOf(s, a) < IndexOf(s, b)
  }

  /** Each table that t's keys name, other than t itself, stands before t in s. */
  ghost predicate KeysOrdered(s: seq<string>, t: string, keys: seq<ImportedKey>) {
    forall k :: k in keys && k.pkTable != t ==> Before(s, k.pkTable, t)
  }

  /** The keys of every table in `done` are ordered in s. */
  ghost predicate DoneOrdered(s: seq<string>, done: seq<string>, fks: map<string, seq<ImportedKey>>) {
    forall t :: t in done && t in fks ==> KeysOrdered(s, t, fks[t])
  }

  /** r has no foreign key to another table. */
  ghost predicate NoOutgoingKeys(r: string, fks: map<string, seq<ImportedKey>>) {
    r in fks ==> forall k :: k in fks[r] ==> k.pkTable == r
  }

  /** A schema one level deep: no table that the listed tables reference references a further table. */
  ghost predicate OneLevel(tables: seq<string>, fks: map<string, seq<ImportedKey>>) {
    forall t, k :: t in tables && t in fks && k in fks[t] && k.pkTable != t ==> NoOutgoingKeys(k.pkTable, fks)
  }

  lemma BeforeAppend(s: seq<string>, x: string, a: string, b: string)
    requires Before(s, a, b)
    ensures Before(s + [x], a, b)
  {
    IndexOfAppend(s, [x], a);
    IndexOfAppend(s, [x], b);
  }

  lemma KeysOrderedAppend(s: seq<string>, x: string, t: string, keys: seq<ImportedKey>)
    requires KeysOrdered(s, t, keys)
    ensures KeysOrdered(s + [x], t, keys)
  {
    forall k | k in keys && k.pkTable != t ensures Before(s + [x], k.pkTable, t) {
      BeforeAppend(s, x, k.pkTable, t);
    }
  }

  lemma DoneOrderedAppend(s: seq<string>, x: string, done: seq<string>, fks: map<string, seq<ImportedKey>>)
    requires DoneOrdered(s, done, fks)
    ensures DoneOrdered(s + [x], done, fks)
  {
    forall t | t in done && t in fks ensures KeysOrdered(s + [x], t, fks[t]) {
      KeysOrderedAppend(s, x, t, fks[t]);
    }
  }

  /** A step for `table` keeps the keys of `table` ordered. */
  lemma FkStepKeepsKeys(sorted: seq<string>, table: string, refer: string, keys: seq<ImportedKey>)
    requires NoDup(sorted) && KeysOrdered(sorted, table, keys)
    ensures KeysOrdered(FkStep(sorted, table, refer), table, keys)
  {
    forall k | k in keys && k.pkTable != table ensures Before(FkStep(sorted, table, refer), k.pkTable, table) {
      FkStepKeepsOrder(sorted, table, refer, k.pkTable, table);
    }
  }

  /** A step that moves forward a table without foreign keys of its own keeps every done table's keys ordered. */
  lemma FkStepKeepsDone(sorted: seq<string>, table: string, refer: string, done: seq<string>,
                        fks: map<string, seq<ImportedKey>>)
    requires NoDup(sorted) && DoneOrdered(sorted, done, fks)
    requires refer == table || NoOutgoingKeys(refer, fks)
    ensures DoneOrdered(FkStep(sorted, table, refer), done, fks)
  {
    forall t | t in done && t in fks ensures KeysOrdered(FkStep(sorted, table, refer), t, fks[t]) {
      forall k | k in fks[t] && k.pkTable != t ensures Before(FkStep(sorted, table, refer), k.pkTable, t) {
        assert Before(sorted, k.pkTable, t);
        if t != refer || refer == table {
          FkStepKeepsOrder(sorted, table, refer, k.pkTable, t);
        }
      }
    }
  }

  /** Processing a table's keys keeps the keys of the tables already done ordered, as long as
      no table it moves forward has foreign keys of its own. */
  lemma {:induction false} FkStepsKeepDone(sorted: seq<string>, table: string, keys: seq<ImportedKey>,
                                           done: seq<string>, fks: map<string, seq<ImportedKey>>)
    requires NoDup(sorted) && DoneOrdered(sorted, done, fks)
    requires forall k :: k in keys && k.pkTable != table ==> NoOutgoingKeys(k.pkTable, fks)
    decreases |keys|
    ensures DoneOrdered(FkSteps(sorted, table, keys), done, fks)
  {
    if keys != [] {
      var next := FkStep(sorted, table, keys[0].pkTable);
      FkStepContents(sorted, table, keys[0].pkTable);
      assert keys[0] in keys;
      FkStepKeepsDone(sorted, table, keys[0].pkTable, done, fks);
      assert forall k :: k in keys[1..] ==> k in keys;
      FkStepsKeepDone(next, table, keys[1..], done, fks);
    }
  }

  /** Processing a table's keys keeps any keys of that table that were already ordered. */
  lemma {:induction false} FkStepsKeepKeys(sorted: seq<string>, table: string, keys: seq<ImportedKey>,
                                           prior: seq<ImportedKey>)
    requires NoDup(sorted) && KeysOrdered(sorted, table, prior)
    decreases |keys|
    ensures KeysOrdered(FkSteps(sorted, table, keys), table, prior)
  {
    if keys != [] {
      var next := FkStep(sorted, table, keys[0].pkTable);
      FkStepContents(sorted, table, keys[0].pkTable);
      FkStepKeepsKeys(sorted, table, keys[0].pkTable, prior);
      FkStepsKeepKeys(next, table, keys[1..], prior);
    }
  }

  /** Processing a table's keys leaves each table they name, other than itself, before it. */
  lemma {:induction false} FkStepsOrder(sorted: seq<string>, table: string, keys: seq<ImportedKey>)
    requires NoDup(sorted)
    decreases |keys|
    ensures KeysOrdered(FkSteps(sorted, table, keys), table, keys)
  {
    if keys != [] {
      var refer := keys[0].pkTable;
      var next := FkStep(sorted, table, refer);
      FkStepContents(sorted, table, refer);
      FkStepsOrder(next, table, keys[1..]);
      var result := FkSteps(next, table, keys[1..]);
      if refer != table {
        FkStepOrders(sorted, table, refer);
        FkStepsKeepKeys(next, table, keys[1..], [keys[0]]);
      }
      forall k | k in keys && k.pkTable != table ensures Before(result, k.pkTable, table) {
        if k != keys[0] {
          assert k in keys[1..];
        }
      }
    }
  }

  /** One table of the loop: after its keys and its possible append, its keys and the keys of
      the tables already done are ordered. */
  lemma ProcessTableStep(sorted: seq<string>, t: string, done: seq<string>, fks: map<string, seq<ImportedKey>>)
    requires NoDup(sorted) && DoneOrdered(sorted, done, fks) && t in fks
    requires forall k :: k in fks[t] && k.pkTable != t ==> NoOutgoingKeys(k.pkTable, fks)
    ensures var s := FkSteps(sorted, t, fks[t]);
            var s' := if t in s then s else s + [t];
            NoDup(s') && DoneOrdered(s', done + [t], fks)
  {
    var s := FkSteps(sorted, t, fks[t]);
    FkStepsContents(sorted, t, fks[t]);
    FkStepsKeepDone(sorted, t, fks[t], done, fks);
    FkStepsOrder(sorted, t, fks[t]);
    var s' := if t in s then s else s + [t];
    if t !in s {
      NoDupAppend(s, t);
      DoneOrderedAppend(s, t, done, fks);
      KeysOrderedAppend(s, t, t, fks[t]);
    }
    forall u | u in done + [t] && u in fks ensures KeysOrdered(s', u, fks[u]) {
      if u != t {
        assert u in done;
      }
    }
  }

  /** The conditions on the tables hold for the tables after the first. */
  lemma SchemaTail(tables: seq<string>, fks: map<string, seq<ImportedKey>>)
    requires tables != [] && OneLevel(tables, fks) && AllKeysRead(tables, fks)
    ensures OneLevel(tables[1..], fks) && AllKeysRead(tables[1..], fks)
  {
    assert forall u :: u in tables[1..] ==> u in tables;
  }

  lemma DoneOrderedRegroup(s: seq<string>, done: seq<string>, tables: seq<string>, fks: map<string, seq<ImportedKey>>)
    requires tables != [] && DoneOrdered(s, done + [tables[0]] + tables[1..], fks)
    ensures DoneOrdered(s, done + tables, fks)
  {
    assert done + [tables[0]] + tables[1..] == done + tables;
  }

  /** On a one-level schema whose imported keys could all be read, the loop leaves every
      referenced table before each table that references it. */
  lemma {:induction false} ProcessTablesOrder(sorted: seq<string>, tables: seq<string>, done: seq<string>,
                                              fks: map<string, seq<ImportedKey>>)
    requires NoDup(sorted) && DoneOrdered(sorted, done, fks)
    requires OneLevel(tables, fks) && AllKeysRead(tables, fks)
    decreases |tables|
    ensures DoneOrdered(ProcessTables(sorted, tables, fks), done + tables, fks)
  {
    if tables == [] {
      assert done + tables == done;
    } else {
      var t := tables[0];
      assert t in fks;
      var s := FkSteps(sorted, t, fks[t]);
      var s' := if t in s then s else s + [t];
      ProcessTableStep(sorted, t, done, fks);
      SchemaTail(tables, fks);
      ProcessTablesOrder(s', tables[1..], done + [t], fks);
      DoneOrderedRegroup(ProcessTables(s', tables[1..], fks), done, tables, fks);
    }
  }

  /** sortedTables is a correct dependency order when no referenced table has foreign keys
      of its own: every referenced table precedes each table that references it. */
  lemma OneLevelSchemaIsOrdered(c: Catalog)
    requires AllKeysRead(TableNames(c), c.importedKeys) && OneLevel(TableNames(c), c.importedKeys)
    ensures forall t, k :: t in TableNames(c) && t in c.importedKeys && k in c.importedKeys[t] && k.pkTable != t ==>
              Before(SortedTablesOf(c), k.pkTable, t)
  {
    ProcessTablesOrder([], TableNames(c), [], c.importedKeys);
    assert [] + TableNames(c) == TableNames(c);
  }

  /** Deeper chains are not always ordered: for line_items -> invoices -> customers -> regions,
      with the tables listed as below, moving customers ahead of invoices also moves it ahead
      of regions, which customers references. */
  lemma ChainOfThreeKeysIsMisordered(c: Catalog)
    requires TableNames(c) == ["line_items", "customers", "invoices", "regions"]
    requires "line_items" in c.importedKeys && c.importedKeys["line_items"] == [ImportedKey("invoice_id", "invoices", "id")]
    requires "customers" in c.importedKeys && c.importedKeys["customers"] == [ImportedKey("region_id", "regions", "id")]
    requires "invoices" in c.importedKeys && c.importedKeys["invoices"] == [ImportedKey("customer_id", "customers", "id")]
    requires "regions" in c.importedKeys && c.importedKeys["regions"] == []
    ensures SortedTablesOf(c) == ["customers", "invoices", "line_items", "regions"]
    ensures !Before(SortedTablesOf(c), "regions", "customers")
  {
    var fks := c.importedKeys;
    var tables := TableNames(c);
    var s1 := ["invoices", "line_items"];
    var s2 := ["invoices", "line_items", "regions", "customers"];
    var s3 := ["customers", "invoices", "line_items", "regions"];
    ChainFirstStep();
    ChainSecondStep();
    ChainThirdStep();
    ProcessOneKey([], tables, fks);
    ProcessOneKey(s1, tables[1..], fks);
    ProcessOneKey(s2, tables[2..], fks);
    assert tables[3..][1..] == [];
    assert IndexOf(s3, "customers") == 0;
  }

  /** The loop on a table with exactly one imported key. */
  lemma ProcessOneKey(sorted: seq<string>, tables: seq<string>, fks: map<string, seq<ImportedKey>>)
    requires tables != [] && tables[0] in fks && |fks[tables[0]]| == 1
    requires tables[0] in FkStep(sorted, tables[0], fks[tables[0]][0].pkTable)
    ensures ProcessTables(sorted, tables, fks) ==
            ProcessTables(FkStep(sorted, tables[0], fks[tables[0]][0].pkTable), tables[1..], fks)
  {
    var keys := fks[tables[0]];
    assert FkSteps(sorted, tables[0], keys) == FkSteps(FkStep(sorted, tables[0], keys[0].pkTable), tables[0], keys[1..]);
    assert keys[1..] == [];
  }

  /** line_items, referencing invoices, is placed after it. */
  lemma ChainFirstStep()
    ensures FkStep([], "line_items", "invoices") == ["invoices", "line_items"]
  {
  }

  /** customers, referencing regions, is not yet placed: both are appended. */
  lemma ChainSecondStep()
    ensures FkStep(["invoices", "line_items"], "customers", "regions") ==
            ["invoices", "line_items", "regions", "customers"]
  {
    assert "customers" !in ["invoices", "line_items"];
  }

  /** invoices references customers, placed later: customers moves to the front, past regions. */
  lemma ChainThirdStep()
    ensures FkStep(["invoices", "line_items", "regions", "customers"], "invoices", "customers") ==
            ["customers", "invoices", "line_items", "regions"]
  {
    var s := ["invoices", "line_items", "regions", "customers"];
    assert IndexOf(s, "invoices") == 0;
    assert IndexOf(s, "customers") == 3 by {
      assert s[1..] == ["line_items", "regions", "customers"];
      assert s[1..][1..] == ["regions", "customers"];
      assert s[1..][1..][1..] == ["customers"];
    }
    assert RemoveFirst(s, "customers") == ["invoices", "line_items", "regions"];
  }

  /** sortedTables: the list is built by appending, inserting at an index, and removing then
      re-inserting, exactly as the imported-key rows dictate. */
  method SortedTables(c: Catalog) returns (sorted: seq<string>)
    ensures sorted == SortedTablesOf(c)
    ensures NoDup(sorted)
    ensures forall x :: x in sorted ==> Mentioned(x, TableNames(c), c.importedKeys)
    ensures AllKeysRead(TableNames(c), c.importedKeys) ==>
              forall x :: Mentioned(x, TableNames(c), c.importedKeys) ==> x in sorted
  {
    var tables := GetTableNames(c);
    sorted := [];
    var i := 0;
    while i < |tables|
      invariant 0 <= i <= |tables|
      invariant ProcessTables(sorted, tables[i..], c.importedKeys) == SortedTablesOf(c)
    {
      var table := tables[i];
      if table !in c.importedKeys {
        break;
      }
      var keys := c.importedKeys[table];
      ghost var start := sorted;
      var j := 0;
      while j < |keys|
        invariant 0 <= j <= |keys|
        invariant FkSteps(sorted, table, keys[j..]) == FkSteps(start, table, keys)
      {
        var index := IndexOf(sorted, table);
        var referTableName := keys[j].pkTable;
        if index == -1 {
          if referTableName !in sorted {
            sorted := sorted + [referTableName];
          }
          if table !in sorted {
            sorted := sorted + [table];
          }
        } else {
          if referTableName !in sorted {
            sorted := InsertAt(sorted, index, referTableName);
          } else if IndexOf(sorted, referTableName) > index {
            sorted := RemoveFirst(sorted, referTableName);
            sorted := InsertAt(sorted, index, referTableName);
          }
        }
        assert keys[j..][1..] == keys[j + 1..];
        j := j + 1;
      }
      if table !in sorted {
        sorted := sorted + [table];
      }
      assert tables[i..][1..] == tables[i + 1..];
      i := i + 1;
    }
    ProcessTablesContents([], tables, c.importedKeys);
  }
}
