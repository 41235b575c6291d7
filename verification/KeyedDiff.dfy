/**
 * The Driftwood tables, the keyed diff between a clean and an injected dataset, and the check that a
 * diff stays inside what a manifest declares (examples/driftwood-wren/generate.py, `TABLE_KEY`,
 * `diff_tables`, `_check_diff_matches_manifest`). Money is in cents, rates in millionths, dates are yyyymmdd.
 */
module KeyedDiff {
  import opened Prelude

  datatype Cell = Null | Number(number: int) | Text(text: string) | Date(day: int) | Moment(date: int, micros: nat)

  type Row = seq<Cell>
  type Key = seq<Cell>

  datatype Table = Warehouses | Products | FiscalCalendar | FxRates | LegacyStatusCodes | Customers
    | LegacyCustomers | CustomerXref | LegacyOrders | Orders | OrderItems | Payments | Refunds
    | Subscriptions | SubscriptionSnapshots | WebEvents | InventoryLevels | Returns

  const TABLE_ORDER := [Warehouses, Products, FiscalCalendar, FxRates, LegacyStatusCodes, Customers,
                        LegacyCustomers, CustomerXref, LegacyOrders, Orders, OrderItems, Payments, Refunds,
                        Subscriptions, SubscriptionSnapshots, WebEvents, InventoryLevels, Returns]

  type Dataset = map<Table, seq<Row>>

  /** How many leading columns identify a row: `TABLE_KEY`. */
  function KeyWidth(table: Table): nat {
    match table
    case InventoryLevels => 3
    case FxRates | CustomerXref | SubscriptionSnapshots => 2
    case _ => 1
  }

  function KeyOf(table: Table, row: Row): Key { row[..Min(|row|, KeyWidth(table))] }

  /** What identifies a row of each table. */
  lemma {:induction false} KeysByTable(table: Table, row: Row)
    requires |row| >= 3
    ensures KeyOf(table, row) ==
            if table == InventoryLevels then [row[0], row[1], row[2]]
            else if table == FxRates || table == CustomerXref || table == SubscriptionSnapshots then [row[0], row[1]]
            else [row[0]]
  {
  }

  function KeysOf(table: Table, rows: seq<Row>): set<Key> { set row | row in rows :: KeyOf(table, row) }

  predicate UniqueKeys(table: Table, rows: seq<Row>) {
    forall i, j :: 0 <= i < j < |rows| ==> KeyOf(table, rows[i]) != KeyOf(table, rows[j])
  }

  predicate IsSnapshot(row: Row) { |row| == 4 && row[0].Date? }

  predicate IsOrder(row: Row) { |row| == 8 && row[0].Number? && row[3].Number? && row[5].Moment? }

  predicate IsFxRate(row: Row) { |row| == 3 && row[0].Date? && row[1].Text? && row[2].Number? }

  /** Order items and payments: their own id, then the order's. */
  predicate IsChild(row: Row) { |row| >= 2 && row[0].Number? && row[1].Number? }

  /** The column types the scenarios unpack. */
  predicate Schema(data: Dataset) {
    && (forall table :: table in TABLE_ORDER ==> table in data)
    && SubscriptionSnapshots in data
        && (forall i :: 0 <= i < |data[SubscriptionSnapshots]| ==> IsSnapshot(data[SubscriptionSnapshots][i]))
    && Orders in data && (forall i :: 0 <= i < |data[Orders]| ==> IsOrder(data[Orders][i]))
    && FxRates in data && (forall i :: 0 <= i < |data[FxRates]| ==> IsFxRate(data[FxRates][i]))
    && OrderItems in data && (forall i :: 0 <= i < |data[OrderItems]| ==> IsChild(data[OrderItems][i]))
    && Payments in data && (forall i :: 0 <= i < |data[Payments]| ==> IsChild(data[Payments][i]))
  }

  // ---- the keyed diff ------------------------------------------------------------------------

  /** The last row under each key, as a dictionary comprehension keeps it. */
  function ByKey(table: Table, rows: seq<Row>): map<Key, Row> {
    if rows == [] then map[]
    else
      var n := |rows| - 1;
      ByKey(table, rows[..n])[KeyOf(table, rows[n]) := rows[n]]
  }

  lemma {:induction false} ByKeySnoc(table: Table, rows: seq<Row>, row: Row)
    ensures ByKey(table, rows + [row]) == ByKey(table, rows)[KeyOf(table, row) := row]
  {
    assert (rows + [row])[..|rows|] == rows;
  }

  /** The index has an entry for exactly the keys of the rows, and each entry is such a row. */
  lemma {:induction false} IndexEntries(table: Table, rows: seq<Row>)
    ensures forall row :: row in rows ==> KeyOf(table, row) in ByKey(table, rows)
    ensures forall k :: k in ByKey(table, rows) ==>
        ByKey(table, rows)[k] in rows && KeyOf(table, ByKey(table, rows)[k]) == k
    decreases |rows|
  {
    if rows != [] {
      var n := |rows| - 1;
      assert rows == rows[..n] + [rows[n]];
      IndexEntries(table, rows[..n]);
    }
  }

  /** The entry under a key is the last row that has it. */
  lemma {:induction false} IndexHoldsLast(table: Table, rows: seq<Row>, k: Key) returns (i: nat)
    requires k in ByKey(table, rows)
    ensures i < |rows| && KeyOf(table, rows[i]) == k && ByKey(table, rows)[k] == rows[i]
    ensures forall j :: i < j < |rows| ==> KeyOf(table, rows[j]) != k
    decreases |rows|
  {
    var n := |rows| - 1;
    if KeyOf(table, rows[n]) == k { i := n; } else { i := IndexHoldsLast(table, rows[..n], k); }
  }

  datatype TableDiff = TableDiff(added: set<Key>, removed: set<Key>, changed: set<Key>)

  const NO_DIFFERENCE := TableDiff({}, {}, {})

  function DiffOf(table: Table, clean: seq<Row>, injected: seq<Row>): TableDiff {
    var before, after := ByKey(table, clean), ByKey(table, injected);
    TableDiff(after.Keys - before.Keys, before.Keys - after.Keys,
              set k | k in before.Keys && k in after.Keys && before[k] != after[k])
  }

  lemma {:induction false} EveryTableIsOrdered(table: Table)
    ensures table in TABLE_ORDER
  {
  }

  /** The diffs of the given tables that are not empty. */
  ghost predicate DiffsOf(tables: seq<Table>, clean: Dataset, injected: Dataset, diffs: map<Table, TableDiff>)
    requires forall table :: table in tables ==> table in clean && table in injected
  {
    && (forall table :: table in diffs <==>
                          table in tables && DiffOf(table, clean[table], injected[table]) != NO_DIFFERENCE)
    && (forall table :: table in diffs ==> diffs[table] == DiffOf(table, clean[table], injected[table]))
  }

  method DiffTables(tables: seq<Table>, clean: Dataset, injected: Dataset) returns (diffs: map<Table, TableDiff>)
    requires forall table :: table in tables ==> table in clean && table in injected
    ensures DiffsOf(tables, clean, injected, diffs)
  {
    diffs := map[];
    for i := 0 to |tables|
      invariant DiffsOf(tables[..i], clean, injected, diffs)
    {
      var table := tables[i];
      assert tables[..i + 1] == tables[..i] + [table];
      var diff := DiffOf(table, clean[table], injected[table]);
      if diff != NO_DIFFERENCE { diffs := diffs[table := diff]; }
    }
    assert tables[..|tables|] == tables;
  }

  /** With unique keys the index is the table: exactly its rows are found under their keys. */
  lemma {:induction false} IndexHoldsRow(table: Table, rows: seq<Row>, row: Row)
    requires UniqueKeys(table, rows)
    ensures row in rows <==> KeyOf(table, row) in ByKey(table, rows) && ByKey(table, rows)[KeyOf(table, row)] == row
    decreases |rows|
  {
    if rows != [] {
      var n := |rows| - 1;
      assert rows == rows[..n] + [rows[n]];
      IndexHoldsRow(table, rows[..n], row);
    }
  }

  /** An empty diff means exactly that the two indexes are equal. */
  lemma {:induction false} NoDifferenceMeansSameIndex(table: Table, clean: seq<Row>, injected: seq<Row>)
    ensures DiffOf(table, clean, injected) == NO_DIFFERENCE <==> ByKey(table, clean) == ByKey(table, injected)
  {
    var before, after, diff := ByKey(table, clean), ByKey(table, injected), DiffOf(table, clean, injected);
    if diff == NO_DIFFERENCE {
      forall k ensures k in before <==> k in after {
        assert k !in diff.added && k !in diff.removed;
      }
      forall k | k in before ensures before[k] == after[k] {
        assert k !in diff.changed;
      }
    }
  }

  /** With unique keys an empty diff means exactly that the two tables hold the same rows. */
  lemma {:induction false} NoDifferenceMeansSameRows(table: Table, clean: seq<Row>, injected: seq<Row>)
    requires UniqueKeys(table, clean) && UniqueKeys(table, injected)
    ensures DiffOf(table, clean, injected) == NO_DIFFERENCE <==> forall row :: row in clean <==> row in injected
  {
    NoDifferenceMeansSameIndex(table, clean, injected);
    IndexEntries(table, clean);
    IndexEntries(table, injected);
    var before, after := ByKey(table, clean), ByKey(table, injected);
    forall row: Row ensures row in clean <==> KeyOf(table, row) in before && before[KeyOf(table, row)] == row {
      IndexHoldsRow(table, clean, row);
    }
    forall row: Row ensures row in injected <==> KeyOf(table, row) in after && after[KeyOf(table, row)] == row {
      IndexHoldsRow(table, injected, row);
    }
    if forall row :: row in clean <==> row in injected {
      SameRowsSameIndex(table, before, after);
    }
  }

  lemma {:induction false} SameRowsSameIndex(table: Table, before: map<Key, Row>, after: map<Key, Row>)
    requires forall k :: k in before ==> KeyOf(table, before[k]) == k
    requires forall k :: k in after ==> KeyOf(table, after[k]) == k
    requires forall row :: (KeyOf(table, row) in before && before[KeyOf(table, row)] == row)
                      <==> (KeyOf(table, row) in after && after[KeyOf(table, row)] == row)
    ensures before == after
  {
    forall k | k in before ensures k in after && after[k] == before[k] {
      assert KeyOf(table, before[k]) == k;
    }
    forall k | k in after ensures k in before {
      assert KeyOf(table, after[k]) == k;
    }
  }

  // ---- manifests -----------------------------------------------------------------------------

  datatype Kind = StoppedUpdates | SuddenDrop | Drift | Duplicates

  /** One manifest entry: the table it names and the row keys it declares. */
  datatype Injection = Injection(kind: Kind, table: Table, affectedRowIds: set<Key>, newRowIds: set<Key>)

  datatype Injected = Injected(mutated: Dataset, injections: seq<Injection>)

  /** Every `ValueError` a scenario can raise. */
  datatype InjectError = EmptySnapshots | NoOrdersInRange | EmptyChildTable

  /** Every key the entries for a table declare. */
  function Allowed(injections: seq<Injection>, table: Table): set<Key> {
    if injections == [] then {}
    else
      (if injections[0].table == table then injections[0].affectedRowIds + injections[0].newRowIds else {})
      + Allowed(injections[1..], table)
  }

  predicate DeclaresTable(injections: seq<Injection>, table: Table) {
    exists inj :: inj in injections && inj.table == table
  }

  function Touched(diff: TableDiff): set<Key> { diff.added + diff.removed + diff.changed }

  /** `_check_diff_matches_manifest`: only declared tables differ, and only in declared rows. */
  predicate MatchesManifest(diffs: map<Table, TableDiff>, injections: seq<Injection>) {
    forall table :: table in diffs ==>
        DeclaresTable(injections, table) && Touched(diffs[table]) <= Allowed(injections, table)
  }

  /** The same for one table: if it differs it is declared, and so is every row that differs. */
  predicate TableDeclared(table: Table, before: seq<Row>, after: seq<Row>, injections: seq<Injection>) {
    var diff := DiffOf(table, before, after);
    diff != NO_DIFFERENCE ==> DeclaresTable(injections, table) && Touched(diff) <= Allowed(injections, table)
  }

  ghost predicate StaysDeclared(clean: Dataset, result: Injected) {
    forall table :: table in clean && table in result.mutated ==>
      TableDeclared(table, clean[table], result.mutated[table], result.injections)
  }

  /** The key is in one of the two indexes only, or under different rows. */
  predicate KeyDiffers(table: Table, before: seq<Row>, after: seq<Row>, k: Key) {
    var old', new' := ByKey(table, before), ByKey(table, after);
    (k in old' && k !in new') || (k !in old' && k in new') || (k in old' && k in new' && old'[k] != new'[k])
  }

  /** Some entry for the table lists the key. */
  predicate KeyListed(injections: seq<Injection>, table: Table, k: Key) {
    exists i :: 0 <= i < |injections| && injections[i].table == table
                && (k in injections[i].affectedRowIds || k in injections[i].newRowIds)
  }

  lemma {:induction false} AllowedExactly(injections: seq<Injection>, table: Table, k: Key)
    ensures k in Allowed(injections, table) <==> KeyListed(injections, table, k)
  {
    if injections != [] {
      AllowedExactly(injections[1..], table, k);
      if KeyListed(injections[1..], table, k) {
        var i :| 0 <= i < |injections[1..]| && injections[1..][i].table == table
            && (k in injections[1..][i].affectedRowIds || k in injections[1..][i].newRowIds);
        assert injections[i + 1] == injections[1..][i];
      }
      if i :| 0 <= i < |injections| && injections[i].table == table
              && (k in injections[i].affectedRowIds || k in injections[i].newRowIds)
      {
        if i > 0 { assert injections[1..][i - 1] == injections[i]; }
      }
    }
  }

  lemma {:induction false} TableDeclaredExactly(table: Table, before: seq<Row>, after: seq<Row>,
                                                injections: seq<Injection>)
    ensures TableDeclared(table, before, after, injections) <==>
            forall k :: KeyDiffers(table, before, after, k) ==> KeyListed(injections, table, k)
  {
    var diff := DiffOf(table, before, after);
    forall k: Key
      ensures (k in Touched(diff) <==> KeyDiffers(table, before, after, k))
          && (k in Allowed(injections, table) <==> KeyListed(injections, table, k))
    {
      AllowedExactly(injections, table, k);
    }
    if diff != NO_DIFFERENCE && forall k :: KeyDiffers(table, before, after, k) ==> KeyListed(injections, table, k) {
      var k := SomeTouched(diff);
      var i :| 0 <= i < |injections| && injections[i].table == table;
      assert injections[i] in injections;
    }
  }

  lemma {:induction false} SomeTouched(diff: TableDiff) returns (k: Key)
    requires diff != NO_DIFFERENCE
    ensures k in Touched(diff)
  {
    if diff.added != {} { k :| k in diff.added; }
    else if diff.removed != {} { k :| k in diff.removed; }
    else { k :| k in diff.changed; }
  }

  /** The scenario stays declared exactly when every key that differs is listed for its table. */
  lemma {:induction false} StaysDeclaredExactly(clean: Dataset, result: Injected)
    ensures StaysDeclared(clean, result) <==>
            forall table, k :: (table in clean && table in result.mutated
                                && KeyDiffers(table, clean[table], result.mutated[table], k)) ==>
              KeyListed(result.injections, table, k)
  {
    forall table | table in clean && table in result.mutated
      ensures TableDeclared(table, clean[table], result.mutated[table], result.injections) <==>
              forall k :: KeyDiffers(table, clean[table], result.mutated[table], k) ==>
                KeyListed(result.injections, table, k)
    {
      TableDeclaredExactly(table, clean[table], result.mutated[table], result.injections);
    }
  }

  lemma {:induction false} UnchangedTableDeclared(table: Table, rows: seq<Row>, injections: seq<Injection>)
    ensures TableDeclared(table, rows, rows, injections)
  {
    NoDifferenceMeansSameIndex(table, rows, rows);
  }

  /** Runs the diff and the manifest check of one scenario's result. */
  method CheckDiffMatchesManifest(clean: Dataset, result: Injected) returns (ok: bool)
    requires forall table :: table in TABLE_ORDER ==> table in clean && table in result.mutated
    ensures ok <==> StaysDeclared(clean, result)
  {
    var diffs := DiffTables(TABLE_ORDER, clean, result.mutated);
    ok := MatchesManifest(diffs, result.injections);
    forall table: Table ensures table in TABLE_ORDER { EveryTableIsOrdered(table); }
  }

  // ---- dropping rows -------------------------------------------------------------------------

  /** The keys of the rows a filter drops. */
  function DroppedKeys(table: Table, rows: seq<Row>, keep: Row -> bool): set<Key> {
    set row | row in rows && !keep(row) :: KeyOf(table, row)
  }

  lemma {:induction false} FilterSnoc(rows: seq<Row>, row: Row, keep: Row -> bool)
    ensures Filter(rows + [row], keep) == if keep(row) then Filter(rows, keep) + [row] else Filter(rows, keep)
  {
    FilterConcat(rows, [row], keep);
  }

  /** A filter that looks only at the key keeps or drops each key whole. */
  lemma {:induction false} FilteredIndex(table: Table, rows: seq<Row>, keep: Row -> bool, k: Key)
    requires forall row :: row in rows ==> keep(row) == keep(KeyOf(table, row))
    ensures k in ByKey(table, Filter(rows, keep)) <==> k in ByKey(table, rows) && keep(k)
    ensures k in ByKey(table, Filter(rows, keep)) ==> ByKey(table, Filter(rows, keep))[k] == ByKey(table, rows)[k]
    decreases |rows|
  {
    if rows != [] {
      var front, row := rows[..|rows| - 1], rows[|rows| - 1];
      assert rows == front + [row];
      FilteredIndex(table, front, keep, k);
      FilteredIndexStep(table, front, row, keep, k);
    }
  }

  lemma {:induction false} FilteredIndexStep(table: Table, rows: seq<Row>, row: Row, keep: Row -> bool, k: Key)
    requires keep(row) == keep(KeyOf(table, row))
    requires k in ByKey(table, Filter(rows, keep)) <==> k in ByKey(table, rows) && keep(k)
    requires k in ByKey(table, Filter(rows, keep)) ==> ByKey(table, Filter(rows, keep))[k] == ByKey(table, rows)[k]
    ensures k in ByKey(table, Filter(rows + [row], keep)) <==> k in ByKey(table, rows + [row]) && keep(k)
    ensures k in ByKey(table, Filter(rows + [row], keep)) ==>
              ByKey(table, Filter(rows + [row], keep))[k] == ByKey(table, rows + [row])[k]
  {
    FilterSnoc(rows, row, keep);
    ByKeySnoc(table, rows, row);
    ByKeySnoc(table, Filter(rows, keep), row);
  }

  /** Such a filter removes exactly the keys of the rows it drops. */
  lemma {:induction false} FilterDiff(table: Table, rows: seq<Row>, keep: Row -> bool)
    requires forall row :: row in rows ==> keep(row) == keep(KeyOf(table, row))
    ensures DiffOf(table, rows, Filter(rows, keep)) == TableDiff({}, DroppedKeys(table, rows, keep), {})
  {
    var index, left := ByKey(table, rows), ByKey(table, Filter(rows, keep));
    forall k: Key ensures (k in left <==> k in index && keep(k)) && (k in left ==> left[k] == index[k]) {
      FilteredIndex(table, rows, keep, k);
    }
    IndexEntries(table, rows);
    FilteredDiff(index, left, keep);
    DroppedExactly(table, rows, index, keep);
  }

  lemma {:induction false} FilteredDiff(index: map<Key, Row>, left: map<Key, Row>, keep: Row -> bool)
    requires forall k :: (k in left <==> k in index && keep(k)) && (k in left ==> left[k] == index[k])
    ensures left.Keys - index.Keys == {}
    ensures (set k | k in index.Keys && k in left.Keys && index[k] != left[k]) == {}
    ensures index.Keys - left.Keys == set k | k in index.Keys && !keep(k)
  {
  }

  lemma {:induction false} DroppedExactly(table: Table, rows: seq<Row>, index: map<Key, Row>, keep: Row -> bool)
    requires forall row :: row in rows ==> keep(row) == keep(KeyOf(table, row)) && KeyOf(table, row) in index
    requires forall k :: k in index ==> index[k] in rows && KeyOf(table, index[k]) == k
    ensures DroppedKeys(table, rows, keep) == set k | k in index.Keys && !keep(k)
  {
    forall k | k in index.Keys && !keep(k) ensures k in DroppedKeys(table, rows, keep) {
      assert index[k] in rows && KeyOf(table, index[k]) == k;
    }
  }

  // ---- rewriting rows in place ---------------------------------------------------------------

  /** Same keys row by row, and a row that changed is under an affected key. */
  predicate RewritesWithin(table: Table, before: seq<Row>, after: seq<Row>, affected: set<Key>) {
    && |after| == |before|
    && forall i :: 0 <= i < |before| ==>
         KeyOf(table, after[i]) == KeyOf(table, before[i])
             && (after[i] == before[i] || KeyOf(table, before[i]) in affected)
  }

  lemma {:induction false} RewrittenIndex(table: Table, before: seq<Row>, after: seq<Row>, affected: set<Key>, k: Key)
    requires RewritesWithin(table, before, after, affected)
    ensures k in ByKey(table, before) <==> k in ByKey(table, after)
    ensures k in ByKey(table, before) && k !in affected ==> ByKey(table, before)[k] == ByKey(table, after)[k]
    decreases |before|
  {
    if before != [] {
      RewrittenIndex(table, before[..|before| - 1], after[..|before| - 1], affected, k);
    }
  }

  /** Rewriting rows under their keys adds and removes nothing, and changes only affected keys. */
  lemma {:induction false} RewriteDiff(table: Table, before: seq<Row>, after: seq<Row>, affected: set<Key>)
    requires RewritesWithin(table, before, after, affected)
    ensures var diff := DiffOf(table, before, after);
            diff.added == {} && diff.removed == {} && diff.changed <= affected
  {
    forall k: Key ensures (k in ByKey(table, before) <==> k in ByKey(table, after))
                          && (k in ByKey(table, before) && k !in affected ==>
                              ByKey(table, before)[k] == ByKey(table, after)[k]) {
      RewrittenIndex(table, before, after, affected, k);
    }
  }

  /** With unique keys the changed keys are exactly those of the rows that changed. */
  lemma {:induction false} ChangedExactly(table: Table, before: seq<Row>, after: seq<Row>, affected: set<Key>, i: nat)
    requires RewritesWithin(table, before, after, affected) && UniqueKeys(table, before) && i < |before|
    ensures KeyOf(table, before[i]) in DiffOf(table, before, after).changed <==> after[i] != before[i]
  {
    IndexHoldsRow(table, before, before[i]);
    forall j, l | 0 <= j < l < |after| ensures KeyOf(table, after[j]) != KeyOf(table, after[l]) {
      assert KeyOf(table, before[j]) != KeyOf(table, before[l]);
    }
    IndexHoldsRow(table, after, after[i]);
    assert before[i] in before && after[i] in after;
  }

  // ---- appending rows ------------------------------------------------------------------------

  /** Appending rows under fresh keys adds exactly those keys and disturbs nothing. */
  lemma {:induction false} AppendDiff(table: Table, rows: seq<Row>, extra: seq<Row>)
    requires KeysOf(table, rows) !! KeysOf(table, extra)
    ensures DiffOf(table, rows, rows + extra) == TableDiff(KeysOf(table, extra), {}, {})
  {
    var before, after := ByKey(table, rows), ByKey(table, rows + extra);
    forall k: Key ensures (k in after <==> k in before || k in KeysOf(table, extra))
                          && (k in before ==> k !in KeysOf(table, extra) && after[k] == before[k]) {
      AppendedIndex(table, rows, extra, k);
      IndexEntries(table, rows);
    }
    var diff := DiffOf(table, rows, rows + extra);
    assert diff.removed == {} && diff.changed == {};
    IndexEntries(table, rows);
    assert forall k :: k in diff.added <==> k in KeysOf(table, extra);
  }

  lemma {:induction false} AppendedIndex(table: Table, rows: seq<Row>, extra: seq<Row>, k: Key)
    ensures k in ByKey(table, rows + extra) <==> k in ByKey(table, rows) || k in KeysOf(table, extra)
    ensures k in ByKey(table, rows) && k !in KeysOf(table, extra) ==>
        ByKey(table, rows + extra)[k] == ByKey(table, rows)[k]
    decreases |extra|
  {
    if extra == [] {
      assert rows + extra == rows;
    } else {
      var front, row := extra[..|extra| - 1], extra[|extra| - 1];
      assert extra == front + [row] && rows + extra == (rows + front) + [row];
      AppendedIndex(table, rows, front, k);
      ByKeySnoc(table, rows + front, row);
      assert KeysOf(table, extra) == KeysOf(table, front) + {KeyOf(table, row)};
    }
  }

  // ---- one table -----------------------------------------------------------------------------

  /** A scenario that replaces one table need only stay within its one entry there. */
  lemma {:induction false} OneTableDeclared(data: Dataset, result: Injected, table: Table)
    requires table in data && |result.injections| == 1 && result.injections[0].table == table
    requires result.mutated.Keys == data.Keys && forall other :: other in data && other != table ==>
        result.mutated[other] == data[other]
    requires Touched(DiffOf(table, data[table], result.mutated[table]))
             <= result.injections[0].affectedRowIds + result.injections[0].newRowIds
    ensures StaysDeclared(data, result)
  {
    var entry := result.injections[0];
    assert entry in result.injections;
    assert entry.affectedRowIds + entry.newRowIds <= Allowed(result.injections, table);
    forall other | other in data && other != table
        ensures TableDeclared(other, data[other], result.mutated[other], result.injections) {
      UnchangedTableDeclared(other, data[other], result.injections);
    }
  }
}
