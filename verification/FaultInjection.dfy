/**
 * The fault scenarios that rewrite one table (examples/driftwood-wren/generate.py,
 * `inject_stopped_updates`, `inject_sudden_drop`, `inject_drift`).
 */
module FaultInjection {
  import opened Prelude
  import opened OrderLines
  import opened KeyedDiff

  // ---- stopped updates -----------------------------------------------------------------------

  const SNAPSHOT_CUTOFF := 20260331

  predicate KeptSnapshot(row: Row) { row != [] && row[0].Date? && row[0].day <= SNAPSHOT_CUTOFF }

  /** The manifest entry of the scenario. */
  function StoppedEntry(rows: seq<Row>): Injection {
    Injection(StoppedUpdates, SubscriptionSnapshots, DroppedKeys(SubscriptionSnapshots, rows, KeptSnapshot), {})
  }

  /** The rows up to 31 March 2026 are kept in order, and one entry declares the keys of the others. */
  ghost predicate SnapshotsStopped(before: seq<Row>, after: seq<Row>, injections: seq<Injection>) {
    && (exists at :: && PicksAt(before, after, at)
                     && forall i: nat :: i in at <==> i < |before| && before[i] != [] && before[i][0].Date?
                                                      && before[i][0].day <= 20260331)
    && |injections| == 1 && injections[0].kind == StoppedUpdates && injections[0].table == SubscriptionSnapshots
    && injections[0].newRowIds == {}
    && forall k :: k in injections[0].affectedRowIds <==>
         exists i :: && 0 <= i < |before| && |before[i]| == 4 && before[i][0].Date? && before[i][0].day > 20260331
                     && k == [before[i][0], before[i][1]]
  }

  lemma {:induction false} StoppedRowByRow(rows: seq<Row>)
    requires forall i :: 0 <= i < |rows| ==> IsSnapshot(rows[i])
    ensures SnapshotsStopped(rows, Filter(rows, KeptSnapshot), [StoppedEntry(rows)])
  {
    var at := FilterPicks(rows, KeptSnapshot);
    var declared := StoppedEntry(rows).affectedRowIds;
    forall k | k in declared
      ensures exists i :: && 0 <= i < |rows| && |rows[i]| == 4 && rows[i][0].Date? && rows[i][0].day > 20260331
                          && k == [rows[i][0], rows[i][1]]
    {
      var row :| row in rows && !KeptSnapshot(row) && KeyOf(SubscriptionSnapshots, row) == k;
      var i :| 0 <= i < |rows| && rows[i] == row;
      assert row[..2] == [row[0], row[1]];
    }
    forall i | 0 <= i < |rows| && rows[i][0].day > 20260331 ensures [rows[i][0], rows[i][1]] in declared {
      assert rows[i] in rows && !KeptSnapshot(rows[i]);
      assert rows[i][..2] == [rows[i][0], rows[i][1]];
    }
  }

  /** Nothing but the snapshots is touched, and these row by row. */
  ghost predicate StoppedInPlace(data: Dataset, result: Injected)
    requires SubscriptionSnapshots in data
  {
    && result.mutated.Keys == data.Keys
    && (forall table :: table in data && table != SubscriptionSnapshots ==> result.mutated[table] == data[table])
    && SnapshotsStopped(data[SubscriptionSnapshots], result.mutated[SubscriptionSnapshots], result.injections)
  }

  lemma {:induction false} StoppedResult(data: Dataset)
    requires Schema(data)
    ensures StoppedInPlace(data,
        Injected(data[SubscriptionSnapshots := Filter(data[SubscriptionSnapshots], KeptSnapshot)],
                                          [StoppedEntry(data[SubscriptionSnapshots])]))
  {
    StoppedRowByRow(data[SubscriptionSnapshots]);
  }

  /** Drops every month-end snapshot after the cutoff. Empty tables have no newest snapshot to report. */
  method InjectStoppedUpdates(data: Dataset) returns (result: Result<Injected, InjectError>)
    requires Schema(data)
    ensures result.Err? <==> data[SubscriptionSnapshots] == []
    ensures result.Err? ==> result.error == EmptySnapshots
    ensures result.Ok? ==>
              result.value == Injected(data[SubscriptionSnapshots := Filter(data[SubscriptionSnapshots], KeptSnapshot)],
                                       [StoppedEntry(data[SubscriptionSnapshots])])
    ensures result.Ok? ==> StoppedInPlace(data, result.value)
  {
    var rows := data[SubscriptionSnapshots];
    if rows == [] { return Err(EmptySnapshots); }
    var kept: seq<Row> := [];
    var affected: set<Key> := {};
    for i := 0 to |rows|
      invariant kept == Filter(rows[..i], KeptSnapshot)
      invariant affected == DroppedKeys(SubscriptionSnapshots, rows[..i], KeptSnapshot)
    {
      assert rows[..i + 1] == rows[..i] + [rows[i]];
      FilterConcat(rows[..i], [rows[i]], KeptSnapshot);
      assert IsSnapshot(rows[i]);
      if rows[i][0].day <= SNAPSHOT_CUTOFF {
        kept := kept + [rows[i]];
      } else {
        affected := affected + {KeyOf(SubscriptionSnapshots, rows[i])};
      }
    }
    assert rows[..|rows|] == rows;
    StoppedResult(data);
    result := Ok(Injected(data[SubscriptionSnapshots := kept],
        [Injection(StoppedUpdates, SubscriptionSnapshots, affected, {})]));
  }

  /** On every dataset the scenario removes exactly the keys it declares and touches nothing else. */
  lemma {:induction false} StoppedUpdatesExact(data: Dataset, result: Injected)
    requires Schema(data)
    requires result == Injected(data[SubscriptionSnapshots := Filter(data[SubscriptionSnapshots], KeptSnapshot)],
                                [StoppedEntry(data[SubscriptionSnapshots])])
    ensures DiffOf(SubscriptionSnapshots, data[SubscriptionSnapshots], result.mutated[SubscriptionSnapshots])
            == TableDiff({}, result.injections[0].affectedRowIds, {})
    ensures StaysDeclared(data, result)
  {
    var rows := data[SubscriptionSnapshots];
    forall row | row in rows ensures KeptSnapshot(row) == KeptSnapshot(KeyOf(SubscriptionSnapshots, row)) {
      assert IsSnapshot(row);
    }
    FilterDiff(SubscriptionSnapshots, rows, KeptSnapshot);
    OneTableDeclared(data, result, SubscriptionSnapshots);
  }

  // ---- sudden drop ---------------------------------------------------------------------------

  predicate InDropWindow(row: Row)
    requires IsOrder(row)
  {
    20260301 <= row[5].date <= 20260331
  }

  /** Three tenths of the total, to the cent, for an order placed in March 2026. */
  function Undercharged(row: Row): Row
    requires IsOrder(row)
  {
    if InDropWindow(row) then row[3 := Number(RoundHalfUp(row[3].number * 3, 10))] else row
  }

  function DropKeys(rows: seq<Row>): set<Key>
    requires forall i :: 0 <= i < |rows| ==> IsOrder(rows[i])
  {
    set row | row in rows && InDropWindow(row) :: KeyOf(Orders, row)
  }

  /** `cents` is three tenths of `total`, to the nearest cent, halves away from zero. */
  predicate ThreeTenths(total: int, cents: int) {
    if total >= 0 then 3 * total - 5 < 10 * cents <= 3 * total + 5 else 3 * total - 5 <= 10 * cents < 3 * total + 5
  }

  /** The order is one placed in March 2026 with three tenths of its total, or unchanged. */
  predicate DroppedRow(before: Row, after: Row) {
    if |before| == 8 && before[5].Moment? && 20260301 <= before[5].date <= 20260331
    then && |after| == 8 && before[3].Number? && after[3].Number? && ThreeTenths(before[3].number, after[3].number)
         && forall c :: 0 <= c < 8 && c != 3 ==> after[c] == before[c]
    else after == before
  }

  /** Row by row; and one entry declares exactly the ids of the orders in the window. */
  ghost predicate TotalsDropped(before: seq<Row>, after: seq<Row>, injections: seq<Injection>) {
    && |after| == |before| && (forall i :: 0 <= i < |before| ==> DroppedRow(before[i], after[i]))
    && |injections| == 1 && injections[0].kind == SuddenDrop && injections[0].table == Orders
    && injections[0].newRowIds == {}
    && forall k :: k in injections[0].affectedRowIds <==>
         exists i :: && 0 <= i < |before| && |before[i]| == 8 && before[i][5].Moment?
                     && 20260301 <= before[i][5].date <= 20260331 && k == [before[i][0]]
  }

  lemma {:induction false} DropRowByRow(before: seq<Row>, after: seq<Row>)
    requires forall i :: 0 <= i < |before| ==> IsOrder(before[i])
    requires UnderchargedRows(before, after)
    ensures TotalsDropped(before, after, [Injection(SuddenDrop, Orders, DropKeys(before), {})])
  {
    forall i | 0 <= i < |before| ensures DroppedRow(before[i], after[i]) {
      RoundingIsClose(before[i][3].number * 3, 10);
    }
    forall k | k in DropKeys(before)
      ensures exists i :: && 0 <= i < |before| && |before[i]| == 8 && before[i][5].Moment?
                          && 20260301 <= before[i][5].date <= 20260331 && k == [before[i][0]]
    {
      var row :| row in before && InDropWindow(row) && KeyOf(Orders, row) == k;
      var i :| 0 <= i < |before| && before[i] == row;
    }
    forall i | 0 <= i < |before| && 20260301 <= before[i][5].date <= 20260331
      ensures [before[i][0]] in DropKeys(before)
    {
      assert before[i] in before && InDropWindow(before[i]);
      assert KeyOf(Orders, before[i]) == [before[i][0]];
    }
  }

  method InjectSuddenDrop(data: Dataset) returns (result: Injected)
    requires Schema(data)
    ensures exists after :: && UnderchargedRows(data[Orders], after)
                            && result == Injected(data[Orders := after],
                                [Injection(SuddenDrop, Orders, DropKeys(data[Orders]), {})])
    ensures result.mutated.Keys == data.Keys && TotalsDropped(data[Orders], result.mutated[Orders], result.injections)
    ensures forall table :: table in data && table != Orders ==> result.mutated[table] == data[table]
  {
    var rows := data[Orders];
    var mutatedRows: seq<Row> := [];
    var affected: set<Key> := {};
    for i := 0 to |rows|
      invariant UnderchargedRows(rows[..i], mutatedRows)
      invariant affected == DropKeys(rows[..i])
    {
      assert rows[..i + 1] == rows[..i] + [rows[i]];
      var row := rows[i];
      if 20260301 <= row[5].date <= 20260331 {
        var newTotal := RoundHalfUp(row[3].number * 3, 10);
        affected := affected + {[row[0]]};
        mutatedRows := mutatedRows + [row[..3] + [Number(newTotal)] + row[4..]];
        assert KeyOf(Orders, row) == [row[0]];
      } else {
        mutatedRows := mutatedRows + [row];
      }
    }
    assert rows[..|rows|] == rows;
    DropRowByRow(rows, mutatedRows);
    result := Injected(data[Orders := mutatedRows], [Injection(SuddenDrop, Orders, affected, {})]);
  }

  /** Three tenths rounded to the cent is the total itself only for zero, and otherwise nearer to zero. */
  lemma {:induction false} DropShrinks(total: int)
    ensures var dropped := RoundHalfUp(total * 3, 10);
            && (dropped == total <==> total == 0)
            && (total > 0 ==> 0 <= dropped < total) && (total < 0 ==> total < dropped <= 0)
  {
    RoundingIsClose(total * 3, 10);
  }

  predicate UnderchargedRows(before: seq<Row>, after: seq<Row>)
    requires forall i :: 0 <= i < |before| ==> IsOrder(before[i])
  {
    |after| == |before| && forall i :: 0 <= i < |before| ==> after[i] == Undercharged(before[i])
  }

  /** Nothing is added or removed, and only declared orders change. */
  lemma {:induction false} SuddenDropDiff(before: seq<Row>, after: seq<Row>)
    requires forall i :: 0 <= i < |before| ==> IsOrder(before[i])
    requires UnderchargedRows(before, after)
    ensures RewritesWithin(Orders, before, after, DropKeys(before))
    ensures DiffOf(Orders, before, after).added == {} == DiffOf(Orders, before, after).removed
    ensures DiffOf(Orders, before, after).changed <= DropKeys(before)
  {
    var affected := DropKeys(before);
    forall i | 0 <= i < |before|
      ensures KeyOf(Orders, after[i]) == KeyOf(Orders, before[i])
          && (after[i] == before[i] || KeyOf(Orders, before[i]) in affected)
    {
      assert KeyOf(Orders, before[i]) == [before[i][0]] == KeyOf(Orders, after[i]);
      assert before[i] in before;
    }
    RewriteDiff(Orders, before, after, affected);
  }

  /** With unique order ids the changed orders are exactly the window's orders with a non-zero total. */
  lemma {:induction false} SuddenDropChanges(before: seq<Row>, after: seq<Row>, i: nat)
    requires forall j :: 0 <= j < |before| ==> IsOrder(before[j])
    requires UnderchargedRows(before, after) && UniqueKeys(Orders, before) && i < |before|
    ensures KeyOf(Orders, before[i]) in DiffOf(Orders, before, after).changed
        <==> InDropWindow(before[i]) && before[i][3].number != 0
  {
    SuddenDropDiff(before, after);
    ChangedExactly(Orders, before, after, DropKeys(before), i);
    DropShrinks(before[i][3].number);
  }

  /** On every dataset the scenario stays within what it declares. */
  lemma {:induction false} SuddenDropStaysDeclared(data: Dataset, after: seq<Row>)
    requires Schema(data) && UnderchargedRows(data[Orders], after)
    ensures StaysDeclared(data,
        Injected(data[Orders := after], [Injection(SuddenDrop, Orders, DropKeys(data[Orders]), {})]))
  {
    SuddenDropDiff(data[Orders], after);
    OneTableDeclared(data, Injected(data[Orders := after], [Injection(SuddenDrop, Orders, DropKeys(data[Orders]), {})]),
        Orders);
  }

  // ---- drift ---------------------------------------------------------------------------------

  predicate InDriftWindow(row: Row)
    requires IsFxRate(row)
  {
    row[1].text == "EUR" && 20260101 <= row[0].day <= 20260630
  }

  /** The indices of the EUR rows in the window, in table order. */
  function WindowPositions(rows: seq<Row>): (positions: seq<nat>)
    requires forall i :: 0 <= i < |rows| ==> IsFxRate(rows[i])
    ensures forall d :: 0 <= d < |positions| ==> positions[d] < |rows| && InDriftWindow(rows[positions[d]])
    ensures forall i :: 0 <= i < |rows| && InDriftWindow(rows[i]) ==> i in positions
    ensures forall d, e :: 0 <= d < e < |positions| ==> positions[d] < positions[e]
  {
    if rows == [] then []
    else
      var n := |rows| - 1;
      var front := WindowPositions(rows[..n]);
      if InDriftWindow(rows[n]) then front + [n] else front
  }

  /** The rate after `day` steps of a slope of 15 in ten thousand, to the millionth. */
  function DriftedRate(rate: int, day: nat): int { RoundHalfUp(rate * (10000 + 15 * day), 10000) }

  function DriftKeys(rows: seq<Row>): set<Key>
    requires forall i :: 0 <= i < |rows| ==> IsFxRate(rows[i])
  {
    set row | row in rows && InDriftWindow(row) :: KeyOf(FxRates, row)
  }

  /** The row at the `d`-th position, with its rate drifted `d` steps. */
  function DriftedRow(row: Row, d: nat): Row
    requires IsFxRate(row)
  {
    [row[0], row[1], Number(DriftedRate(row[2].number, d))]
  }

  /** The `d`-th window row carries the `d`-th drifted rate; every other row is untouched. */
  predicate DriftedRows(before: seq<Row>, after: seq<Row>)
    requires forall i :: 0 <= i < |before| ==> IsFxRate(before[i])
  {
    && |after| == |before|
    && (forall d :: 0 <= d < |WindowPositions(before)| ==>
          after[WindowPositions(before)[d]] == DriftedRow(before[WindowPositions(before)[d]], d))
    && (forall i :: 0 <= i < |before| && !InDriftWindow(before[i]) ==> after[i] == before[i])
  }

  /** `drifted` is the rate after `day` steps of fifteen in ten thousand, to the nearest millionth, halves away. */
  predicate DriftedBy(rate: int, day: nat, drifted: int) {
    var exact := rate * (10000 + 15 * day);
    if exact >= 0 then 2 * exact - 10000 < 20000 * drifted <= 2 * exact + 10000
    else 2 * exact - 10000 <= 20000 * drifted < 2 * exact + 10000
  }

  /** The `d`-th euro rate of the first half of 2026 is drifted `d` steps, in table order; all others are unchanged. */
  ghost predicate RatesDrifted(before: seq<Row>, after: seq<Row>) {
    && |after| == |before|
    && exists at: seq<nat> ::
         && (forall c, d :: 0 <= c < d < |at| ==> at[c] < at[d])
         && (forall i: nat :: i in at <==> i < |before| && EuroRate(before[i]))
         && (forall d :: 0 <= d < |at| ==> at[d] < |before| && DriftedTo(before[at[d]], after[at[d]], d))
         && (forall i: nat :: i < |before| && i !in at ==> after[i] == before[i])
  }

  /** One entry declares exactly the keys of those rates. */
  ghost predicate DriftListed(before: seq<Row>, injections: seq<Injection>) {
    && |injections| == 1 && injections[0].kind == Drift && injections[0].table == FxRates
    && injections[0].newRowIds == {}
    && forall k :: k in injections[0].affectedRowIds <==>
         exists i :: 0 <= i < |before| && EuroRate(before[i]) && k == [before[i][0], before[i][1]]
  }

  predicate EuroRate(row: Row) {
    |row| == 3 && row[0].Date? && row[1] == Text("EUR") && 20260101 <= row[0].day <= 20260630
  }

  predicate DriftedTo(before: Row, after: Row, day: nat) {
    && |before| == 3 && |after| == 3 && after[0] == before[0] && after[1] == before[1]
    && before[2].Number? && after[2].Number? && DriftedBy(before[2].number, day, after[2].number)
  }

  lemma {:induction false} DriftRowByRow(before: seq<Row>, after: seq<Row>)
    requires forall i :: 0 <= i < |before| ==> IsFxRate(before[i])
    requires DriftedRows(before, after)
    ensures RatesDrifted(before, after)
  {
    var at := WindowPositions(before);
    forall i | 0 <= i < |before| ensures EuroRate(before[i]) <==> InDriftWindow(before[i]) {
      assert IsFxRate(before[i]);
    }
    forall d | 0 <= d < |at| ensures DriftedTo(before[at[d]], after[at[d]], d) { DriftedCell(before[at[d]], d); }
  }

  lemma {:induction false} DriftedCell(row: Row, d: nat)
    requires IsFxRate(row)
    ensures DriftedTo(row, DriftedRow(row, d), d)
  {
    RoundingIsClose(row[2].number * (10000 + 15 * d), 10000);
  }

  lemma {:induction false} DriftKeysListed(before: seq<Row>)
    requires forall i :: 0 <= i < |before| ==> IsFxRate(before[i])
    ensures DriftListed(before, [Injection(Drift, FxRates, DriftKeys(before), {})])
  {
    forall k | k in DriftKeys(before)
      ensures exists i :: 0 <= i < |before| && EuroRate(before[i]) && k == [before[i][0], before[i][1]]
    {
      var row :| row in before && InDriftWindow(row) && KeyOf(FxRates, row) == k;
      var i :| 0 <= i < |before| && before[i] == row;
      assert row[..2] == [row[0], row[1]];
    }
    forall i | 0 <= i < |before| && EuroRate(before[i]) ensures [before[i][0], before[i][1]] in DriftKeys(before) {
      assert before[i] in before && before[i][..2] == [before[i][0], before[i][1]];
    }
  }

  method FindWindow(rows: seq<Row>) returns (positions: seq<nat>)
    requires forall i :: 0 <= i < |rows| ==> IsFxRate(rows[i])
    ensures positions == WindowPositions(rows)
  {
    positions := [];
    for i := 0 to |rows|
      invariant positions == WindowPositions(rows[..i])
    {
      assert rows[..i + 1][..i] == rows[..i];
      if rows[i][1].text == "EUR" && 20260101 <= rows[i][0].day <= 20260630 { positions := positions + [i]; }
    }
    assert rows[..|rows|] == rows;
  }

  method RewriteWindow(rows: seq<Row>, positions: seq<nat>) returns (mutatedRows: seq<Row>, affected: set<Key>)
    requires forall i :: 0 <= i < |rows| ==> IsFxRate(rows[i])
    requires forall d :: 0 <= d < |positions| ==> positions[d] < |rows|
    requires Distinct(positions)
    ensures |mutatedRows| == |rows|
    ensures forall d :: 0 <= d < |positions| ==> mutatedRows[positions[d]] == DriftedRow(rows[positions[d]], d)
    ensures forall i :: 0 <= i < |rows| && i !in positions ==> mutatedRows[i] == rows[i]
    ensures affected == set e | 0 <= e < |positions| :: KeyOf(FxRates, rows[positions[e]])
  {
    mutatedRows, affected := rows, {};
    for d := 0 to |positions|
      invariant |mutatedRows| == |rows|
      invariant forall e :: 0 <= e < d ==> mutatedRows[positions[e]] == DriftedRow(rows[positions[e]], e)
      invariant forall i :: 0 <= i < |rows| && i !in positions[..d] ==> mutatedRows[i] == rows[i]
      invariant affected == set e | 0 <= e < d :: KeyOf(FxRates, rows[positions[e]])
    {
      var row := rows[positions[d]];
      assert positions[..d + 1] == positions[..d] + [positions[d]];
      affected := affected + {KeyOf(FxRates, row)};
      mutatedRows := mutatedRows[positions[d] := DriftedRow(row, d)];
    }
    assert positions[..|positions|] == positions;
  }

  method InjectDrift(data: Dataset) returns (result: Injected)
    requires Schema(data)
    ensures exists after :: && DriftedRows(data[FxRates], after)
                            && result == Injected(data[FxRates := after],
                                [Injection(Drift, FxRates, DriftKeys(data[FxRates]), {})])
    ensures result.mutated.Keys == data.Keys && RatesDrifted(data[FxRates], result.mutated[FxRates])
    ensures DriftListed(data[FxRates], result.injections)
    ensures forall table :: table in data && table != FxRates ==> result.mutated[table] == data[table]
  {
    var positions := FindWindow(data[FxRates]);
    var mutatedRows, affected := RewriteWindow(data[FxRates], positions);
    DriftKeysByPosition(data[FxRates]);
    forall i | 0 <= i < |data[FxRates]| && !InDriftWindow(data[FxRates][i]) ensures i !in positions {
    }
    assert DriftedRows(data[FxRates], mutatedRows);
    DriftRowByRow(data[FxRates], mutatedRows);
    DriftKeysListed(data[FxRates]);
    result := Injected(data[FxRates := mutatedRows], [Injection(Drift, FxRates, affected, {})]);
  }

  lemma {:induction false} DriftKeysByPosition(rows: seq<Row>)
    requires forall i :: 0 <= i < |rows| ==> IsFxRate(rows[i])
    ensures DriftKeys(rows) == set d | 0 <= d < |WindowPositions(rows)| ::
        KeyOf(FxRates, rows[WindowPositions(rows)[d]])
  {
    var positions := WindowPositions(rows);
    forall k | k in DriftKeys(rows)
        ensures exists d :: 0 <= d < |positions| && KeyOf(FxRates, rows[positions[d]]) == k {
      var row :| row in rows && InDriftWindow(row) && KeyOf(FxRates, row) == k;
      var i :| 0 <= i < |rows| && rows[i] == row;
      assert i in positions;
    }
    forall d | 0 <= d < |positions| ensures KeyOf(FxRates, rows[positions[d]]) in DriftKeys(rows) {
      assert rows[positions[d]] in rows;
    }
  }

  /** The drift never lowers a rate, is nothing on the first day, and grows with the days. */
  lemma {:induction false} DriftIsUpward(rate: int, day: nat, later: nat)
    requires rate >= 0 && day <= later
    ensures DriftedRate(rate, 0) == rate <= DriftedRate(rate, day) <= DriftedRate(rate, later)
  {
    RoundingKeepsOrder(rate * 10000, rate * (10000 + 15 * day), 10000);
    ScaleOrder(rate, 10000 + 15 * day, 10000 + 15 * later);
    RoundingKeepsOrder(rate * (10000 + 15 * day), rate * (10000 + 15 * later), 10000);
  }

  lemma {:induction false} RoundingKeepsOrder(a: int, b: int, den: int)
    requires 0 <= a <= b && den > 0
    ensures RoundHalfUp(a, den) <= RoundHalfUp(b, den)
  {
    var p, q := RoundHalfUp(a, den), RoundHalfUp(b, den);
    DivisionBounds(2 * a + den, 2 * den);
    DivisionBounds(2 * b + den, 2 * den);
    ScaleOrder(2 * den, q + 1, p);
    assert 2 * den * (q + 1) == 2 * den * q + 2 * den;
  }

  lemma {:induction false} DriftRewrites(before: seq<Row>, after: seq<Row>)
    requires forall i :: 0 <= i < |before| ==> IsFxRate(before[i])
    requires DriftedRows(before, after)
    ensures RewritesWithin(FxRates, before, after, DriftKeys(before))
  {
    var affected, positions := DriftKeys(before), WindowPositions(before);
    forall i | 0 <= i < |before|
      ensures KeyOf(FxRates, after[i]) == KeyOf(FxRates, before[i])
          && (after[i] == before[i] || KeyOf(FxRates, before[i]) in affected)
    {
      if InDriftWindow(before[i]) {
        var d :| 0 <= d < |positions| && positions[d] == i;
        assert KeyOf(FxRates, before[i]) == [before[i][0], before[i][1]] == KeyOf(FxRates, after[i]);
        assert before[i] in before;
      }
    }
  }

  /** Nothing is added or removed, and only declared rates change. */
  lemma {:induction false} DriftDiff(before: seq<Row>, after: seq<Row>)
    requires forall i :: 0 <= i < |before| ==> IsFxRate(before[i])
    requires DriftedRows(before, after)
    ensures DiffOf(FxRates, before, after).added == {} == DiffOf(FxRates, before, after).removed
    ensures DiffOf(FxRates, before, after).changed <= DriftKeys(before)
  {
    DriftRewrites(before, after);
    RewriteDiff(FxRates, before, after, DriftKeys(before));
  }

  lemma {:induction false} DriftedRowSame(row: Row, d: nat)
    requires IsFxRate(row)
    ensures DriftedRow(row, d) == row <==> DriftedRate(row[2].number, d) == row[2].number
  {
    assert DriftedRow(row, d)[0] == row[0] && DriftedRow(row, d)[1] == row[1];
  }

  /** With unique keys the changed rates are exactly the window's rates whose rounding moved. */
  lemma {:induction false} DriftChanges(before: seq<Row>, after: seq<Row>, d: nat, p: nat)
    requires forall i :: 0 <= i < |before| ==> IsFxRate(before[i])
    requires DriftedRows(before, after) && UniqueKeys(FxRates, before)
    requires d < |WindowPositions(before)| && p == WindowPositions(before)[d]
    ensures KeyOf(FxRates, before[p]) in DiffOf(FxRates, before, after).changed
            <==> DriftedRate(before[p][2].number, d) != before[p][2].number
  {
    DriftRewrites(before, after);
    assert after[p] == DriftedRow(before[p], d);
    DriftedRowSame(before[p], d);
    ChangedExactly(FxRates, before, after, DriftKeys(before), p);
  }

  /** On every dataset the scenario stays within what it declares. */
  lemma {:induction false} DriftStaysDeclared(data: Dataset, after: seq<Row>)
    requires Schema(data) && DriftedRows(data[FxRates], after)
    ensures StaysDeclared(data,
        Injected(data[FxRates := after], [Injection(Drift, FxRates, DriftKeys(data[FxRates]), {})]))
  {
    DriftDiff(data[FxRates], after);
    OneTableDeclared(data, Injected(data[FxRates := after], [Injection(Drift, FxRates, DriftKeys(data[FxRates]), {})]),
        FxRates);
  }
}
