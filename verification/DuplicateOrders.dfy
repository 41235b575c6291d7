/**
 * The duplicated orders scenario (examples/driftwood-wren/generate.py, `inject_duplicates`): orders
 * 1000 to 1004 with their items and payments, copied under fresh ids.
 */
module DuplicateOrders {
  import opened Prelude
  import opened KeyedDiff

  const FIRST_DUPLICATE := 1000
  const LAST_DUPLICATE := 1004

  /** The id column; `Schema` makes it a number. */
  function Id(row: Row): int { if row != [] && row[0].Number? then row[0].number else 0 }

  /** The order column of an item or a payment; `Schema` makes it a number. */
  function OrderOf(row: Row): int { if |row| >= 2 && row[1].Number? then row[1].number else 0 }

  function IdKey(id: int): Key { [Number(id)] }

  predicate HasId(row: Row) { row != [] && row[0].Number? }

  lemma {:induction false} KeyIsId(table: Table, row: Row)
    requires KeyWidth(table) == 1 && HasId(row)
    ensures KeyOf(table, row) == IdKey(Id(row)) && IdKey(Id(row))[0] == Number(Id(row))
  {
  }

  function MaxId(rows: seq<Row>): int
    requires rows != []
  {
    if |rows| == 1 then Id(rows[0]) else Max(MaxId(rows[..|rows| - 1]), Id(rows[|rows| - 1]))
  }

  lemma {:induction false} MaxIdIsLargest(rows: seq<Row>, i: nat)
    requires i < |rows|
    ensures Id(rows[i]) <= MaxId(rows)
    decreases |rows|
  {
    if i < |rows| - 1 { MaxIdIsLargest(rows[..|rows| - 1], i); }
  }

  // ---- the orders ----------------------------------------------------------------------------

  /** The ids from `lo` to `hi` that name an order, ascending. */
  function PresentIds(orders: seq<Row>, lo: int, hi: int): seq<int>
    decreases hi - lo
  {
    if lo > hi then []
    else (if IdKey(lo) in ByKey(Orders, orders) then [lo] else []) + PresentIds(orders, lo + 1, hi)
  }

  function DuplicatedIds(orders: seq<Row>): seq<int> { PresentIds(orders, FIRST_DUPLICATE, LAST_DUPLICATE) }

  /** Exactly the range's ids that name an order, each once. */
  lemma {:induction false} PresentIdsExact(orders: seq<Row>, lo: int, hi: int)
    ensures Distinct(PresentIds(orders, lo, hi))
    ensures forall id :: id in PresentIds(orders, lo, hi) <==> lo <= id <= hi && IdKey(id) in ByKey(Orders, orders)
    decreases hi - lo
  {
    if lo <= hi {
      PresentIdsExact(orders, lo + 1, hi);
      var rest := PresentIds(orders, lo + 1, hi);
      assert forall j :: 0 <= j < |rest| ==> rest[j] in rest;
    }
  }

  lemma {:induction false} DuplicatedIdsDistinct(orders: seq<Row>)
    ensures Distinct(DuplicatedIds(orders))
  {
    PresentIdsExact(orders, FIRST_DUPLICATE, LAST_DUPLICATE);
  }

  /** The order under `id`, as the source's dictionary finds it. */
  function OrderById(orders: seq<Row>, id: int): Row {
    if IdKey(id) in ByKey(Orders, orders) then ByKey(Orders, orders)[IdKey(id)] else []
  }

  /** Python's `row[n:]`. */
  function From(row: Row, n: nat): Row { if n <= |row| then row[n..] else [] }

  function CopyOrder(row: Row, id: int): Row { [Number(id)] + From(row, 1) }

  /** The `j`-th order of `ids`, verbatim under the id `next + j`. */
  function OrderCopies(orders: seq<Row>, ids: seq<int>, next: int): (copies: seq<Row>)
    ensures |copies| == |ids|
  {
    if ids == [] then []
    else
      var n := |ids| - 1;
      OrderCopies(orders, ids[..n], next) + [CopyOrder(OrderById(orders, ids[n]), next + n)]
  }

  /** The id map: the `j`-th id to `next + j`; a later entry replaces an earlier one. */
  function IdMap(ids: seq<int>, next: int): map<int, int> {
    if ids == [] then map[]
    else
      var n := |ids| - 1;
      IdMap(ids[..n], next)[ids[n] := next + n]
  }

  lemma {:induction false} OrderCopyAt(orders: seq<Row>, ids: seq<int>, next: int, j: nat)
    requires j < |ids|
    ensures OrderCopies(orders, ids, next)[j] == CopyOrder(OrderById(orders, ids[j]), next + j)
    decreases |ids|
  {
    if j < |ids| - 1 { OrderCopyAt(orders, ids[..|ids| - 1], next, j); }
  }

  /** Each entry is the last place its key has in the list. */
  lemma {:induction false} IdMapEntry(ids: seq<int>, next: int, id: int)
    ensures id in IdMap(ids, next) <==> id in ids
    ensures id in IdMap(ids, next) ==>
              var p := IdMap(ids, next)[id] - next;
              0 <= p < |ids| && ids[p] == id && forall q :: p < q < |ids| ==> ids[q] != id
    decreases |ids|
  {
    if ids != [] {
      var n := |ids| - 1;
      assert ids == ids[..n] + [ids[n]];
      IdMapEntry(ids[..n], next, id);
    }
  }

  lemma {:induction false} IdMapPlace(ids: seq<int>, next: int, id: int) returns (p: nat)
    requires id in IdMap(ids, next)
    ensures p < |ids| && ids[p] == id && IdMap(ids, next)[id] == next + p
  {
    IdMapEntry(ids, next, id);
    p := IdMap(ids, next)[id] - next;
  }

  lemma {:induction false} IdMapSnoc(ids: seq<int>, id: int, next: int)
    ensures IdMap(ids + [id], next) == IdMap(ids, next)[id := next + |ids|]
  {
    assert (ids + [id])[..|ids|] == ids;
  }

  method CopyOrders(orders: seq<Row>, ids: seq<int>, next: int) returns (copies: seq<Row>, idMap: map<int, int>)
    ensures copies == OrderCopies(orders, ids, next) && idMap == IdMap(ids, next)
  {
    var nextOrderId := next;
    copies, idMap := [], map[];
    for j := 0 to |ids|
      invariant nextOrderId == next + j
      invariant copies == OrderCopies(orders, ids[..j], next)
      invariant idMap == IdMap(ids[..j], next)
    {
      assert ids[..j + 1][..j] == ids[..j];
      copies := copies + [CopyOrder(OrderById(orders, ids[j]), nextOrderId)];
      idMap := idMap[ids[j] := nextOrderId];
      nextOrderId := nextOrderId + 1;
    }
    assert ids[..|ids|] == ids;
  }

  /** Over distinct ids the map is injective, and each id maps to its place. */
  lemma {:induction false} IdMapInjective(ids: seq<int>, next: int, a: int, b: int)
    requires Distinct(ids) && a in IdMap(ids, next) && b in IdMap(ids, next)
        && IdMap(ids, next)[a] == IdMap(ids, next)[b]
    ensures a == b
  {
    IdMapEntry(ids, next, a);
    IdMapEntry(ids, next, b);
  }

  // ---- the items and the payments ------------------------------------------------------------

  /** The rows of the copied orders among the first `n`, in table order. */
  function ChildrenUpTo(rows: seq<Row>, n: nat, idMap: map<int, int>): seq<Row>
    requires n <= |rows|
  {
    if n == 0 then []
    else if OrderOf(rows[n - 1]) in idMap then ChildrenUpTo(rows, n - 1, idMap) + [rows[n - 1]]
    else ChildrenUpTo(rows, n - 1, idMap)
  }

  function Children(rows: seq<Row>, idMap: map<int, int>): seq<Row> { ChildrenUpTo(rows, |rows|, idMap) }

  /** Every child is a row of a copied order. */
  lemma {:induction false} ChildOrigin(rows: seq<Row>, n: nat, idMap: map<int, int>, c: nat) returns (i: nat)
    requires n <= |rows| && c < |ChildrenUpTo(rows, n, idMap)|
    ensures i < n && rows[i] == ChildrenUpTo(rows, n, idMap)[c] && OrderOf(rows[i]) in idMap
  {
    if c < |ChildrenUpTo(rows, n - 1, idMap)| { i := ChildOrigin(rows, n - 1, idMap, c); } else { i := n - 1; }
  }

  /** And every such row is a child. */
  lemma {:induction false} ChildrenComplete(rows: seq<Row>, n: nat, idMap: map<int, int>, i: nat)
    requires i < n <= |rows| && OrderOf(rows[i]) in idMap
    ensures rows[i] in ChildrenUpTo(rows, n, idMap)
  {
    if i < n - 1 { ChildrenComplete(rows, n - 1, idMap, i); }
  }

  function NewOrderId(idMap: map<int, int>, order: int): int { if order in idMap then idMap[order] else order }

  /** The row under a new id and its order's new id, otherwise verbatim. */
  function CopyChild(row: Row, id: int, idMap: map<int, int>): Row {
    [Number(id), Number(NewOrderId(idMap, OrderOf(row)))] + From(row, 2)
  }

  function ChildCopies(children: seq<Row>, next: int, idMap: map<int, int>): (copies: seq<Row>)
    ensures |copies| == |children|
  {
    if children == [] then []
    else
      var n := |children| - 1;
      ChildCopies(children[..n], next, idMap) + [CopyChild(children[n], next + n, idMap)]
  }

  function Ids(rows: seq<Row>): seq<int> { seq(|rows|, i requires 0 <= i < |rows| => Id(rows[i])) }

  lemma {:induction false} ChildCopyAt(children: seq<Row>, next: int, idMap: map<int, int>, j: nat)
    requires j < |children|
    ensures ChildCopies(children, next, idMap)[j] == CopyChild(children[j], next + j, idMap)
    decreases |children|
  {
    if j < |children| - 1 { ChildCopyAt(children[..|children| - 1], next, idMap, j); }
  }

  lemma {:induction false} ChildCopiesSnoc(children: seq<Row>, row: Row, next: int, idMap: map<int, int>)
    ensures ChildCopies(children + [row], next, idMap)
            == ChildCopies(children, next, idMap) + [CopyChild(row, next + |children|, idMap)]
    ensures IdMap(Ids(children + [row]), next) == IdMap(Ids(children), next)[Id(row) := next + |children|]
  {
    assert (children + [row])[..|children|] == children;
    assert Ids(children + [row]) == Ids(children) + [Id(row)];
    IdMapSnoc(Ids(children), Id(row), next);
  }

  /** What one more row adds to the copies and their id map. */
  lemma {:induction false} CopyStep(rows: seq<Row>, i: nat, idMap: map<int, int>, next: int)
    requires i < |rows|
    ensures var children, more := ChildrenUpTo(rows, i, idMap), ChildrenUpTo(rows, i + 1, idMap);
            if OrderOf(rows[i]) in idMap then
              && |more| == |children| + 1
              && ChildCopies(more, next, idMap)
                 == ChildCopies(children, next, idMap) + [CopyChild(rows[i], next + |children|, idMap)]
              && IdMap(Ids(more), next) == IdMap(Ids(children), next)[Id(rows[i]) := next + |children|]
            else more == children
  {
    ChildCopiesSnoc(ChildrenUpTo(rows, i, idMap), rows[i], next, idMap);
  }

  /** Copies the rows of the copied orders; the child id map keeps only the last copy of a repeated id. */
  method CopyChildren(rows: seq<Row>, idMap: map<int, int>, next: int)
    returns (copies: seq<Row>, childIdMap: map<int, int>)
    ensures copies == ChildCopies(Children(rows, idMap), next, idMap)
    ensures childIdMap == IdMap(Ids(Children(rows, idMap)), next)
  {
    var nextId := next;
    copies, childIdMap := [], map[];
    for i := 0 to |rows|
      invariant nextId == next + |ChildrenUpTo(rows, i, idMap)|
      invariant copies == ChildCopies(ChildrenUpTo(rows, i, idMap), next, idMap)
      invariant childIdMap == IdMap(Ids(ChildrenUpTo(rows, i, idMap)), next)
    {
      CopyStep(rows, i, idMap, next);
      if OrderOf(rows[i]) in idMap {
        copies := copies + [CopyChild(rows[i], nextId, idMap)];
        childIdMap := childIdMap[Id(rows[i]) := nextId];
        nextId := nextId + 1;
      }
    }
  }

  // ---- the scenario --------------------------------------------------------------------------

  /** The id map of the copied orders. */
  function OrderIdMap(data: Dataset): map<int, int>
    requires Orders in data && data[Orders] != []
  {
    IdMap(DuplicatedIds(data[Orders]), MaxId(data[Orders]) + 1)
  }

  function NewOrders(data: Dataset): seq<Row>
    requires Orders in data && data[Orders] != []
  {
    OrderCopies(data[Orders], DuplicatedIds(data[Orders]), MaxId(data[Orders]) + 1)
  }

  /** The children copied from one table, and their id map. */
  function Copied(data: Dataset, table: Table): seq<Row>
    requires Orders in data && data[Orders] != [] && table in data
  {
    Children(data[table], OrderIdMap(data))
  }

  function NewChildren(data: Dataset, table: Table): seq<Row>
    requires Orders in data && data[Orders] != [] && table in data && data[table] != []
  {
    ChildCopies(Copied(data, table), MaxId(data[table]) + 1, OrderIdMap(data))
  }

  function ChildIdMap(data: Dataset, table: Table): map<int, int>
    requires Orders in data && data[Orders] != [] && table in data && data[table] != []
  {
    IdMap(Ids(Copied(data, table)), MaxId(data[table]) + 1)
  }

  function NewRowIds(ids: map<int, int>): set<Key> { set id | id in ids :: IdKey(ids[id]) }

  function Entries(orderIds: map<int, int>, itemIds: map<int, int>, paymentIds: map<int, int>): seq<Injection> {
    [Injection(Duplicates, Orders, {}, NewRowIds(orderIds)),
     Injection(Duplicates, OrderItems, {}, NewRowIds(itemIds)),
     Injection(Duplicates, Payments, {}, NewRowIds(paymentIds))]
  }

  predicate HasAllThree(data: Dataset) {
    && Orders in data && OrderItems in data && Payments in data
    && data[Orders] != [] && data[OrderItems] != [] && data[Payments] != []
  }

  /** The dataset with rows appended to the three tables. */
  function Appended(data: Dataset, orders: seq<Row>, items: seq<Row>, payments: seq<Row>): Dataset
    requires Orders in data && OrderItems in data && Payments in data
  {
    data[Orders := data[Orders] + orders][OrderItems := data[OrderItems] + items][Payments := data[Payments] + payments]
  }

  // ---- the copies by position ----------------------------------------------------------------

  /** The copy is as long as its original, and agrees with it from column `from` on. */
  predicate Verbatim(copy: Row, original: Row, from: nat) {
    |copy| == |original| && forall c :: from <= c < |original| ==> copy[c] == original[c]
  }

  /** The row's number in a column. */
  predicate HasNumber(row: Row, column: nat, number: int) { column < |row| && row[column] == Number(number) }

  /** The ids from 1000 to 1004 that name an order, ascending. */
  ghost predicate SourceOrders(orders: seq<Row>, sources: seq<int>) {
    && Ascends(sources)
    && forall id :: id in sources <==>
         1000 <= id <= 1004 && exists i :: 0 <= i < |orders| && HasNumber(orders[i], 0, id)
  }

  /** The largest number in the id column. */
  predicate LargestId(rows: seq<Row>, top: int) {
    && (exists i :: 0 <= i < |rows| && HasNumber(rows[i], 0, top))
    && forall i :: 0 <= i < |rows| ==> rows[i] != [] && rows[i][0].Number? && rows[i][0].number <= top
  }

  /** Row `i` is the last one with the id. */
  predicate LastWithId(rows: seq<Row>, i: nat, id: int) {
    i < |rows| && HasNumber(rows[i], 0, id) && forall j :: i < j < |rows| ==> !HasNumber(rows[j], 0, id)
  }

  /** The source orders are appended verbatim, numbered from one past `top`. */
  ghost predicate OrdersAppended(before: seq<Row>, after: seq<Row>, sources: seq<int>, top: int) {
    && |after| == |before| + |sources| && after[..|before|] == before
    && forall j :: 0 <= j < |sources| ==> OrderCopied(before, after[|before| + j], sources[j], top + 1 + j)
  }

  ghost predicate OrderCopied(before: seq<Row>, copy: Row, source: int, id: int) {
    HasNumber(copy, 0, id) && exists i: nat :: LastWithId(before, i, source) && Verbatim(copy, before[i], 1)
  }

  /** The rows at `at` are exactly those of the source orders, in table order. */
  ghost predicate RowsOfOrders(rows: seq<Row>, sources: seq<int>, at: seq<nat>) {
    && Ascends(at)
    && forall i :: i in at <==> 0 <= i < |rows| && exists j :: 0 <= j < |sources| && HasNumber(rows[i], 1, sources[j])
  }

  /** They are appended verbatim but for the id and the order, which becomes the copy of theirs. */
  predicate ChildrenAppended(before: seq<Row>, after: seq<Row>, at: seq<nat>, sources: seq<int>, orderTop: int,
                             top: int) {
    && |after| == |before| + |at| && after[..|before|] == before
    && forall c :: 0 <= c < |at| ==>
         at[c] < |before| && ChildCopied(before[at[c]], after[|before| + c], sources, orderTop, top + 1 + c)
  }

  predicate ChildCopied(original: Row, copy: Row, sources: seq<int>, orderTop: int, id: int) {
    && HasNumber(copy, 0, id) && Verbatim(copy, original, 2)
    && exists j :: 0 <= j < |sources| && HasNumber(original, 1, sources[j]) && HasNumber(copy, 1, orderTop + 1 + j)
  }

  ghost predicate ChildTableCopied(before: seq<Row>, after: seq<Row>, sources: seq<int>, orderTop: int) {
    exists at, top :: LargestId(before, top) && RowsOfOrders(before, sources, at)
                      && ChildrenAppended(before, after, at, sources, orderTop, top)
  }

  /** What the scenario does to the dataset, row by row. */
  ghost predicate CopiesAppended(data: Dataset, mutated: Dataset)
    requires HasAllThree(data)
  {
    && mutated.Keys == data.Keys
    && (forall table :: table in data && table != Orders && table != OrderItems && table != Payments ==>
          mutated[table] == data[table])
    && exists sources, top ::
         && SourceOrders(data[Orders], sources) && LargestId(data[Orders], top)
         && OrdersAppended(data[Orders], mutated[Orders], sources, top)
         && ChildTableCopied(data[OrderItems], mutated[OrderItems], sources, top)
         && ChildTableCopied(data[Payments], mutated[Payments], sources, top)
  }

  /** The entry for the orders declares the ids of all copies. */
  ghost predicate OrdersListed(entry: Injection, sources: seq<int>, top: int) {
    && entry.kind == Duplicates && entry.table == Orders && entry.affectedRowIds == {}
    && forall k: Key :: k in entry.newRowIds <==>
         |k| == 1 && k[0].Number? && top < k[0].number <= top + |sources|
  }

  /** No later of the rows has the same id. */
  predicate LastOfItsId(rows: seq<Row>, at: seq<nat>, c: nat) {
    && c < |at| && at[c] < |rows| && rows[at[c]] != []
    && forall d :: c < d < |at| ==> at[d] < |rows| && rows[at[d]] != [] && rows[at[d]][0] != rows[at[c]][0]
  }

  /** The ids after `top` that the last copies have. */
  ghost predicate LastCopies(rows: seq<Row>, at: seq<nat>, top: int, listed: set<Key>) {
    forall k: Key :: k in listed <==>
      |k| == 1 && k[0].Number? && k[0].number > top && LastOfItsId(rows, at, k[0].number - top - 1)
  }

  /** The entry for a child table declares the ids of the copies, but of rows that share an id only the last one's. */
  ghost predicate ChildrenListed(entry: Injection, table: Table, rows: seq<Row>, sources: seq<int>) {
    && entry.kind == Duplicates && entry.table == table && entry.affectedRowIds == {}
    && exists at, top ::
         && LargestId(rows, top) && RowsOfOrders(rows, sources, at)
         && LastCopies(rows, at, top, entry.newRowIds)
  }

  /** The manifest: one entry for each of the three tables. */
  ghost predicate CopiesListed(data: Dataset, injections: seq<Injection>)
    requires HasAllThree(data)
  {
    && |injections| == 3
    && exists sources, top ::
         && SourceOrders(data[Orders], sources) && LargestId(data[Orders], top)
         && OrdersListed(injections[0], sources, top)
         && ChildrenListed(injections[1], OrderItems, data[OrderItems], sources)
         && ChildrenListed(injections[2], Payments, data[Payments], sources)
  }

  predicate Ascends(ids: seq<int>) { forall j, k :: 0 <= j < k < |ids| ==> ids[j] < ids[k] }

  lemma {:induction false} PresentIdsAscend(orders: seq<Row>, lo: int, hi: int)
    ensures Ascends(PresentIds(orders, lo, hi))
    decreases hi - lo
  {
    if lo <= hi {
      PresentIdsAscend(orders, lo + 1, hi);
      PresentIdsExact(orders, lo + 1, hi);
      var rest := PresentIds(orders, lo + 1, hi);
      forall j | 0 <= j < |rest| ensures lo < rest[j] { assert rest[j] in rest; }
    }
  }

  lemma {:induction false} KeyNamesOrder(orders: seq<Row>, id: int)
    requires forall i :: 0 <= i < |orders| ==> HasId(orders[i])
    ensures IdKey(id) in ByKey(Orders, orders) <==> exists i :: 0 <= i < |orders| && HasNumber(orders[i], 0, id)
  {
    IndexEntries(Orders, orders);
    if IdKey(id) in ByKey(Orders, orders) {
      var i := IndexHoldsLast(Orders, orders, IdKey(id));
      KeyIsId(Orders, orders[i]);
      assert KeyOf(Orders, orders[i])[0] == orders[i][0] && IdKey(id)[0] == Number(id);
    }
    if i :| 0 <= i < |orders| && HasNumber(orders[i], 0, id) {
      KeyIsId(Orders, orders[i]);
      assert orders[i] in orders;
    }
  }

  lemma {:induction false} SourcesBetween(orders: seq<Row>, ids: seq<int>, lo: int, hi: int)
    requires (forall i :: 0 <= i < |orders| ==> HasId(orders[i])) && ids == PresentIds(orders, lo, hi)
    ensures Ascends(ids)
    ensures forall id :: id in ids <==> lo <= id <= hi && exists i :: 0 <= i < |orders| && HasNumber(orders[i], 0, id)
  {
    PresentIdsExact(orders, lo, hi);
    PresentIdsAscend(orders, lo, hi);
    forall id: int ensures IdKey(id) in ByKey(Orders, orders)
        <==> exists i :: 0 <= i < |orders| && HasNumber(orders[i], 0, id) {
      KeyNamesOrder(orders, id);
    }
  }

  lemma {:induction false} SourcesAreOrders(orders: seq<Row>)
    requires forall i :: 0 <= i < |orders| ==> HasId(orders[i])
    ensures SourceOrders(orders, DuplicatedIds(orders))
  {
    SourcesBetween(orders, DuplicatedIds(orders), FIRST_DUPLICATE, LAST_DUPLICATE);
  }

  lemma {:induction false} MaxIdIsThere(rows: seq<Row>) returns (i: nat)
    requires rows != []
    ensures i < |rows| && Id(rows[i]) == MaxId(rows)
  {
    var n := |rows| - 1;
    if n == 0 || Id(rows[n]) >= MaxId(rows[..n]) { i := n; } else { i := MaxIdIsThere(rows[..n]); }
  }

  lemma {:induction false} MaxIdLargest(rows: seq<Row>)
    requires rows != [] && forall i :: 0 <= i < |rows| ==> HasId(rows[i])
    ensures LargestId(rows, MaxId(rows))
  {
    var i := MaxIdIsThere(rows);
    assert HasNumber(rows[i], 0, MaxId(rows));
    forall j | 0 <= j < |rows| ensures rows[j][0].number <= MaxId(rows) { MaxIdIsLargest(rows, j); }
  }

  lemma {:induction false} CopiedOrder(orders: seq<Row>, source: int, id: int)
    requires forall i :: 0 <= i < |orders| ==> HasId(orders[i])
    requires IdKey(source) in ByKey(Orders, orders)
    ensures OrderCopied(orders, CopyOrder(OrderById(orders, source), id), source, id)
  {
    var i := IndexHoldsLast(Orders, orders, IdKey(source));
    forall j | i <= j < |orders|
      ensures KeyOf(Orders, orders[j]) == IdKey(source) <==> HasNumber(orders[j], 0, source)
    {
      KeyIsId(Orders, orders[j]);
      assert KeyOf(Orders, orders[j])[0] == orders[j][0] && IdKey(source)[0] == Number(source);
    }
    assert LastWithId(orders, i, source);
    assert Verbatim(CopyOrder(orders[i], id), orders[i], 1);
  }

  lemma {:induction false} NewOrdersAppended(orders: seq<Row>, copies: seq<Row>, ids: seq<int>, top: int)
    requires forall i :: 0 <= i < |orders| ==> HasId(orders[i])
    requires forall id :: id in ids ==> IdKey(id) in ByKey(Orders, orders)
    requires copies == OrderCopies(orders, ids, top + 1)
    ensures OrdersAppended(orders, orders + copies, ids, top)
  {
    forall j | 0 <= j < |ids| ensures OrderCopied(orders, copies[j], ids[j], top + 1 + j) {
      assert ids[j] in ids;
      OrderCopyAt(orders, ids, top + 1, j);
      CopiedOrder(orders, ids[j], top + 1 + j);
    }
    assert (orders + copies)[..|orders|] == orders;
  }

  /** Where the children are: the rows of the mapped orders, in table order. */
  function ChildPlaces(rows: seq<Row>, n: nat, idMap: map<int, int>): seq<nat>
    requires n <= |rows|
  {
    if n == 0 then []
    else ChildPlaces(rows, n - 1, idMap) + if OrderOf(rows[n - 1]) in idMap then [n - 1] else []
  }

  lemma {:induction false} ChildPlacesExact(rows: seq<Row>, n: nat, idMap: map<int, int>)
    requires n <= |rows|
    ensures Ascends(ChildPlaces(rows, n, idMap))
    ensures forall i :: i in ChildPlaces(rows, n, idMap) <==> 0 <= i < n && OrderOf(rows[i]) in idMap
  {
    if n > 0 {
      ChildPlacesExact(rows, n - 1, idMap);
      var front := ChildPlaces(rows, n - 1, idMap);
      assert forall c :: 0 <= c < |front| ==> front[c] in front;
    }
  }

  lemma {:induction false} ChildrenAtPlaces(rows: seq<Row>, n: nat, idMap: map<int, int>)
    requires n <= |rows|
    ensures |ChildPlaces(rows, n, idMap)| == |ChildrenUpTo(rows, n, idMap)|
    ensures forall c :: 0 <= c < |ChildPlaces(rows, n, idMap)| ==>
        ChildPlaces(rows, n, idMap)[c] < n && rows[ChildPlaces(rows, n, idMap)[c]] == ChildrenUpTo(rows, n, idMap)[c]
  {
    if n > 0 { ChildrenAtPlaces(rows, n - 1, idMap); }
  }

  lemma {:induction false} ChildCopiedVerbatim(row: Row, ids: seq<int>, orderNext: int, id: int)
    requires |row| >= 2 && row[1].Number? && OrderOf(row) in IdMap(ids, orderNext)
    ensures ChildCopied(row, CopyChild(row, id, IdMap(ids, orderNext)), ids, orderNext - 1, id)
  {
    var j := IdMapPlace(ids, orderNext, OrderOf(row));
    var copy := CopyChild(row, id, IdMap(ids, orderNext));
    assert HasNumber(row, 1, ids[j]) && HasNumber(copy, 1, orderNext - 1 + 1 + j);
    forall c | 2 <= c < |row| ensures copy[c] == row[c] { assert copy[c] == row[2..][c - 2]; }
  }

  lemma {:induction false} MappedAreSources(row: Row, ids: seq<int>, next: int)
    requires IsChild(row)
    ensures OrderOf(row) in IdMap(ids, next) <==> exists j :: 0 <= j < |ids| && HasNumber(row, 1, ids[j])
  {
    IdMapEntry(ids, next, OrderOf(row));
  }

  lemma {:induction false} PlacesAreSources(rows: seq<Row>, ids: seq<int>, next: int)
    requires forall i :: 0 <= i < |rows| ==> IsChild(rows[i])
    ensures RowsOfOrders(rows, ids, ChildPlaces(rows, |rows|, IdMap(ids, next)))
  {
    ChildPlacesExact(rows, |rows|, IdMap(ids, next));
    forall i | 0 <= i < |rows|
      ensures OrderOf(rows[i]) in IdMap(ids, next) <==> exists j :: 0 <= j < |ids| && HasNumber(rows[i], 1, ids[j])
    {
      MappedAreSources(rows[i], ids, next);
    }
  }

  lemma {:induction false} CopiesVerbatim(rows: seq<Row>, copies: seq<Row>, ids: seq<int>, orderTop: int, top: int)
    requires forall i :: 0 <= i < |rows| ==> IsChild(rows[i])
    requires var idMap := IdMap(ids, orderTop + 1); copies == ChildCopies(Children(rows, idMap), top + 1, idMap)
    ensures ChildrenAppended(rows, rows + copies, ChildPlaces(rows, |rows|, IdMap(ids, orderTop + 1)), ids, orderTop,
        top)
  {
    var idMap := IdMap(ids, orderTop + 1);
    var at := ChildPlaces(rows, |rows|, idMap);
    ChildPlacesExact(rows, |rows|, idMap);
    ChildrenAtPlaces(rows, |rows|, idMap);
    forall c | 0 <= c < |at| ensures ChildCopied(rows[at[c]], copies[c], ids, orderTop, top + 1 + c) {
      assert at[c] in at;
      ChildCopyAt(Children(rows, idMap), top + 1, idMap, c);
      ChildCopiedVerbatim(rows[at[c]], ids, orderTop + 1, top + 1 + c);
    }
    assert (rows + copies)[..|rows|] == rows;
  }

  lemma {:induction false} NewChildrenAppended(rows: seq<Row>, copies: seq<Row>, idMap: map<int, int>, ids: seq<int>,
                                               orderTop: int)
    requires rows != [] && (forall i :: 0 <= i < |rows| ==> IsChild(rows[i])) && idMap == IdMap(ids, orderTop + 1)
    requires copies == ChildCopies(Children(rows, idMap), MaxId(rows) + 1, idMap)
    ensures ChildTableCopied(rows, rows + copies, ids, orderTop)
  {
    MaxIdLargest(rows);
    PlacesAreSources(rows, ids, orderTop + 1);
    CopiesVerbatim(rows, copies, ids, orderTop, MaxId(rows));
  }

  // ---- the whole scenario --------------------------------------------------------------------

  /** The dataset with the copies appended, and one manifest entry per table. */
  function Duplicated(data: Dataset): Injected
    requires HasAllThree(data)
  {
    Injected(Appended(data, NewOrders(data), NewChildren(data, OrderItems), NewChildren(data, Payments)),
             Entries(OrderIdMap(data), ChildIdMap(data, OrderItems), ChildIdMap(data, Payments)))
  }

  method DuplicateAll(data: Dataset) returns (result: Injected)
    requires HasAllThree(data)
    ensures result == Duplicated(data)
  {
    var newOrders, idMap := CopyOrders(data[Orders], DuplicatedIds(data[Orders]), MaxId(data[Orders]) + 1);
    assert newOrders == NewOrders(data) && idMap == OrderIdMap(data);
    var newItems, itemIdMap := CopyChildren(data[OrderItems], idMap, MaxId(data[OrderItems]) + 1);
    assert newItems == NewChildren(data, OrderItems) && itemIdMap == ChildIdMap(data, OrderItems);
    var newPayments, paymentIdMap := CopyChildren(data[Payments], idMap, MaxId(data[Payments]) + 1);
    assert newPayments == NewChildren(data, Payments) && paymentIdMap == ChildIdMap(data, Payments);
    result := Injected(Appended(data, newOrders, newItems, newPayments), Entries(idMap, itemIdMap, paymentIdMap));
  }

  lemma {:induction false} DuplicatedIdsPresent(orders: seq<Row>)
    ensures forall id :: id in DuplicatedIds(orders) ==> IdKey(id) in ByKey(Orders, orders)
  {
    PresentIdsExact(orders, FIRST_DUPLICATE, LAST_DUPLICATE);
  }

  lemma {:induction false} CopiedTables(data: Dataset, sources: seq<int>, top: int, orders: seq<Row>, items: seq<Row>,
                                        payments: seq<Row>)
    requires HasAllThree(data) && SourceOrders(data[Orders], sources) && LargestId(data[Orders], top)
    requires OrdersAppended(data[Orders], data[Orders] + orders, sources, top)
    requires ChildTableCopied(data[OrderItems], data[OrderItems] + items, sources, top)
    requires ChildTableCopied(data[Payments], data[Payments] + payments, sources, top)
    ensures CopiesAppended(data, Appended(data, orders, items, payments))
  {
    AppendedTables(data, orders, items, payments);
  }

  lemma {:induction false} NewOrdersOf(orders: seq<Row>, ids: seq<int>, top: int, copies: seq<Row>)
    requires Identified(orders) && ids == DuplicatedIds(orders) && copies == OrderCopies(orders, ids, top + 1)
    ensures OrdersAppended(orders, orders + copies, ids, top)
  {
    DuplicatedIdsPresent(orders);
    NewOrdersAppended(orders, copies, ids, top);
  }

  lemma {:induction false} OrdersRowByRow(data: Dataset)
    requires HasAllThree(data) && Identified(data[Orders])
    ensures OrdersAppended(data[Orders], data[Orders] + NewOrders(data), DuplicatedIds(data[Orders]),
                           MaxId(data[Orders]))
  {
    NewOrdersOf(data[Orders], DuplicatedIds(data[Orders]), MaxId(data[Orders]), NewOrders(data));
  }

  lemma {:induction false} ChildrenRowByRow(data: Dataset, table: Table)
    requires HasAllThree(data) && table in data && data[table] != []
    requires forall i :: 0 <= i < |data[table]| ==> IsChild(data[table][i])
    ensures ChildTableCopied(data[table], data[table] + NewChildren(data, table), DuplicatedIds(data[Orders]),
                             MaxId(data[Orders]))
  {
    NewChildrenAppended(data[table], NewChildren(data, table), OrderIdMap(data), DuplicatedIds(data[Orders]),
                        MaxId(data[Orders]));
  }

  lemma {:induction false} DuplicatedRowByRow(data: Dataset)
    requires Schema(data) && HasAllThree(data)
    ensures CopiesAppended(data, Duplicated(data).mutated)
  {
    OrdersNumbered(data);
    OrdersRowByRow(data);
    ChildrenRowByRow(data, OrderItems);
    ChildrenRowByRow(data, Payments);
    CopiedTables(data, DuplicatedIds(data[Orders]), MaxId(data[Orders]), NewOrders(data), NewChildren(data, OrderItems),
                 NewChildren(data, Payments));
  }

  /** A range that names no order, and an empty child table, are errors; otherwise the copies are appended. */
  method InjectDuplicates(data: Dataset) returns (result: Result<Injected, InjectError>)
    requires Schema(data)
    ensures result == Err(NoOrdersInRange) <==> DuplicatedIds(data[Orders]) == []
    ensures result == Err(EmptyChildTable)
            <==> DuplicatedIds(data[Orders]) != [] && (data[OrderItems] == [] || data[Payments] == [])
    ensures result != Err(EmptySnapshots)
    ensures result.Ok? ==> HasAllThree(data) && result.value == Duplicated(data)
    ensures result.Ok? ==> CopiesAppended(data, result.value.mutated) && CopiesListed(data, result.value.injections)
  {
    if DuplicatedIds(data[Orders]) == [] { return Err(NoOrdersInRange); }
    SomeOrderIsThere(data[Orders]);
    if data[OrderItems] == [] || data[Payments] == [] { return Err(EmptyChildTable); }
    var duplicated := DuplicateAll(data);
    DuplicatedRowByRow(data);
    ManifestEntries(data);
    result := Ok(duplicated);
  }

  lemma {:induction false} SomeOrderIsThere(orders: seq<Row>)
    requires DuplicatedIds(orders) != []
    ensures orders != []
  {
    PresentIdsExact(orders, FIRST_DUPLICATE, LAST_DUPLICATE);
    assert DuplicatedIds(orders)[0] in DuplicatedIds(orders);
  }

  // ---- what a duplication adds ---------------------------------------------------------------

  /** The keys of `n` rows numbered from `next`. */
  function FreshKeys(next: int, n: nat): set<Key> {
    if n == 0 then {} else FreshKeys(next, n - 1) + {IdKey(next + n - 1)}
  }

  lemma {:induction false} InFreshKeys(next: int, n: nat, id: int)
    ensures IdKey(id) in FreshKeys(next, n) <==> next <= id < next + n
  {
    if n > 0 {
      assert IdKey(id)[0] == Number(id) && IdKey(next + n - 1)[0] == Number(next + n - 1);
      InFreshKeys(next, n - 1, id);
    }
  }

  predicate Numbered(copies: seq<Row>, next: int) {
    forall j :: 0 <= j < |copies| ==> HasId(copies[j]) && Id(copies[j]) == next + j
  }

  lemma {:induction false} FreshKeyIndex(next: int, n: nat, k: Key) returns (j: nat)
    requires k in FreshKeys(next, n)
    ensures j < n && k == IdKey(next + j)
  {
    if k == IdKey(next + n - 1) { j := n - 1; } else { j := FreshKeyIndex(next, n - 1, k); }
  }

  lemma {:induction false} KeysOfNumbered(table: Table, copies: seq<Row>, next: int)
    requires KeyWidth(table) == 1 && Numbered(copies, next)
    ensures KeysOf(table, copies) == FreshKeys(next, |copies|)
  {
    forall k | k in KeysOf(table, copies) ensures k in FreshKeys(next, |copies|) {
      var j :| 0 <= j < |copies| && KeyOf(table, copies[j]) == k;
      KeyIsId(table, copies[j]);
      InFreshKeys(next, |copies|, next + j);
    }
    forall k | k in FreshKeys(next, |copies|) ensures k in KeysOf(table, copies) {
      var j := FreshKeyIndex(next, |copies|, k);
      KeyIsId(table, copies[j]);
      assert copies[j] in copies;
    }
  }

  /** Rows numbered from one past the largest id are added under exactly those ids, and disturb nothing. */
  lemma {:induction false} NumberedDiff(table: Table, rows: seq<Row>, copies: seq<Row>)
    requires KeyWidth(table) == 1 && rows != [] && forall i :: 0 <= i < |rows| ==> HasId(rows[i])
    requires Numbered(copies, MaxId(rows) + 1)
    ensures DiffOf(table, rows, rows + copies) == TableDiff(FreshKeys(MaxId(rows) + 1, |copies|), {}, {})
  {
    KeysOfNumbered(table, copies, MaxId(rows) + 1);
    forall k | k in KeysOf(table, rows) ensures k !in FreshKeys(MaxId(rows) + 1, |copies|) {
      var i :| 0 <= i < |rows| && KeyOf(table, rows[i]) == k;
      MaxIdIsLargest(rows, i);
      assert k == IdKey(Id(rows[i]));
      InFreshKeys(MaxId(rows) + 1, |copies|, Id(rows[i]));
    }
    AppendDiff(table, rows, copies);
  }

  /** No primary key collides: unique keys stay unique. */
  lemma {:induction false} NumberedKeepsUnique(table: Table, rows: seq<Row>, copies: seq<Row>)
    requires KeyWidth(table) == 1 && rows != [] && forall i :: 0 <= i < |rows| ==> HasId(rows[i])
    requires Numbered(copies, MaxId(rows) + 1) && UniqueKeys(table, rows)
    ensures UniqueKeys(table, rows + copies)
  {
    var all := rows + copies;
    forall i, j | 0 <= i < j < |all| ensures KeyOf(table, all[i]) != KeyOf(table, all[j]) {
      assert KeyOf(table, all[i])[0] == all[i][0] && KeyOf(table, all[j])[0] == all[j][0];
      if i < |rows| <= j {
        MaxIdIsLargest(rows, i);
        assert all[j] == copies[j - |rows|] && all[i] == rows[i];
      } else if j < |rows| {
        assert all[i] == rows[i] && all[j] == rows[j];
      } else {
        assert all[i] == copies[i - |rows|] && all[j] == copies[j - |rows|];
      }
    }
  }

  /** Only fresh ids are listed. */
  lemma {:induction false} ListedAreFresh(ids: seq<int>, next: int)
    ensures NewRowIds(IdMap(ids, next)) <= FreshKeys(next, |ids|)
  {
    forall k | k in NewRowIds(IdMap(ids, next)) ensures k in FreshKeys(next, |ids|) {
      var id :| id in IdMap(ids, next) && k == IdKey(IdMap(ids, next)[id]);
      IdMapEntry(ids, next, id);
      InFreshKeys(next, |ids|, IdMap(ids, next)[id]);
    }
  }

  /** A fresh id is listed exactly when it is the last copy of its source id. */
  lemma {:induction false} ListedIsLast(ids: seq<int>, next: int, j: nat)
    requires j < |ids|
    ensures IdKey(next + j) in NewRowIds(IdMap(ids, next)) <==> forall q :: j < q < |ids| ==> ids[q] != ids[j]
  {
    var index := IdMap(ids, next);
    if IdKey(next + j) in NewRowIds(index) {
      var id :| id in index && IdKey(index[id]) == IdKey(next + j);
      assert IdKey(index[id])[0] == Number(index[id]) && IdKey(next + j)[0] == Number(next + j);
      IdMapEntry(ids, next, id);
    } else {
      IdMapEntry(ids, next, ids[j]);
      assert index[ids[j]] != next + j;
    }
  }

  /** All fresh ids are listed exactly when no source id repeats. */
  lemma {:induction false} AllListedExactly(ids: seq<int>, next: int)
    ensures FreshKeys(next, |ids|) <= NewRowIds(IdMap(ids, next)) <==> Distinct(ids)
  {
    var listed, added := NewRowIds(IdMap(ids, next)), FreshKeys(next, |ids|);
    if Distinct(ids) {
      forall k | k in added ensures k in listed {
        var j := FreshKeyIndex(next, |ids|, k);
        ListedIsLast(ids, next, j);
      }
    } else {
      var i, j :| 0 <= i < j < |ids| && ids[i] == ids[j];
      ListedIsLast(ids, next, i);
      InFreshKeys(next, |ids|, next + i);
    }
  }

  /** A key is listed when it is the number of the last copy of its source id. */
  lemma {:induction false} ListedByNumber(ids: seq<int>, next: int, k: Key)
    ensures k in NewRowIds(IdMap(ids, next)) <==>
            && |k| == 1 && k[0].Number? && next <= k[0].number < next + |ids|
            && forall q :: k[0].number - next < q < |ids| ==> ids[q] != ids[k[0].number - next]
  {
    if k in NewRowIds(IdMap(ids, next)) {
      ListedAreFresh(ids, next);
      var j := FreshKeyIndex(next, |ids|, k);
      ListedIsLast(ids, next, j);
    }
    if |k| == 1 && k[0].Number? && next <= k[0].number < next + |ids| {
      ListedIsLast(ids, next, k[0].number - next);
      assert k == IdKey(k[0].number);
    }
  }

  lemma {:induction false} OrderEntry(ids: seq<int>, top: int, listed: set<Key>)
    requires Ascends(ids) && listed == NewRowIds(IdMap(ids, top + 1))
    ensures OrdersListed(Injection(Duplicates, Orders, {}, listed), ids, top)
  {
    forall k: Key
      ensures k in listed <==> |k| == 1 && k[0].Number? && top < k[0].number <= top + |ids|
    {
      ListedByNumber(ids, top + 1, k);
    }
  }

  /** The rows at `at` have these ids. */
  predicate IdsAt(rows: seq<Row>, at: seq<nat>, ids: seq<int>) {
    |at| == |ids| && forall c :: 0 <= c < |at| ==> at[c] < |rows| && HasNumber(rows[at[c]], 0, ids[c])
  }

  lemma {:induction false} LastById(rows: seq<Row>, at: seq<nat>, ids: seq<int>, c: nat)
    requires IdsAt(rows, at, ids) && c < |ids|
    ensures LastOfItsId(rows, at, c) <==> forall q :: c < q < |ids| ==> ids[q] != ids[c]
  {
    assert forall q :: 0 <= q < |ids| ==> rows[at[q]][0] == Number(ids[q]);
  }

  lemma {:induction false} LastCopiesOf(rows: seq<Row>, at: seq<nat>, ids: seq<int>, top: int, listed: set<Key>)
    requires IdsAt(rows, at, ids) && listed == NewRowIds(IdMap(ids, top + 1))
    ensures LastCopies(rows, at, top, listed)
  {
    forall k: Key
      ensures k in listed <==>
          |k| == 1 && k[0].Number? && k[0].number > top && LastOfItsId(rows, at, k[0].number - top - 1)
    {
      ListedByNumber(ids, top + 1, k);
      if |k| == 1 && k[0].Number? && top < k[0].number <= top + |ids| {
        LastById(rows, at, ids, k[0].number - top - 1);
      }
    }
  }

  lemma {:induction false} ChildEntry(table: Table, rows: seq<Row>, at: seq<nat>, ids: seq<int>, top: int,
                                      sources: seq<int>, listed: set<Key>)
    requires LargestId(rows, top) && RowsOfOrders(rows, sources, at) && IdsAt(rows, at, ids)
    requires listed == NewRowIds(IdMap(ids, top + 1))
    ensures ChildrenListed(Injection(Duplicates, table, {}, listed), table, rows, sources)
  {
    LastCopiesOf(rows, at, ids, top, listed);
  }

  lemma {:induction false} ChildIdsAt(rows: seq<Row>, idMap: map<int, int>)
    requires forall i :: 0 <= i < |rows| ==> IsChild(rows[i])
    ensures IdsAt(rows, ChildPlaces(rows, |rows|, idMap), Ids(Children(rows, idMap)))
  {
    ChildrenAtPlaces(rows, |rows|, idMap);
  }

  lemma {:induction false} ChildEntryOf(data: Dataset, table: Table)
    requires HasAllThree(data) && table in data && data[table] != []
    requires forall i :: 0 <= i < |data[table]| ==> IsChild(data[table][i])
    ensures ChildrenListed(Injection(Duplicates, table, {}, NewRowIds(ChildIdMap(data, table))), table, data[table],
                           DuplicatedIds(data[Orders]))
  {
    MaxIdLargest(data[table]);
    PlacesAreSources(data[table], DuplicatedIds(data[Orders]), MaxId(data[Orders]) + 1);
    ChildIdsAt(data[table], OrderIdMap(data));
    ChildEntry(table, data[table], ChildPlaces(data[table], |data[table]|, OrderIdMap(data)), Ids(Copied(data, table)),
               MaxId(data[table]), DuplicatedIds(data[Orders]), NewRowIds(ChildIdMap(data, table)));
  }

  lemma {:induction false} ListsCopies(data: Dataset, sources: seq<int>, top: int, orderIds: map<int, int>,
                                       itemIds: map<int, int>, paymentIds: map<int, int>)
    requires HasAllThree(data) && SourceOrders(data[Orders], sources) && LargestId(data[Orders], top)
    requires OrdersListed(Injection(Duplicates, Orders, {}, NewRowIds(orderIds)), sources, top)
    requires ChildrenListed(Injection(Duplicates, OrderItems, {}, NewRowIds(itemIds)), OrderItems, data[OrderItems],
                            sources)
    requires ChildrenListed(Injection(Duplicates, Payments, {}, NewRowIds(paymentIds)), Payments, data[Payments],
                            sources)
    ensures CopiesListed(data, Entries(orderIds, itemIds, paymentIds))
  {
  }

  lemma {:induction false} OrdersNumbered(data: Dataset)
    requires Schema(data) && HasAllThree(data)
    ensures Identified(data[Orders])
    ensures SourceOrders(data[Orders], DuplicatedIds(data[Orders])) && LargestId(data[Orders], MaxId(data[Orders]))
  {
    forall i | 0 <= i < |data[Orders]| ensures HasId(data[Orders][i]) { assert IsOrder(data[Orders][i]); }
    SourcesAreOrders(data[Orders]);
    MaxIdLargest(data[Orders]);
  }

  /** The manifest of the scenario, entry by entry. */
  lemma {:induction false} ManifestEntries(data: Dataset)
    requires Schema(data) && HasAllThree(data)
    ensures CopiesListed(data, Duplicated(data).injections)
  {
    OrdersNumbered(data);
    OrderEntry(DuplicatedIds(data[Orders]), MaxId(data[Orders]), NewRowIds(OrderIdMap(data)));
    ChildEntryOf(data, OrderItems);
    ChildEntryOf(data, Payments);
    ListsCopies(data, DuplicatedIds(data[Orders]), MaxId(data[Orders]), OrderIdMap(data), ChildIdMap(data, OrderItems),
                ChildIdMap(data, Payments));
  }

  // ---- the scenario's footprint --------------------------------------------------------------

  predicate Identified(rows: seq<Row>) { forall i :: 0 <= i < |rows| ==> HasId(rows[i]) }

  /** A diff that only adds, and adds at least the given keys. */
  predicate OnlyAdds(diff: TableDiff, ids: set<Key>) { diff.removed == {} && diff.changed == {} && ids <= diff.added }

  /** Numbered copies are added under fresh ids; an id map over `ids` lists them all exactly when no id repeats. */
  lemma {:induction false} NumberedDeclaredExactly(table: Table, rows: seq<Row>, copies: seq<Row>, ids: seq<int>)
    requires KeyWidth(table) == 1 && rows != [] && Identified(rows)
    requires Numbered(copies, MaxId(rows) + 1) && |copies| == |ids|
    ensures OnlyAdds(DiffOf(table, rows, rows + copies), NewRowIds(IdMap(ids, MaxId(rows) + 1)))
    ensures DiffOf(table, rows, rows + copies).added <= NewRowIds(IdMap(ids, MaxId(rows) + 1)) <==> Distinct(ids)
  {
    NumberedDiff(table, rows, copies);
    ListedAreFresh(ids, MaxId(rows) + 1);
    AllListedExactly(ids, MaxId(rows) + 1);
  }

  lemma {:induction false} OrderCopiesNumbered(orders: seq<Row>, ids: seq<int>, next: int)
    ensures Numbered(OrderCopies(orders, ids, next), next)
  {
    forall j | 0 <= j < |ids|
        ensures HasId(OrderCopies(orders, ids, next)[j]) && Id(OrderCopies(orders, ids, next)[j]) == next + j {
      OrderCopyAt(orders, ids, next, j);
    }
  }

  lemma {:induction false} OrderCopiesDeclared(orders: seq<Row>, ids: seq<int>)
    requires orders != [] && Identified(orders) && Distinct(ids)
    ensures var next := MaxId(orders) + 1;
            var diff := DiffOf(Orders, orders, orders + OrderCopies(orders, ids, next));
            OnlyAdds(diff, NewRowIds(IdMap(ids, next))) && diff.added <= NewRowIds(IdMap(ids, next))
  {
    OrderCopiesNumbered(orders, ids, MaxId(orders) + 1);
    NumberedDeclaredExactly(Orders, orders, OrderCopies(orders, ids, MaxId(orders) + 1), ids);
  }

  /** The new orders are added under exactly the declared ids, all fresh, and nothing else in the table changes. */
  lemma {:induction false} OrdersDeclaredExactly(data: Dataset)
    requires Orders in data && data[Orders] != [] && Identified(data[Orders])
    ensures OnlyAdds(DiffOf(Orders, data[Orders], data[Orders] + NewOrders(data)), NewRowIds(OrderIdMap(data)))
    ensures DiffOf(Orders, data[Orders], data[Orders] + NewOrders(data)).added <= NewRowIds(OrderIdMap(data))
  {
    var orders, ids, next := data[Orders], DuplicatedIds(data[Orders]), MaxId(data[Orders]) + 1;
    assert NewOrders(data) == OrderCopies(orders, ids, next) && OrderIdMap(data) == IdMap(ids, next);
    DuplicatedIdsDistinct(orders);
    OrderCopiesDeclared(orders, ids);
  }

  lemma {:induction false} NewChildrenNumbered(data: Dataset, table: Table)
    requires Orders in data && data[Orders] != [] && table in data && data[table] != []
    ensures Numbered(NewChildren(data, table), MaxId(data[table]) + 1)
  {
    var next := MaxId(data[table]) + 1;
    forall j | 0 <= j < |NewChildren(data, table)|
        ensures HasId(NewChildren(data, table)[j]) && Id(NewChildren(data, table)[j]) == next + j {
      ChildCopyAt(Copied(data, table), next, OrderIdMap(data), j);
    }
  }

  /**
   * The new children are added under fresh ids; the declared ones are all of them exactly when no source id
   * repeats.
   */
  lemma {:induction false} ChildrenDeclaredExactly(data: Dataset, table: Table)
    requires Orders in data && data[Orders] != [] && table in data && data[table] != []
    requires KeyWidth(table) == 1 && Identified(data[table])
    ensures var diff := DiffOf(table, data[table], data[table] + NewChildren(data, table));
            var listed := NewRowIds(ChildIdMap(data, table));
            OnlyAdds(diff, listed) && (diff.added <= listed <==> Distinct(Ids(Copied(data, table))))
  {
    NewChildrenNumbered(data, table);
    NumberedDeclaredExactly(table, data[table], NewChildren(data, table), Ids(Copied(data, table)));
  }

  /** The `j`-th new order: its id, and the rest of the order it copies. */
  lemma {:induction false} NewOrderAt(data: Dataset, j: nat)
    requires Orders in data && data[Orders] != [] && j < |NewOrders(data)|
    ensures Id(NewOrders(data)[j]) == MaxId(data[Orders]) + 1 + j
    ensures From(NewOrders(data)[j], 1) == From(OrderById(data[Orders], DuplicatedIds(data[Orders])[j]), 1)
  {
    var ids, next := DuplicatedIds(data[Orders]), MaxId(data[Orders]) + 1;
    OrderCopyAt(data[Orders], ids, next, j);
    assert From(CopyOrder(OrderById(data[Orders], ids[j]), next + j), 1) == From(OrderById(data[Orders], ids[j]), 1);
  }

  /** The place of an order in the id map. */
  lemma {:induction false} OrderPlace(data: Dataset, order: int) returns (j: nat)
    requires Orders in data && data[Orders] != [] && order in OrderIdMap(data)
    ensures j < |DuplicatedIds(data[Orders])| && DuplicatedIds(data[Orders])[j] == order
    ensures OrderIdMap(data)[order] == MaxId(data[Orders]) + 1 + j
  {
    var ids, next := DuplicatedIds(data[Orders]), MaxId(data[Orders]) + 1;
    assert OrderIdMap(data) == IdMap(ids, next);
    j := IdMapPlace(ids, next, order);
  }

  lemma {:induction false} ChildCopyOrder(children: seq<Row>, next: int, idMap: map<int, int>, c: nat)
    requires c < |children| && OrderOf(children[c]) in idMap
    ensures OrderOf(ChildCopies(children, next, idMap)[c]) == idMap[OrderOf(children[c])]
  {
    ChildCopyAt(children, next, idMap, c);
    assert CopyChild(children[c], next + c, idMap)[1] == Number(idMap[OrderOf(children[c])]);
  }

  /** A copied child carries its original's order, mapped. */
  lemma {:induction false} NewChildOrder(data: Dataset, table: Table, c: nat)
    requires Orders in data && data[Orders] != [] && table in data && data[table] != []
    requires c < |NewChildren(data, table)|
    ensures OrderOf(Copied(data, table)[c]) in OrderIdMap(data)
    ensures OrderOf(NewChildren(data, table)[c]) == OrderIdMap(data)[OrderOf(Copied(data, table)[c])]
  {
    var children, next, idMap := Copied(data, table), MaxId(data[table]) + 1, OrderIdMap(data);
    assert NewChildren(data, table) == ChildCopies(children, next, idMap);
    var i := ChildOrigin(data[table], |data[table]|, idMap, c);
    ChildCopyOrder(children, next, idMap, c);
  }

  /** Every copied child belongs to the copy of its original's order. */
  lemma {:induction false} ChildrenFollowTheirOrders(data: Dataset, table: Table, c: nat) returns (j: nat)
    requires Orders in data && data[Orders] != [] && table in data && data[table] != []
    requires c < |NewChildren(data, table)|
    ensures j < |NewOrders(data)| && Id(NewOrders(data)[j]) == OrderOf(NewChildren(data, table)[c])
    ensures From(NewOrders(data)[j], 1) == From(OrderById(data[Orders], OrderOf(Copied(data, table)[c])), 1)
  {
    NewChildOrder(data, table, c);
    j := OrderPlace(data, OrderOf(Copied(data, table)[c]));
    NewOrderAt(data, j);
  }

  lemma {:induction false} AllowedByEntry(orderIds: map<int, int>, itemIds: map<int, int>, paymentIds: map<int, int>)
    ensures var entries := Entries(orderIds, itemIds, paymentIds);
            && DeclaresTable(entries, Orders) && Allowed(entries, Orders) == NewRowIds(orderIds)
            && DeclaresTable(entries, OrderItems) && Allowed(entries, OrderItems) == NewRowIds(itemIds)
            && DeclaresTable(entries, Payments) && Allowed(entries, Payments) == NewRowIds(paymentIds)
  {
    var entries := Entries(orderIds, itemIds, paymentIds);
    assert entries[0] in entries && entries[1] in entries && entries[2] in entries;
    forall table: Table
      ensures Allowed(entries, table) == (if table == Orders then NewRowIds(orderIds) else {})
                + ((if table == OrderItems then NewRowIds(itemIds) else {})
                   + (if table == Payments then NewRowIds(paymentIds) else {}))
    {
      assert entries[1..][1..] == [entries[2]] && entries[1..][0] == entries[1];
      assert Allowed([entries[2]], table) == (if table == Payments then NewRowIds(paymentIds) else {});
    }
  }

  lemma {:induction false} AppendedTables(data: Dataset, orders: seq<Row>, items: seq<Row>, payments: seq<Row>)
    requires Orders in data && OrderItems in data && Payments in data
    ensures var mutated := Appended(data, orders, items, payments);
            && mutated.Keys == data.Keys
            && mutated[Orders] == data[Orders] + orders
            && mutated[OrderItems] == data[OrderItems] + items
            && mutated[Payments] == data[Payments] + payments
            && forall other :: other in data && other != Orders && other != OrderItems && other != Payments ==>
                mutated[other] == data[other]
  {
  }

  /** Appending to three tables stays declared exactly when each table's additions are declared. */
  lemma {:induction false} ThreeTablesDeclared(data: Dataset, orders: seq<Row>, items: seq<Row>, payments: seq<Row>,
                                               orderIds: map<int, int>, itemIds: map<int, int>,
                                               paymentIds: map<int, int>)
    requires Orders in data && OrderItems in data && Payments in data
    requires OnlyAdds(DiffOf(Orders, data[Orders], data[Orders] + orders), NewRowIds(orderIds))
    requires OnlyAdds(DiffOf(OrderItems, data[OrderItems], data[OrderItems] + items), NewRowIds(itemIds))
    requires OnlyAdds(DiffOf(Payments, data[Payments], data[Payments] + payments), NewRowIds(paymentIds))
    ensures StaysDeclared(data,
        Injected(Appended(data, orders, items, payments), Entries(orderIds, itemIds, paymentIds)))
            <==> && DiffOf(Orders, data[Orders], data[Orders] + orders).added <= NewRowIds(orderIds)
                 && DiffOf(OrderItems, data[OrderItems], data[OrderItems] + items).added <= NewRowIds(itemIds)
                 && DiffOf(Payments, data[Payments], data[Payments] + payments).added <= NewRowIds(paymentIds)
  {
    var entries := Entries(orderIds, itemIds, paymentIds);
    var mutated := Appended(data, orders, items, payments);
    AppendedTables(data, orders, items, payments);
    AllowedByEntry(orderIds, itemIds, paymentIds);
    AdditionsDeclared(Orders, data[Orders], mutated[Orders], entries);
    AdditionsDeclared(OrderItems, data[OrderItems], mutated[OrderItems], entries);
    AdditionsDeclared(Payments, data[Payments], mutated[Payments], entries);
    forall other | other in data && other != Orders && other != OrderItems && other != Payments
      ensures TableDeclared(other, data[other], mutated[other], entries)
    {
      UnchangedTableDeclared(other, data[other], entries);
    }
  }

  lemma {:induction false} AdditionsDeclared(table: Table, before: seq<Row>, after: seq<Row>, entries: seq<Injection>)
    requires var diff := DiffOf(table, before, after); diff.removed == {} && diff.changed == {}
    requires DeclaresTable(entries, table)
    ensures TableDeclared(table, before, after, entries)
        <==> DiffOf(table, before, after).added <= Allowed(entries, table)
  {
    assert Touched(DiffOf(table, before, after)) == DiffOf(table, before, after).added;
  }

  /**
   * The scenario stays within its manifest exactly when no two copied items share an id and no two
   * copied payments do: a repeated id loses an entry of its id map, whose values are all that is declared.
   */
  lemma {:induction false} DuplicatesStayDeclaredExactly(data: Dataset)
    requires HasAllThree(data) && Identified(data[Orders]) && Identified(data[OrderItems]) && Identified(data[Payments])
    ensures StaysDeclared(data, Duplicated(data))
            <==> Distinct(Ids(Copied(data, OrderItems))) && Distinct(Ids(Copied(data, Payments)))
  {
    OrdersDeclaredExactly(data);
    ChildrenDeclaredExactly(data, OrderItems);
    ChildrenDeclaredExactly(data, Payments);
    ThreeTablesDeclared(data, NewOrders(data), NewChildren(data, OrderItems), NewChildren(data, Payments),
                        OrderIdMap(data), ChildIdMap(data, OrderItems), ChildIdMap(data, Payments));
  }

  const ONE_ORDER: seq<Row> :=
    [[Number(1000), Null, Null, Number(500), Null, Moment(20260101, 0), Null, Null]]
  const TWO_ITEMS: seq<Row> :=
    [[Number(7), Number(1000), Null, Null, Null, Null], [Number(7), Number(1000), Null, Null, Null, Null]]
  const ONE_PAYMENT: seq<Row> :=
    [[Number(1), Number(1000), Null, Null, Null, Null, Null]]

  /** One order in the range, with two items under one id; every other table is empty. */
  predicate RepeatsItem(data: Dataset) {
    && (forall table :: table in TABLE_ORDER ==> table in data)
    && Orders in data && data[Orders] == ONE_ORDER
    && OrderItems in data && data[OrderItems] == TWO_ITEMS
    && Payments in data && data[Payments] == ONE_PAYMENT
    && SubscriptionSnapshots in data && data[SubscriptionSnapshots] == []
    && FxRates in data && data[FxRates] == []
  }

  lemma {:induction false} RepeatedItem() returns (data: Dataset)
    ensures RepeatsItem(data) && Schema(data)
  {
    var empty: Dataset := map table | table in TABLE_ORDER :: [];
    EveryTableIsOrdered(SubscriptionSnapshots);
    EveryTableIsOrdered(FxRates);
    data := empty[Orders := ONE_ORDER][OrderItems := TWO_ITEMS][Payments := ONE_PAYMENT];
  }

  /** Both items are copied, under one source id. */
  lemma {:induction false} BothItemsCopied(items: seq<Row>, idMap: map<int, int>)
    requires items == TWO_ITEMS && 1000 in idMap
    ensures !Distinct(Ids(Children(items, idMap)))
  {
    assert OrderOf(items[0]) == 1000 == OrderOf(items[1]);
    assert ChildrenUpTo(items, 1, idMap) == [items[0]];
    assert Children(items, idMap) == [items[0], items[1]];
    assert Ids(Children(items, idMap))[0] == Ids(Children(items, idMap))[1];
  }

  /** Without unique item ids the scenario adds an item it does not declare. */
  lemma {:induction false} RepeatedItemEscapes() returns (data: Dataset)
    ensures Schema(data) && HasAllThree(data) && UniqueKeys(Orders, data[Orders])
    ensures !StaysDeclared(data, Duplicated(data))
  {
    data := RepeatedItem();
    OrderIsCopied(data);
    BothItemsCopied(data[OrderItems], OrderIdMap(data));
    DuplicatesStayDeclaredExactly(data);
  }

  /** An order whose id is in the range is in the id map. */
  lemma {:induction false} OrderIsCopied(data: Dataset)
    requires Orders in data && |data[Orders]| == 1 && HasId(data[Orders][0])
    requires FIRST_DUPLICATE <= Id(data[Orders][0]) <= LAST_DUPLICATE
    ensures Id(data[Orders][0]) in OrderIdMap(data)
  {
    var orders := data[Orders];
    IndexEntries(Orders, orders);
    KeyIsId(Orders, orders[0]);
    PresentIdsExact(orders, FIRST_DUPLICATE, LAST_DUPLICATE);
    IdMapEntry(DuplicatedIds(orders), MaxId(orders) + 1, Id(orders[0]));
  }

  /** Unique keys leave no repeated id, so the scenario stays within its manifest. */
  lemma {:induction false} UniqueKeysStayDeclared(data: Dataset)
    requires HasAllThree(data) && Identified(data[Orders]) && Identified(data[OrderItems]) && Identified(data[Payments])
    requires UniqueKeys(OrderItems, data[OrderItems]) && UniqueKeys(Payments, data[Payments])
    ensures StaysDeclared(data, Duplicated(data))
  {
    UniqueKeysDistinctIds(OrderItems, data[OrderItems], |data[OrderItems]|, OrderIdMap(data));
    UniqueKeysDistinctIds(Payments, data[Payments], |data[Payments]|, OrderIdMap(data));
    DuplicatesStayDeclaredExactly(data);
  }

  /** No copy collides with a primary key: unique keys stay unique. */
  lemma {:induction false} NewChildrenKeepUnique(data: Dataset, table: Table)
    requires Orders in data && data[Orders] != [] && table in data && data[table] != []
    requires KeyWidth(table) == 1 && Identified(data[table]) && UniqueKeys(table, data[table])
    ensures UniqueKeys(table, data[table] + NewChildren(data, table))
  {
    NewChildrenNumbered(data, table);
    NumberedKeepsUnique(table, data[table], NewChildren(data, table));
  }

  lemma {:induction false} DistinctSnoc(s: seq<int>, x: int)
    requires Distinct(s) && x !in s
    ensures Distinct(s + [x])
  {
  }

  /** With unique keys no earlier child shares a row's id. */
  lemma {:induction false} LastIdIsNew(table: Table, rows: seq<Row>, n: nat, idMap: map<int, int>)
    requires KeyWidth(table) == 1 && Identified(rows) && UniqueKeys(table, rows) && n < |rows|
    ensures Id(rows[n]) !in Ids(ChildrenUpTo(rows, n, idMap))
  {
    var children := ChildrenUpTo(rows, n, idMap);
    forall c | 0 <= c < |children| ensures Id(children[c]) != Id(rows[n]) {
      var i := ChildOrigin(rows, n, idMap, c);
      KeyIsId(table, rows[i]);
      KeyIsId(table, rows[n]);
    }
  }

  lemma {:induction false} UniqueKeysDistinctIds(table: Table, rows: seq<Row>, n: nat, idMap: map<int, int>)
    requires KeyWidth(table) == 1 && Identified(rows) && UniqueKeys(table, rows) && n <= |rows|
    ensures Distinct(Ids(ChildrenUpTo(rows, n, idMap)))
  {
    if n > 0 {
      UniqueKeysDistinctIds(table, rows, n - 1, idMap);
      LastIdIsNew(table, rows, n - 1, idMap);
      if OrderOf(rows[n - 1]) in idMap {
        DistinctSnoc(Ids(ChildrenUpTo(rows, n - 1, idMap)), Id(rows[n - 1]));
        assert Ids(ChildrenUpTo(rows, n, idMap)) == Ids(ChildrenUpTo(rows, n - 1, idMap)) + [Id(rows[n - 1])];
      }
    }
  }
}
