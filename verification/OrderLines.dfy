/**
 * Order lines that add up to the cent
 * (examples/driftwood-wren/generate.py, `build_reconciled_items` and `finalize_order`).
 * Money is in integer cents; the random draws are arbitrary values, and a line's share of the
 * total is the exact rational weight over the sum of the weights.
 */
module OrderLines {
  import opened Prelude

  /** What the generator draws for one line: product, quantity, weight and (middle lines) a discount. */
  datatype Draw = Draw(product: int, qty: int, weight: int, discount: int)

  datatype Line = Line(itemId: int, orderId: int, product: int, qty: int, unitPrice: int, discount: int)

  function LineTotal(line: Line): int { line.unitPrice * line.qty - line.discount }

  function LinesTotal(rows: seq<Line>): int {
    if rows == [] then 0 else LinesTotal(rows[..|rows| - 1]) + LineTotal(rows[|rows| - 1])
  }

  // ---- rounding ------------------------------------------------------------------------------

  /** `num / den` to the nearest integer, halves away from zero: `ROUND_HALF_UP`. */
  function RoundHalfUp(num: int, den: int): int
    requires den > 0
  {
    if num >= 0 then (2 * num + den) / (2 * den) else -((-2 * num + den) / (2 * den))
  }

  lemma {:induction false} DivisionBounds(a: int, b: int)
    requires b > 0
    ensures b * (a / b) <= a < b * (a / b) + b
  {
  }

  /** Multiplication by a positive number keeps order. */
  lemma {:induction false} ScaleOrder(d: int, a: int, b: int)
    requires d >= 0
    ensures a <= b ==> d * a <= d * b
  {
  }

  /** Rounding moves a quotient by at most half, halves away from zero, and is positive exactly from one half up. */
  lemma {:induction false} RoundingIsClose(num: int, den: int)
    requires den > 0
    ensures var r := RoundHalfUp(num, den);
            && 2 * num - den <= 2 * (den * r) <= 2 * num + den
            && (r > 0 <==> 2 * num >= den) && (num < 0 ==> 2 * (den * r) < 2 * num + den)
            && (num >= 0 ==> 2 * num - den < 2 * (den * r))
  {
    if num >= 0 { RoundingUp(num, den); } else { RoundingUp(-num, den); }
    var r := RoundHalfUp(num, den);
    assert den * (-r) == -(den * r);
    ScaleOrder(den, 1, r);
    ScaleOrder(den, r, 0);
  }

  lemma {:induction false} RoundingUp(num: int, den: int)
    requires den > 0 && num >= 0
    ensures var r := (2 * num + den) / (2 * den); 2 * num - den < 2 * (den * r) <= 2 * num + den
  {
    var r := (2 * num + den) / (2 * den);
    DivisionBounds(2 * num + den, 2 * den);
    assert (2 * den) * r == 2 * (den * r);
  }

  // ---- the last line -------------------------------------------------------------------------

  /**
   * The slack line. It meets the remainder exactly for any remainder; the correction loop, capped
   * at 200 tries, never runs more than once; the discount is never negative, and for a positive
   * remainder it is less than one cent per unit.
   */
  method LastLine(remainder: int, qty: int) returns (unitPrice: int, discount: int, tries: nat)
    requires qty >= 1
    ensures unitPrice * qty - discount == remainder
    ensures tries <= 1
    ensures unitPrice >= 1 && discount >= 0
    ensures remainder > 0 ==> discount <= qty - 1
    ensures unitPrice == Max(1, RoundHalfUp(remainder, qty)) + tries
    ensures tries == 1 <==> Max(1, RoundHalfUp(remainder, qty)) * qty < remainder
  {
    RoundingIsClose(remainder, qty);
    unitPrice := RoundHalfUp(remainder, qty);
    if unitPrice <= 0 { unitPrice := 1; }
    discount := unitPrice * qty - remainder;
    tries := 0;
    ghost var start := unitPrice;
    assert qty * RoundHalfUp(remainder, qty) == RoundHalfUp(remainder, qty) * qty;
    while discount < 0 && tries < 200
      invariant tries <= 1 && unitPrice == start + tries
      invariant discount == unitPrice * qty - remainder
      invariant tries == 0 ==> 2 * discount >= -qty
      invariant tries == 1 ==> start * qty < remainder && 0 <= discount < qty
      decreases 200 - tries
    {
      assert (unitPrice + 1) * qty == unitPrice * qty + qty;
      unitPrice := unitPrice + 1;
      discount := unitPrice * qty - remainder;
      tries := tries + 1;
    }
  }

  // ---- the other lines -----------------------------------------------------------------------

  function WeightSum(draws: seq<Draw>): (sum: int)
    ensures (forall i :: 0 <= i < |draws| ==> draws[i].weight >= 1) ==> sum >= |draws|
  {
    if draws == [] then 0 else WeightSum(draws[..|draws| - 1]) + draws[|draws| - 1].weight
  }

  predicate DrawsOk(draws: seq<Draw>) {
    draws != [] && forall i :: 0 <= i < |draws| ==> draws[i].weight >= 1 && draws[i].qty >= 1 && draws[i].discount >= 0
  }

  function Share(total: int, weight: int, weights: int): int
    requires weights > 0
  {
    RoundHalfUp(total * weight, weights)
  }

  /** The price of a middle line before the one-cent clamp. */
  function DrawnPrice(total: int, draw: Draw, weights: int): int
    requires weights > 0 && draw.qty >= 1
  {
    RoundHalfUp(Share(total, draw.weight, weights) + draw.discount, draw.qty)
  }

  function MiddleTotal(total: int, draw: Draw, weights: int): int
    requires weights > 0 && draw.qty >= 1
  {
    var price := DrawnPrice(total, draw, weights);
    if price <= 0 then draw.qty else price * draw.qty - draw.discount
  }

  /**
   * The line for a draw before the last: it is priced so that less the drawn discount it is within half a cent a
   * unit, and half a cent, of its share of the total; or that price would be nothing, and it costs one cent a unit.
   */
  predicate PricedToShare(line: Line, draw: Draw, total: int, weights: int) {
    var excess := 2 * (weights * (line.unitPrice * line.qty - draw.discount)) - 2 * (total * draw.weight);
    || (line.discount == draw.discount && -weights * (line.qty + 1) <= excess <= weights * (line.qty + 1))
    || (line.unitPrice == 1 && line.discount == 0
        && 2 * (total * draw.weight) + 2 * (weights * draw.discount) <= weights * (line.qty + 1))
  }

  /** Pricing a share that is close to its exact value. */
  lemma {:induction false} PriceIsClose(total: int, draw: Draw, weights: int)
    requires weights > 0 && draw.qty >= 1
    ensures var p := DrawnPrice(total, draw, weights);
            && -weights * (draw.qty + 1) <= 2 * (weights * (p * draw.qty - draw.discount)) - 2 * (total * draw.weight)
                                         <= weights * (draw.qty + 1)
            && (p <= 0 ==> 2 * (total * draw.weight) + 2 * (weights * draw.discount) <= weights * (draw.qty + 1))
  {
    var p, share := DrawnPrice(total, draw, weights), Share(total, draw.weight, weights);
    RoundingIsClose(total * draw.weight, weights);
    RoundingIsClose(share + draw.discount, draw.qty);
    assert draw.qty * p == p * draw.qty;
    ScaledGap(weights, p * draw.qty - draw.discount, share, draw.qty, total * draw.weight);
    if p <= 0 { ScaledBelow(weights, share, draw.discount, draw.qty, total * draw.weight); }
  }

  lemma {:induction false} ScaledGap(weights: int, line: int, share: int, qty: int, part: int)
    requires weights > 0 && -qty <= 2 * line - 2 * share <= qty
    requires 2 * part - weights <= 2 * (weights * share) <= 2 * part + weights
    ensures -weights * (qty + 1) <= 2 * (weights * line) - 2 * part <= weights * (qty + 1)
  {
    ScaleOrder(weights, 2 * line - 2 * share, qty);
    ScaleOrder(weights, -qty, 2 * line - 2 * share);
    assert weights * (2 * line - 2 * share) == 2 * (weights * line) - 2 * (weights * share);
    assert weights * (qty + 1) == weights * qty + weights && weights * (-qty) == -(weights * qty);
    assert -weights * (qty + 1) == -(weights * qty) - weights;
  }

  lemma {:induction false} ScaledBelow(weights: int, share: int, discount: int, qty: int, part: int)
    requires weights > 0 && 2 * (share + discount) <= qty && 2 * part - weights <= 2 * (weights * share)
    ensures 2 * part + 2 * (weights * discount) <= weights * (qty + 1)
  {
    ScaleOrder(weights, 2 * (share + discount), qty);
    assert weights * (2 * (share + discount)) == 2 * (weights * share) + 2 * (weights * discount);
    assert weights * (qty + 1) == weights * qty + weights;
  }

  /** `running` after the first `k` lines. */
  function Running(total: int, draws: seq<Draw>, weights: int, k: nat): int
    requires weights > 0 && k <= |draws| && forall i :: 0 <= i < |draws| ==> draws[i].qty >= 1
  {
    if k == 0 then 0 else Running(total, draws, weights, k - 1) + MiddleTotal(total, draws[k - 1], weights)
  }

  /** The line for every draw but the last, priced to its share and clamped to a cent. */
  method MiddleLine(itemId: int, orderId: int, total: int, draw: Draw, weights: int) returns (line: Line)
    requires weights > 0 && draw.qty >= 1
    ensures line == Line(itemId, orderId, draw.product, draw.qty, Max(1, DrawnPrice(total, draw, weights)),
        line.discount)
    ensures line.discount == if DrawnPrice(total, draw, weights) <= 0 then 0 else draw.discount
    ensures LineTotal(line) == MiddleTotal(total, draw, weights) && PricedToShare(line, draw, total, weights)
  {
    PriceIsClose(total, draw, weights);
    var share := Share(total, draw.weight, weights);
    var discount := draw.discount;
    var unitPrice := RoundHalfUp(share + discount, draw.qty);
    if unitPrice <= 0 { unitPrice, discount := 1, 0; }
    line := Line(itemId, orderId, draw.product, draw.qty, unitPrice, discount);
  }

  /** Line `i` is for draw `i` of the order, numbered from `first`. */
  predicate ForDraw(line: Line, draw: Draw, orderId: int, itemId: int) {
    && line.itemId == itemId && line.orderId == orderId
    && line.product == draw.product && line.qty == draw.qty && line.unitPrice >= 1
  }

  /** The loop over every draw but the last. */
  method MiddleLines(orderId: int, baseTotal: int, draws: seq<Draw>, weights: int, nextItemId: array<int>)
    returns (rows: seq<Line>, running: int)
    requires DrawsOk(draws) && weights == WeightSum(draws) && nextItemId.Length == 1
    modifies nextItemId
    ensures |rows| == |draws| - 1 && nextItemId[0] == old(nextItemId[0]) + |rows|
    ensures running == LinesTotal(rows) == Running(baseTotal, draws, weights, |rows|)
    ensures forall k :: 0 <= k < |rows| ==> ForDraw(rows[k], draws[k], orderId, old(nextItemId[0]) + k)
    ensures forall k :: 0 <= k < |rows| ==> LineTotal(rows[k]) == MiddleTotal(baseTotal, draws[k], weights)
    ensures forall k :: 0 <= k < |rows| ==> PricedToShare(rows[k], draws[k], baseTotal, weights)
  {
    rows, running := [], 0;
    for i := 0 to |draws| - 1
      invariant |rows| == i && nextItemId[0] == old(nextItemId[0]) + i
      invariant running == LinesTotal(rows) == Running(baseTotal, draws, weights, i)
      invariant forall k :: 0 <= k < i ==> ForDraw(rows[k], draws[k], orderId, old(nextItemId[0]) + k)
      invariant forall k :: 0 <= k < i ==> LineTotal(rows[k]) == MiddleTotal(baseTotal, draws[k], weights)
      invariant forall k :: 0 <= k < i ==> PricedToShare(rows[k], draws[k], baseTotal, weights)
    {
      var line := MiddleLine(nextItemId[0], orderId, baseTotal, draws[i], weights);
      nextItemId[0] := nextItemId[0] + 1;
      LinesTotalSnoc(rows, line);
      running := running + LineTotal(line);
      rows := rows + [line];
    }
  }

  lemma {:induction false} LinesTotalSnoc(rows: seq<Line>, line: Line)
    ensures LinesTotal(rows + [line]) == LinesTotal(rows) + LineTotal(line)
  {
    assert (rows + [line])[..|rows|] == rows;
  }

  /**
   * Builds the lines of one order. For any total and any draws the lines add up to the total
   * exactly; item ids are consecutive from the shared counter; and the last discount is not negative.
   */
  method BuildReconciledItems(orderId: int, baseTotal: int, draws: seq<Draw>, nextItemId: array<int>)
    returns (rows: seq<Line>, itemsSum: int)
    requires DrawsOk(draws) && nextItemId.Length == 1
    modifies nextItemId
    ensures itemsSum == LinesTotal(rows) == baseTotal
    ensures |rows| == |draws| && nextItemId[0] == old(nextItemId[0]) + |rows|
    ensures forall i :: 0 <= i < |rows| ==> ForDraw(rows[i], draws[i], orderId, old(nextItemId[0]) + i)
    ensures forall i :: 0 <= i < |rows| - 1 ==> LineTotal(rows[i]) == MiddleTotal(baseTotal, draws[i], WeightSum(draws))
    ensures forall i :: 0 <= i < |rows| - 1 ==> PricedToShare(rows[i], draws[i], baseTotal, WeightSum(draws))
    ensures rows[|rows| - 1].discount >= 0
    ensures var remainder := baseTotal - Running(baseTotal, draws, WeightSum(draws), |draws| - 1);
            remainder > 0 ==> rows[|rows| - 1].discount <= rows[|rows| - 1].qty - 1
  {
    var running;
    rows, running := MiddleLines(orderId, baseTotal, draws, WeightSum(draws), nextItemId);
    var draw := draws[|draws| - 1];
    var unitPrice, discount, tries := LastLine(baseTotal - running, draw.qty);
    var line := Line(nextItemId[0], orderId, draw.product, draw.qty, unitPrice, discount);
    nextItemId[0] := nextItemId[0] + 1;
    LinesTotalSnoc(rows, line);
    itemsSum := running + LineTotal(line);
    rows := rows + [line];
  }

  // ---- no clamp on realistic orders ----------------------------------------------------------

  /** The generator's ranges: at most 5 lines, quantities up to 5, weights within a factor of three. */
  predicate Realistic(draws: seq<Draw>, unit: int) {
    && DrawsOk(draws) && |draws| <= 5 && unit >= 1
    && forall i :: 0 <= i < |draws| ==> draws[i].qty <= 5 && unit <= draws[i].weight <= 3 * unit
  }

  lemma {:induction false} OneMore(unit: int, n: int)
    ensures unit * n == unit * (n - 1) + unit
  {
  }

  lemma {:induction false} WeightSumBound(draws: seq<Draw>, unit: int)
    requires forall i :: 0 <= i < |draws| ==> unit <= draws[i].weight <= 3 * unit
    ensures unit * |draws| <= WeightSum(draws) <= 3 * unit * |draws|
    decreases |draws|
  {
    var n := |draws|;
    if n > 0 {
      WeightSumBound(draws[..n - 1], unit);
      OneMore(unit, n);
      OneMore(3 * unit, n);
    }
  }

  lemma {:induction false} WeightSumWithout(draws: seq<Draw>, i: nat)
    requires i < |draws|
    ensures WeightSum(draws[..i] + draws[i + 1..]) == WeightSum(draws) - draws[i].weight
    decreases |draws|
  {
    var n := |draws| - 1;
    if i == n {
      assert draws[..i] + draws[i + 1..] == draws[..n];
    } else {
      var rest := draws[..i] + draws[i + 1..];
      assert rest[..|rest| - 1] == draws[..n][..i] + draws[..n][i + 1..];
      WeightSumWithout(draws[..n], i);
    }
  }

  lemma {:induction false} OthersWithin(draws: seq<Draw>, unit: int, i: nat)
    requires Realistic(draws, unit) && i < |draws|
    ensures var rest := draws[..i] + draws[i + 1..];
            |rest| <= 4 && forall k :: 0 <= k < |rest| ==> unit <= rest[k].weight <= 3 * unit
  {
    var rest := draws[..i] + draws[i + 1..];
    forall k | 0 <= k < |rest| ensures unit <= rest[k].weight <= 3 * unit {
      assert rest[k] == if k < i then draws[k] else draws[k + 1];
    }
  }

  /** Every line's weight is at least a thirteenth of the whole. */
  lemma {:induction false} WeightIsAThirteenth(draws: seq<Draw>, unit: int, i: nat)
    requires Realistic(draws, unit) && i < |draws|
    ensures 13 * draws[i].weight >= WeightSum(draws)
  {
    var rest := draws[..i] + draws[i + 1..];
    WeightSumWithout(draws, i);
    OthersWithin(draws, unit, i);
    WeightSumBound(rest, unit);
    ScaleOrder(3 * unit, |rest|, 4);
  }

  /** A share with at least a thirteenth of the weight of at least $20 is at least $1.53. */
  lemma {:induction false} ShareIsLarge(total: int, weight: int, weights: int)
    requires total >= 2000 && weight >= 1 && weights >= 1 && 13 * weight >= weights
    ensures Share(total, weight, weights) >= 153
  {
    RoundingIsClose(total * weight, weights);
    ThirteenthOfTotal(total, weight, weights);
    LargeQuotient(weights, Share(total, weight, weights), weights * Share(total, weight, weights), total * weight,
        total * weights);
  }

  lemma {:induction false} ThirteenthOfTotal(total: int, weight: int, weights: int)
    requires total >= 2000 && weights >= 1 && 13 * weight >= weights
    ensures 13 * (total * weight) >= total * weights >= 2000 * weights
  {
    ScaleOrder(total, weights, 13 * weight);
    ScaleOrder(weights, 2000, total);
  }

  lemma {:induction false} LargeQuotient(weights: int, s: int, product: int, part: int, whole: int)
    requires weights >= 1 && product == weights * s && 2 * part - weights <= 2 * product
    requires 13 * part >= whole >= 2000 * weights
    ensures s >= 153
  {
    ScaleOrder(weights, s, 152);
  }

  /** A middle line of at least one unit's price exceeds its rounded share by at most half a cent per unit. */
  lemma {:induction false} MiddleNearShare(total: int, draw: Draw, weights: int)
    requires weights > 0 && 1 <= draw.qty <= 5 && draw.discount >= 0 && Share(total, draw.weight, weights) >= 153
    ensures DrawnPrice(total, draw, weights) > 0
    ensures 2 * MiddleTotal(total, draw, weights) <= 2 * Share(total, draw.weight, weights) + 5
  {
    var p := DrawnPrice(total, draw, weights);
    RoundingIsClose(Share(total, draw.weight, weights) + draw.discount, draw.qty);
    assert draw.qty * p == p * draw.qty;
  }

  /** A middle line exceeds its exact share by at most three cents. */
  lemma {:induction false} MiddleTotalBound(total: int, draw: Draw, weights: int)
    requires total >= 2000 && draw.weight >= 1 && 1 <= draw.qty <= 5 && draw.discount >= 0
    requires weights >= 1 && 13 * draw.weight >= weights
    ensures DrawnPrice(total, draw, weights) > 0
    ensures weights * MiddleTotal(total, draw, weights) <= total * draw.weight + 3 * weights
  {
    ShareIsLarge(total, draw.weight, weights);
    MiddleNearShare(total, draw, weights);
    RoundingIsClose(total * draw.weight, weights);
    ScaledBound(weights, MiddleTotal(total, draw, weights), Share(total, draw.weight, weights), total * draw.weight);
  }

  lemma {:induction false} ScaledBound(weights: int, line: int, share: int, part: int)
    requires weights >= 1 && 2 * line <= 2 * share + 5 && 2 * (weights * share) <= 2 * part + weights
    ensures weights * line <= part + 3 * weights
  {
    ScaleOrder(weights, 2 * line, 2 * share + 5);
    assert weights * (2 * line) == 2 * (weights * line);
    assert weights * (2 * share + 5) == 2 * (weights * share) + 5 * weights;
  }

  lemma {:induction false} SumBound(weights: int, total: int, running: int, line: int, before: int, weight: int, k: nat)
    requires weights * running <= total * before + 3 * k * weights
    requires weights * line <= total * weight + 3 * weights
    ensures weights * (running + line) <= total * (before + weight) + 3 * (k + 1) * weights
  {
    assert weights * (running + line) == weights * running + weights * line;
    assert total * (before + weight) == total * before + total * weight;
    assert 3 * (k + 1) * weights == 3 * k * weights + 3 * weights;
  }

  lemma {:induction false} RunningBound(total: int, draws: seq<Draw>, unit: int, k: nat)
    requires Realistic(draws, unit) && total >= 2000 && k <= |draws|
    ensures WeightSum(draws) > 0
    ensures WeightSum(draws) * Running(total, draws, WeightSum(draws), k)
            <= total * WeightSum(draws[..k]) + 3 * k * WeightSum(draws)
  {
    var weights := WeightSum(draws);
    if k == 0 {
      assert draws[..0] == [] && WeightSum(draws[..0]) == 0;
      assert total * WeightSum(draws[..0]) == 0;
    } else {
      RunningBound(total, draws, unit, k - 1);
      WeightIsAThirteenth(draws, unit, k - 1);
      MiddleTotalBound(total, draws[k - 1], weights);
      assert draws[..k][..k - 1] == draws[..k - 1];
      SumBound(weights, total, Running(total, draws, weights, k - 1), MiddleTotal(total, draws[k - 1], weights),
               WeightSum(draws[..k - 1]), draws[k - 1].weight, k - 1);
    }
  }

  /**
   * On totals of at least $20 with at most five lines, quantities up to five and weights within
   * [0.5, 1.5], neither one-cent clamp is ever taken: every middle price is positive before its
   * clamp, and so is the last line's.
   */
  lemma {:induction false} NoClampOnRealisticOrders(total: int, draws: seq<Draw>, unit: int)
    requires Realistic(draws, unit) && total >= 2000
    ensures WeightSum(draws) > 0
    ensures forall i :: 0 <= i < |draws| ==> DrawnPrice(total, draws[i], WeightSum(draws)) > 0
    ensures RoundHalfUp(total - Running(total, draws, WeightSum(draws), |draws| - 1), draws[|draws| - 1].qty) > 0
  {
    var weights := WeightSum(draws);
    forall i | 0 <= i < |draws| ensures DrawnPrice(total, draws[i], weights) > 0 {
      WeightIsAThirteenth(draws, unit, i);
      MiddleTotalBound(total, draws[i], weights);
    }
    var n := |draws| - 1;
    RunningBound(total, draws, unit, n);
    WeightIsAThirteenth(draws, unit, n);
    RemainderIsLarge(total, weights, draws[n].weight, Running(total, draws, weights, n), n);
    RoundingIsClose(total - Running(total, draws, weights, n), draws[n].qty);
  }

  lemma {:induction false} RemainderIsLarge(total: int, weights: int, last: int, running: int, n: nat)
    requires total >= 2000 && weights >= 1 && last >= 1 && 13 * last >= weights && n <= 4
    requires weights * running <= total * (weights - last) + 3 * n * weights
    ensures total - running >= 100
  {
    ScaleOrder(weights, 3 * n, 12);
    assert 3 * n * weights == weights * (3 * n);
    assert total * (weights - last) == total * weights - total * last;
    ThirteenthOfTotal(total, last, weights);
    assert weights * (total - running) == total * weights - weights * running;
    ScaleOrder(weights, total - running, 99);
  }

  // ---- finalising an order -------------------------------------------------------------------

  datatype OrderRow = OrderRow(orderId: int, orderTotal: int, legacyOrderId: Option<int>)

  /** Changing the last line's discount by `by` changes the total by as much, the other way. */
  lemma {:induction false} DiscountShiftsTotal(rows: seq<Line>, discount: int)
    requires rows != []
    ensures var n := |rows| - 1;
            LinesTotal(rows[n := rows[n].(discount := discount)]) == LinesTotal(rows) - (discount - rows[n].discount)
  {
    var n := |rows| - 1;
    assert rows[n := rows[n].(discount := discount)][..n] == rows[..n];
  }

  /** The lists `finalize_order` appends to, and the shared id counter. */
  class OrderBook {
    const nextItemId: array<int>
    var orders: seq<OrderRow>
    var orderItems: seq<Line>

    constructor ()
      ensures orders == [] && orderItems == [] && fresh(nextItemId) && nextItemId.Length == 1 && nextItemId[0] == 1
    {
      nextItemId := new int[1](_ => 1);
      orders, orderItems := [], [];
    }

    /**
     * Appends one order and its lines. The header minus the stored lines is zero when the order is
     * kept exact, and otherwise exactly `delta` cents of the drawn sign; a migrated header keeps its total,
     * and takes the other sign only when the last discount would have become negative.
     */
    method FinalizeOrder(orderId: int, baseTotal: int, legacyOrderId: Option<int>, draws: seq<Draw>, forceExact: bool,
                         delta: int, negative: bool) returns (rows: seq<Line>, itemsSum: int)
      requires DrawsOk(draws) && nextItemId.Length == 1 && 1 <= delta <= 99
      modifies this, nextItemId
      ensures |rows| == |draws| && orderItems == old(orderItems) + rows
      ensures |orders| == |old(orders)| + 1 && orders[..|old(orders)|] == old(orders)
      ensures var order := orders[|orders| - 1];
              var gap := order.orderTotal - LinesTotal(rows);
              && order.orderId == orderId && order.legacyOrderId == legacyOrderId
              && itemsSum == LinesTotal(rows)
              && (forceExact ==> gap == 0 && order.orderTotal == baseTotal)
              && (!forceExact && !negative ==> gap == delta)
              && (!forceExact && negative ==>
                    || gap == -delta
                    || (legacyOrderId.Some? && gap == delta && rows[|rows| - 1].discount < 2 * delta))
              && (legacyOrderId.Some? ==> order.orderTotal == baseTotal)
              && (legacyOrderId.None? ==> LinesTotal(rows) == baseTotal)
      ensures rows[|rows| - 1].discount >= 0
      ensures nextItemId[0] == old(nextItemId[0]) + |rows|
      ensures forall i :: 0 <= i < |rows| ==> ForDraw(rows[i], draws[i], orderId, old(nextItemId[0]) + i)
      ensures forall i :: 0 <= i < |rows| - 1 ==> PricedToShare(rows[i], draws[i], baseTotal, WeightSum(draws))
    {
      rows, itemsSum := BuildReconciledItems(orderId, baseTotal, draws, nextItemId);
      var orderTotal := baseTotal;
      if !forceExact {
        var sign := if negative then -1 else 1;
        if legacyOrderId.Some? {
          var last := |rows| - 1;
          var discount := rows[last].discount + sign * delta;
          if discount < 0 {
            discount := rows[last].discount + delta;
            sign := 1;
          }
          DiscountShiftsTotal(rows, discount);
          rows := rows[last := rows[last].(discount := discount)];
          itemsSum := itemsSum - sign * delta;
        } else {
          orderTotal := baseTotal + sign * delta;
        }
      }
      orderItems := orderItems + rows;
      orders := orders + [OrderRow(orderId, orderTotal, legacyOrderId)];
    }
  }
}
