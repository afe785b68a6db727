/** The maker's quote geometry on one absolute price grid. */
module QuoteLadder {
  import opened Exchange
  import opened Rounding
  import Books

  const BPS := 10000.0
  const TICK_EPSILON := 0.000000001
  const MAX_TOLERANCE_OF_STEP := 0.45

  /** `priceScale` and `sizeScale` are 10 to the number of decimals. */
  datatype MarketSpec = MarketSpec(priceScale: real, sizeScale: real, maxLeverage: real)

  datatype LadderConfig = LadderConfig(
    levels: nat,
    spreadBps: real,
    skewBps: real,
    baseNotional: real,
    sizeGrowth: real,
    leverage: real,
    requoteBps: real,
    maxInventoryNotional: real)

  datatype Quote = Quote(side: PositionType, level: nat, price: real, qty: real, margin: real, tolerance: real)

  /** A stable size multiplier for a side and a grid cell. */
  type Multiplier = (PositionType, int) -> real

  ghost predicate LegalMarket(m: MarketSpec) {
    m.priceScale > 0.0 && m.sizeScale > 0.0 && m.maxLeverage > 0.0
  }

  ghost predicate LegalConfig(c: LadderConfig) {
    && c.spreadBps > 0.0 && c.skewBps >= 0.0 && c.baseNotional > 0.0 && c.sizeGrowth >= 0.0
    && c.leverage > 0.0 && c.requoteBps >= 0.0 && c.maxInventoryNotional > 0.0
  }

  /** A grid cell is a positive whole number of price increments. */
  ghost predicate IsGrid(grid: real, scale: real) {
    grid > 0.0 && scale > 0.0 && grid * scale == (grid * scale).Floor as real
  }

  function Ceil(x: real): int {
    -(-x).Floor
  }

  function RoundToInt(x: real): int {
    (x + 0.5).Floor
  }

  // ----- cells

  function FloorToTick(value: real, tick: real, scale: real): real
    requires tick > 0.0 && scale > 0.0
  {
    ToFixed(Times((value / tick + TICK_EPSILON).Floor, tick), scale)
  }

  function CeilToTick(value: real, tick: real, scale: real): real
    requires tick > 0.0 && scale > 0.0
  {
    ToFixed(Times(Ceil(value / tick - TICK_EPSILON), tick), scale)
  }

  function Times(n: int, step: real): real {
    n as real * step
  }

  lemma TimesAdds(a: int, b: int, step: real)
    ensures Times(a, step) + Times(b, step) == Times(a + b, step)
    ensures -Times(a, step) == Times(-a, step)
  {
  }

  lemma TimesMonotone(a: int, b: int, step: real)
    requires step > 0.0
    ensures a < b <==> Times(a, step) < Times(b, step)
    ensures a < b ==> Times(b, step) - Times(a, step) >= step
  {
    if a < b {
      var d := (b - a) as real;
      NonNegativeProduct(d - 1.0, step);
      assert Times(b, step) - Times(a, step) == d * step == (d - 1.0) * step + step;
    } else {
      NonNegativeProduct((a - b) as real, step);
    }
  }

  lemma ScaleTimes(n: int, grid: real, scale: real, k: int)
    requires grid * scale == k as real
    ensures Times(n, grid) * scale == (n * k) as real
  {
    assert n as real * grid * scale == n as real * (grid * scale);
  }

  /** A price on the grid survives `toFixed`. */
  lemma CellsSurviveRounding(n: int, grid: real, scale: real)
    requires IsGrid(grid, scale)
    ensures ToFixed(Times(n, grid), scale) == Times(n, grid)
  {
    var k := (grid * scale).Floor;
    ScaleTimes(n, grid, scale, k);
    ToFixedFixesWholeSteps(Times(n, grid), scale, n * k);
  }

  // ----- the two references and the two touches

  function Clamp(value: real, low: real, high: real): real {
    var raised := if low > value then low else value;
    if high < raised then high else raised
  }

  function NormalisedInventory(signedNotional: real, max: real): (r: real)
    requires max > 0.0
    ensures -1.0 <= r <= 1.0
  {
    Clamp(signedNotional / max, -1.0, 1.0)
  }

  function BidRef(anchor: real, inventory: real, c: LadderConfig): real {
    anchor * (1.0 - (c.spreadBps / 2.0 + inventory * c.skewBps) / BPS)
  }

  function AskRef(anchor: real, inventory: real, c: LadderConfig): real {
    anchor * (1.0 + (c.spreadBps / 2.0 - inventory * c.skewBps) / BPS)
  }

  function Spread(anchor: real, c: LadderConfig): real {
    anchor * (c.spreadBps / BPS)
  }

  lemma ProductOfDifference(a: real, x: real, y: real)
    ensures a * x - a * y == a * (x - y)
  {
  }

  /** Skew shifts the quoted gap, it never widens or narrows it; long inventory shifts it down. */
  lemma SkewIsAShift(anchor: real, inventory: real, c: LadderConfig)
    ensures AskRef(anchor, inventory, c) - BidRef(anchor, inventory, c) == Spread(anchor, c)
    ensures anchor > 0.0 && c.skewBps > 0.0 && inventory > 0.0 ==> BidRef(anchor, inventory, c) < BidRef(anchor, 0.0, c)
  {
    var half, skew := c.spreadBps / 2.0, inventory * c.skewBps;
    ProductOfDifference(anchor, 1.0 + (half - skew) / BPS, 1.0 - (half + skew) / BPS);
    ProductOfDifference(anchor, 1.0 - half / BPS, 1.0 - (half + skew) / BPS);
    if anchor > 0.0 && c.skewBps > 0.0 && inventory > 0.0 {
      Positive(inventory, c.skewBps);
      Positive(anchor, skew / BPS);
      assert BidRef(anchor, 0.0, c) == anchor * (1.0 - half / BPS);
    }
  }

  lemma Positive(x: real, y: real)
    requires x > 0.0 && y > 0.0
    ensures x * y > 0.0
  {
  }

  function TouchCell(side: PositionType, ref: real, grid: real): int
    requires grid > 0.0
  {
    if side == LONG then (ref / grid + TICK_EPSILON).Floor else Ceil(ref / grid - TICK_EPSILON)
  }

  /** The reference snapped outwards onto the grid. */
  function Touch(side: PositionType, ref: real, grid: real, scale: real): real
    requires grid > 0.0 && scale > 0.0
  {
    if side == LONG then FloorToTick(ref, grid, scale) else CeilToTick(ref, grid, scale)
  }

  lemma TouchIsACell(side: PositionType, ref: real, grid: real, scale: real)
    requires IsGrid(grid, scale)
    ensures Touch(side, ref, grid, scale) == Times(TouchCell(side, ref, grid), grid)
  {
    CellsSurviveRounding(TouchCell(side, ref, grid), grid, scale);
  }

  lemma DividedGap(bid: real, gap: real, grid: real)
    requires grid > 0.0
    ensures (bid + gap) / grid == bid / grid + gap / grid
    ensures gap > 2.0 * TICK_EPSILON * grid <==> gap / grid > 2.0 * TICK_EPSILON
  {
    var q := gap / grid;
    assert q * grid == gap;
    var x := bid / grid;
    assert x * grid == bid;
    assert (x + q) * grid == bid + gap;
    if q > 2.0 * TICK_EPSILON {
      Positive(q - 2.0 * TICK_EPSILON, grid);
    } else {
      assert (2.0 * TICK_EPSILON - q) * grid >= 0.0;
    }
  }

  /** A gap of more than twice the epsilon, in cells, leaves the touches strictly apart. */
  lemma WideGapKeepsTouchesApart(bid: real, gap: real, grid: real, scale: real)
    requires IsGrid(grid, scale) && gap > 2.0 * TICK_EPSILON * grid
    ensures Touch(LONG, bid, grid, scale) < Touch(SHORT, bid + gap, grid, scale)
  {
    DividedGap(bid, gap, grid);
    TouchIsACell(LONG, bid, grid, scale);
    TouchIsACell(SHORT, bid + gap, grid, scale);
    TimesMonotone(TouchCell(LONG, bid, grid), TouchCell(SHORT, bid + gap, grid), grid);
  }

  /** With no more than that there is a reference at which the two touches meet. */
  lemma NarrowGapMeets(gap: real, grid: real, scale: real)
    requires IsGrid(grid, scale) && gap <= 2.0 * TICK_EPSILON * grid
    ensures var bid := (1.0 - TICK_EPSILON) * grid; Touch(LONG, bid, grid, scale) >= Touch(SHORT, bid + gap, grid, scale)
  {
    var bid := (1.0 - TICK_EPSILON) * grid;
    DividedGap(bid, gap, grid);
    assert bid / grid == 1.0 - TICK_EPSILON;
    assert TouchCell(LONG, bid, grid) == 1;
    assert TouchCell(SHORT, bid + gap, grid) <= 1;
    TouchIsACell(LONG, bid, grid, scale);
    TouchIsACell(SHORT, bid + gap, grid, scale);
    TimesMonotone(1, TouchCell(SHORT, bid + gap, grid), grid);
  }

  /**
   * The touches are strictly apart wherever the references stand if and only if the references are
   * more than twice the tick epsilon, in cells, apart. A positive spread alone is not enough.
   */
  lemma TouchesNeverMeetIff(gap: real, grid: real, scale: real)
    requires IsGrid(grid, scale)
    ensures (forall bid :: Touch(LONG, bid, grid, scale) < Touch(SHORT, bid + gap, grid, scale))
      <==> gap > 2.0 * TICK_EPSILON * grid
  {
    hide Touch;
    if gap > 2.0 * TICK_EPSILON * grid {
      forall bid ensures Touch(LONG, bid, grid, scale) < Touch(SHORT, bid + gap, grid, scale) {
        WideGapKeepsTouchesApart(bid, gap, grid, scale);
      }
    } else {
      NarrowGapMeets(gap, grid, scale);
    }
  }

  // ----- rungs

  /** Rounded down to the market's size precision, but never to nothing: see `SizesAreRoundedDown`. */
  function RoundQty(qty: real, scale: real): (r: real)
    requires scale > 0.0
    ensures r > 0.0
  {
    var step := 1.0 / scale;
    var floored := ToFixed(Times((qty / step + TICK_EPSILON).Floor, step), scale);
    assert step * scale == 1.0;
    if floored > 0.0 then floored
    else
      ToFixedFixesWholeSteps(step, scale, 1);
      ToFixed(step, scale)
  }

  /** Rounded up to whole cents. */
  function MarginFor(price: real, qty: real, leverage: real): real
    requires leverage > 0.0
  {
    Ceil(price * qty * 100.0 / leverage) as real / 100.0
  }

  function RequoteTolerance(price: real, gap: real, c: LadderConfig): real {
    Min(price * c.requoteBps / BPS, MAX_TOLERANCE_OF_STEP * gap)
  }

  function Outward(side: PositionType, level: nat): int {
    if side == LONG then 0 - level else level
  }

  function PriceAt(touch: real, side: PositionType, level: nat, grid: real, scale: real): real
    requires scale > 0.0
  {
    ToFixed(touch + Times(Outward(side, level), grid), scale)
  }

  function RungNotional(level: nat, c: LadderConfig, multiplier: real): real {
    c.baseNotional * (1.0 + level as real * c.sizeGrowth) * multiplier
  }

  function QtyAt(side: PositionType, level: nat, price: real, grid: real, m: MarketSpec, c: LadderConfig, mult: Multiplier): (r: real)
    requires price > 0.0 && grid > 0.0 && LegalMarket(m)
    ensures r > 0.0
  {
    var notional := RungNotional(level, c, mult(side, RoundToInt(price / grid)));
    RoundQty(notional / price, m.sizeScale)
  }

  function QuoteAt(touch: real, side: PositionType, level: nat, grid: real, m: MarketSpec, c: LadderConfig, mult: Multiplier): Quote
    requires grid > 0.0 && LegalMarket(m) && c.leverage > 0.0 && PriceAt(touch, side, level, grid, m.priceScale) > 0.0
  {
    var price := PriceAt(touch, side, level, grid, m.priceScale);
    var qty := QtyAt(side, level, price, grid, m, c, mult);
    Quote(side, level, price, qty, MarginFor(price, qty, Min(c.leverage, m.maxLeverage)), RequoteTolerance(price, grid, c))
  }

  /** The first `n` rungs of a side, inside out, without those that would be at or below zero. */
  function LadderSide(touch: real, side: PositionType, n: nat, grid: real, m: MarketSpec, c: LadderConfig, mult: Multiplier): seq<Quote>
    requires grid > 0.0 && LegalMarket(m) && c.leverage > 0.0
  {
    if n == 0 then []
    else
      var inner := LadderSide(touch, side, n - 1, grid, m, c, mult);
      if PriceAt(touch, side, n - 1, grid, m.priceScale) <= 0.0 then inner
      else inner + [QuoteAt(touch, side, n - 1, grid, m, c, mult)]
  }

  function SideOf(anchor: real, signedNotional: real, side: PositionType, grid: real, m: MarketSpec, c: LadderConfig, mult: Multiplier): seq<Quote>
    requires grid > 0.0 && LegalMarket(m) && LegalConfig(c)
  {
    var inventory := NormalisedInventory(signedNotional, c.maxInventoryNotional);
    var ref := if side == LONG then BidRef(anchor, inventory, c) else AskRef(anchor, inventory, c);
    LadderSide(Touch(side, ref, grid, m.priceScale), side, c.levels, grid, m, c, mult)
  }

  method BuildSide(touch: real, side: PositionType, grid: real, m: MarketSpec, c: LadderConfig, mult: Multiplier)
    returns (quotes: seq<Quote>)
    requires grid > 0.0 && LegalMarket(m) && LegalConfig(c)
    ensures quotes == LadderSide(touch, side, c.levels, grid, m, c, mult)
  {
    hide ToFixed, RoundQty, RungNotional, MarginFor, Times, RequoteTolerance;
    var leverage := Min(c.leverage, m.maxLeverage);
    var direction := if side == LONG then -1 else 1;
    quotes := [];
    for level := 0 to c.levels
      invariant quotes == LadderSide(touch, side, level, grid, m, c, mult)
    {
      var price := ToFixed(touch + Times(direction * level, grid), m.priceScale);
      assert direction * level == Outward(side, level);
      if price > 0.0 {
        var notional := RungNotional(level, c, mult(side, RoundToInt(price / grid)));
        var qty := RoundQty(notional / price, m.sizeScale);
        quotes := quotes + [Quote(side, level, price, qty, MarginFor(price, qty, leverage), RequoteTolerance(price, grid, c))];
      }
    }
  }

  method BuildLadder(anchor: real, signedInventoryNotional: real, grid: real, m: MarketSpec, c: LadderConfig, mult: Multiplier)
    returns (quotes: seq<Quote>)
    requires grid > 0.0 && LegalMarket(m) && LegalConfig(c)
    ensures quotes == SideOf(anchor, signedInventoryNotional, LONG, grid, m, c, mult)
      + SideOf(anchor, signedInventoryNotional, SHORT, grid, m, c, mult)
  {
    hide FloorToTick, CeilToTick, LadderSide;
    var inventory := NormalisedInventory(signedInventoryNotional, c.maxInventoryNotional);
    var bidRef, askRef := BidRef(anchor, inventory, c), AskRef(anchor, inventory, c);
    var bids := BuildSide(FloorToTick(bidRef, grid, m.priceScale), LONG, grid, m, c, mult);
    var asks := BuildSide(CeilToTick(askRef, grid, m.priceScale), SHORT, grid, m, c, mult);
    quotes := bids + asks;
  }

  // ----- what the geometry guarantees

  lemma PricesAreCells(cell: int, side: PositionType, level: nat, grid: real, scale: real)
    requires IsGrid(grid, scale)
    ensures PriceAt(Times(cell, grid), side, level, grid, scale) == Times(cell + Outward(side, level), grid)
  {
    TimesAdds(cell, Outward(side, level), grid);
    CellsSurviveRounding(cell + Outward(side, level), grid, scale);
  }

  /** What every rung of a side is. */
  ghost predicate IsRung(q: Quote, cell: int, side: PositionType, grid: real) {
    && q.side == side
    && q.price == Times(cell + Outward(side, q.level), grid) > 0.0
    && q.qty > 0.0
    && q.tolerance <= MAX_TOLERANCE_OF_STEP * grid
    && q.tolerance >= 0.0
  }

  ghost predicate InsideOut(qs: seq<Quote>, cell: int, side: PositionType, n: nat, grid: real) {
    && (forall i :: 0 <= i < |qs| ==> IsRung(qs[i], cell, side, grid) && qs[i].level < n)
    && (forall i, j :: 0 <= i < j < |qs| ==> qs[i].level < qs[j].level)
  }

  lemma {:induction false} SideIsInsideOut(cell: int, side: PositionType, n: nat, grid: real, m: MarketSpec, c: LadderConfig, mult: Multiplier)
    requires IsGrid(grid, m.priceScale) && LegalMarket(m) && LegalConfig(c)
    ensures InsideOut(LadderSide(Times(cell, grid), side, n, grid, m, c, mult), cell, side, n, grid)
  {
    hide ToFixed, RoundQty, MarginFor, Times, QtyAt;
    if n != 0 {
      SideIsInsideOut(cell, side, n - 1, grid, m, c, mult);
      PricesAreCells(cell, side, n - 1, grid, m.priceScale);
      var price := PriceAt(Times(cell, grid), side, n - 1, grid, m.priceScale);
      if price > 0.0 {
        NonNegative(price, c.requoteBps);
        assert IsRung(QuoteAt(Times(cell, grid), side, n - 1, grid, m, c, mult), cell, side, grid);
      }
    }
  }

  lemma NonNegative(x: real, y: real)
    requires x >= 0.0 && y >= 0.0
    ensures x * y / BPS >= 0.0
  {
  }

  /** No two rungs of a side are less than a whole grid cell apart. */
  lemma RungsAreACellApart(qs: seq<Quote>, cell: int, side: PositionType, n: nat, grid: real, i: nat, j: nat)
    requires InsideOut(qs, cell, side, n, grid) && grid > 0.0 && i < j < |qs|
    ensures Books.Rank(side, qs[j].price) - Books.Rank(side, qs[i].price) >= grid
  {
    assert IsRung(qs[i], cell, side, grid) && IsRung(qs[j], cell, side, grid);
    var a, b := cell + Outward(side, qs[i].level), cell + Outward(side, qs[j].level);
    TimesMonotone(a, b, grid);
    TimesMonotone(b, a, grid);
  }

  lemma RungsStayOutside(q: Quote, cell: int, side: PositionType, grid: real)
    requires IsRung(q, cell, side, grid) && grid > 0.0
    ensures Books.Rank(side, Times(cell, grid)) <= Books.Rank(side, q.price)
  {
    TimesMonotone(cell + Outward(side, q.level), cell, grid);
    TimesMonotone(cell, cell + Outward(side, q.level), grid);
  }

  /** Every bid is strictly below every ask, whatever the inventory does to the skew. */
  lemma LadderIsUncrossed(anchor: real, signedNotional: real, grid: real, m: MarketSpec, c: LadderConfig, mult: Multiplier)
    requires LegalMarket(m) && LegalConfig(c) && IsGrid(grid, m.priceScale) && Spread(anchor, c) > 2.0 * TICK_EPSILON * grid
    ensures forall b, a ::
      b in SideOf(anchor, signedNotional, LONG, grid, m, c, mult) && a in SideOf(anchor, signedNotional, SHORT, grid, m, c, mult) ==>
      b.price < a.price
  {
    hide Touch, LadderSide, TouchCell, BidRef, AskRef, Times, Spread;
    var inventory := NormalisedInventory(signedNotional, c.maxInventoryNotional);
    var bidRef, askRef := BidRef(anchor, inventory, c), AskRef(anchor, inventory, c);
    var bidCell, askCell := TouchCell(LONG, bidRef, grid), TouchCell(SHORT, askRef, grid);
    SkewIsAShift(anchor, inventory, c);
    WideGapKeepsTouchesApart(bidRef, Spread(anchor, c), grid, m.priceScale);
    TouchIsACell(LONG, bidRef, grid, m.priceScale);
    TouchIsACell(SHORT, askRef, grid, m.priceScale);
    SideIsInsideOut(bidCell, LONG, c.levels, grid, m, c, mult);
    SideIsInsideOut(askCell, SHORT, c.levels, grid, m, c, mult);
    forall b, a | b in SideOf(anchor, signedNotional, LONG, grid, m, c, mult) && a in SideOf(anchor, signedNotional, SHORT, grid, m, c, mult)
      ensures b.price < a.price {
      RungsStayOutside(b, bidCell, LONG, grid);
      RungsStayOutside(a, askCell, SHORT, grid);
    }
  }

  // ----- where the two sides do meet

  /** With an anchor on the grid and no inventory, a narrow spread puts both touches on the anchor's own cell. */
  lemma NarrowSpreadTouches(k: nat, grid: real, c: LadderConfig)
    requires LegalConfig(c) && grid > 0.0 && k >= 1
    requires Spread(Times(k, grid), c) <= 2.0 * TICK_EPSILON * grid
    ensures TouchCell(LONG, BidRef(Times(k, grid), 0.0, c), grid) == k
    ensures TouchCell(SHORT, AskRef(Times(k, grid), 0.0, c), grid) == k
  {
    var anchor := Times(k, grid);
    var half := anchor * (c.spreadBps / 2.0 / BPS);
    assert half + half == Spread(anchor, c);
    Positive(k as real, grid);
    Positive(anchor, c.spreadBps / 2.0 / BPS);
    assert BidRef(anchor, 0.0, c) == anchor - half && AskRef(anchor, 0.0, c) == anchor + half;
    CellsAway(k, grid, half);
    assert -((-(k as real)) - half / grid + TICK_EPSILON).Floor == k;
  }

  lemma QuotientBetween(x: real, d: real, most: real)
    requires d > 0.0 && 0.0 < x <= most * d
    ensures 0.0 < x / d <= most
  {
    var q := x / d;
    assert q * d == x;
    if q <= 0.0 {
      NonNegativeProduct(-q, d);
    }
    if q > most {
      Positive(q - most, d);
    }
  }

  lemma CellsAway(k: nat, grid: real, half: real)
    requires grid > 0.0 && 0.0 < half <= TICK_EPSILON * grid
    ensures 0.0 < half / grid <= TICK_EPSILON
    ensures (Times(k, grid) - half) / grid == k as real - half / grid
    ensures (Times(k, grid) + half) / grid == k as real + half / grid
  {
    QuotientBetween(half, grid, TICK_EPSILON);
    var q := half / grid;
    assert q * grid == half;
    assert (k as real - q) * grid == Times(k, grid) - half;
    assert (k as real + q) * grid == Times(k, grid) + half;
    Quotient(k as real - q, Times(k, grid) - half, grid);
    Quotient(k as real + q, Times(k, grid) + half, grid);
  }

  /** The innermost rung of a side is quoted at its touch. */
  lemma {:induction false} InnermostIsQuoted(cell: int, side: PositionType, n: nat, grid: real, m: MarketSpec, c: LadderConfig, mult: Multiplier)
    requires IsGrid(grid, m.priceScale) && LegalMarket(m) && LegalConfig(c) && n >= 1 && Times(cell, grid) > 0.0
    ensures exists q :: q in LadderSide(Times(cell, grid), side, n, grid, m, c, mult) && q.price == Times(cell, grid)
  {
    hide ToFixed, RoundQty, MarginFor, Times, QtyAt, RequoteTolerance;
    PricesAreCells(cell, side, 0, grid, m.priceScale);
    if n == 1 {
      var q := QuoteAt(Times(cell, grid), side, 0, grid, m, c, mult);
      assert LadderSide(Times(cell, grid), side, 0, grid, m, c, mult) == [];
      assert LadderSide(Times(cell, grid), side, 1, grid, m, c, mult) == [] + [q];
    } else {
      InnermostIsQuoted(cell, side, n - 1, grid, m, c, mult);
    }
  }

  ghost predicate SidesApart(anchor: real, signedNotional: real, grid: real, m: MarketSpec, c: LadderConfig, mult: Multiplier)
    requires grid > 0.0 && LegalMarket(m) && LegalConfig(c)
  {
    forall b, a ::
      b in SideOf(anchor, signedNotional, LONG, grid, m, c, mult) && a in SideOf(anchor, signedNotional, SHORT, grid, m, c, mult) ==>
      b.price < a.price
  }

  /**
   * The condition on the spread is exact. For an anchor that stands on the grid and a ladder of at least
   * one level, the built sides are apart for every inventory if and only if the spread exceeds twice the
   * epsilon in cells; with no more, a flat maker bids and asks at the anchor itself.
   */
  lemma LadderIsUncrossedIff(k: nat, grid: real, m: MarketSpec, c: LadderConfig, mult: Multiplier)
    requires LegalMarket(m) && LegalConfig(c) && IsGrid(grid, m.priceScale) && k >= 1 && c.levels >= 1
    ensures (forall signedNotional :: SidesApart(Times(k, grid), signedNotional, grid, m, c, mult))
      <==> Spread(Times(k, grid), c) > 2.0 * TICK_EPSILON * grid
  {
    hide SideOf, Spread;
    var anchor := Times(k, grid);
    if Spread(anchor, c) > 2.0 * TICK_EPSILON * grid {
      forall signedNotional ensures SidesApart(anchor, signedNotional, grid, m, c, mult) {
        LadderIsUncrossed(anchor, signedNotional, grid, m, c, mult);
      }
    } else {
      FlatLadderMeets(k, grid, m, c, mult);
      assert !SidesApart(anchor, 0.0, grid, m, c, mult);
    }
  }

  /** A ladder that crosses itself: the flat maker's best bid and best ask are both the anchor. */
  lemma FlatLadderMeets(k: nat, grid: real, m: MarketSpec, c: LadderConfig, mult: Multiplier)
    requires LegalMarket(m) && LegalConfig(c) && IsGrid(grid, m.priceScale) && k >= 1 && c.levels >= 1
    requires Spread(Times(k, grid), c) <= 2.0 * TICK_EPSILON * grid
    ensures exists b, a ::
      b in SideOf(Times(k, grid), 0.0, LONG, grid, m, c, mult) && a in SideOf(Times(k, grid), 0.0, SHORT, grid, m, c, mult)
      && b.price == Times(k, grid) == a.price
  {
    hide LadderSide, Touch, TouchCell, BidRef, AskRef, Spread, Times;
    var anchor := Times(k, grid);
    assert NormalisedInventory(0.0, c.maxInventoryNotional) == 0.0;
    NarrowSpreadTouches(k, grid, c);
    TouchIsACell(LONG, BidRef(anchor, 0.0, c), grid, m.priceScale);
    TouchIsACell(SHORT, AskRef(anchor, 0.0, c), grid, m.priceScale);
    assert anchor > 0.0 by { TimesMonotone(0, k, grid); NothingTimes(grid); }
    InnermostIsQuoted(k, LONG, c.levels, grid, m, c, mult);
    InnermostIsQuoted(k, SHORT, c.levels, grid, m, c, mult);
  }

  lemma NothingTimes(grid: real)
    ensures Times(0, grid) == 0.0
  {
  }

  // ----- sizes

  lemma InIncrements(qty: real, scale: real)
    requires scale > 0.0
    ensures qty / (1.0 / scale) == qty * scale
  {
    var step := 1.0 / scale;
    assert step * scale == 1.0;
    assert qty * scale * step == qty * (scale * step);
    Quotient(qty * scale, qty, step);
  }

  lemma WholeIncrements(n: int, scale: real)
    requires scale > 0.0
    ensures ToFixed(Times(n, 1.0 / scale), scale) == Times(n, 1.0 / scale)
    ensures Times(n, 1.0 / scale) * scale == n as real
  {
    var step := 1.0 / scale;
    assert step * scale == 1.0;
    assert n as real * step * scale == n as real * (step * scale);
    ToFixedFixesWholeSteps(Times(n, step), scale, n);
  }

  /**
   * A size is rounded down to a whole number of increments, by less than one and up to the epsilon of
   * one; only a size below one increment is raised, to exactly one.
   */
  lemma SizesAreRoundedDown(qty: real, scale: real)
    requires scale > 0.0
    ensures var n := (qty * scale + TICK_EPSILON).Floor;
      && RoundQty(qty, scale) * scale == (if n >= 1 then n as real else 1.0)
      && n as real <= qty * scale + TICK_EPSILON < n as real + 1.0
  {
    hide ToFixed;
    var step := 1.0 / scale;
    assert step * scale == 1.0;
    InIncrements(qty, scale);
    var n := (qty * scale + TICK_EPSILON).Floor;
    WholeIncrements(n, scale);
    WholeIncrements(1, scale);
    assert Times(1, step) == step;
    if n >= 1 {
      Positive(n as real, step);
    } else {
      NonNegativeProduct(-n as real, step);
    }
  }
}
