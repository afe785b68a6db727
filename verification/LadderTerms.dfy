/** The terms of a rung. */
module LadderTerms {
  import opened Exchange
  import opened Rounding
  import opened QuoteLadder
  import opened LadderScroll
  import opened OrderTerms
  import opened EngineClose
  import Engine

  // ----- inventory

  /** How far the inventory is towards its limit: from -1 fully short to 1 fully long. */
  ghost predicate IsLoad(signedNotional: real, c: LadderConfig, x: real) {
    || (-1.0 < x < 1.0 && x * c.maxInventoryNotional == signedNotional)
    || (x == 1.0 && signedNotional >= c.maxInventoryNotional)
    || (x == -1.0 && signedNotional <= -c.maxInventoryNotional)
  }

  lemma QuotientAgainst(a: real, max: real, x: real)
    requires max > 0.0
    ensures a / max <= x <==> a <= x * max
    ensures x <= a / max <==> x * max <= a
  {
    var q := a / max;
    assert q * max == a;
    Ordered(q, x, max);
    Ordered(x, q, max);
  }

  lemma LoadIsNormalised(signedNotional: real, c: LadderConfig, x: real)
    requires LegalConfig(c)
    ensures IsLoad(signedNotional, c, x) <==> x == NormalisedInventory(signedNotional, c.maxInventoryNotional)
  {
    QuotientAgainst(signedNotional, c.maxInventoryNotional, 1.0);
    QuotientAgainst(signedNotional, c.maxInventoryNotional, -1.0);
    QuotientAgainst(signedNotional, c.maxInventoryNotional, x);
  }

  lemma Ordered(x: real, y: real, z: real)
    requires z > 0.0
    ensures x <= y <==> x * z <= y * z
  {
    if x <= y {
      NonNegativeProduct(y - x, z);
    } else {
      Positive(x - y, z);
    }
  }

  /** The reference a side grows from: half the spread away from the anchor, and shifted down by the load. */
  function Reference(anchor: real, side: PositionType, x: real, c: LadderConfig): real {
    var half := if side == LONG then -(c.spreadBps / 2.0) else c.spreadBps / 2.0;
    anchor * (1.0 + (half - x * c.skewBps) / 10000.0)
  }

  lemma ReferenceIs(anchor: real, x: real, c: LadderConfig)
    ensures Reference(anchor, LONG, x, c) == BidRef(anchor, x, c) && Reference(anchor, SHORT, x, c) == AskRef(anchor, x, c)
  {
    assert 1.0 + (-(c.spreadBps / 2.0) - x * c.skewBps) / 10000.0 == 1.0 - (c.spreadBps / 2.0 + x * c.skewBps) / BPS;
  }

  lemma MoreLoadLowersReferences(anchor: real, side: PositionType, x: real, y: real, c: LadderConfig)
    requires anchor > 0.0 && LegalConfig(c) && x <= y
    ensures Reference(anchor, side, y, c) <= Reference(anchor, side, x, c)
  {
    NonNegativeProduct(y - x, c.skewBps);
    var half := if side == LONG then -(c.spreadBps / 2.0) else c.spreadBps / 2.0;
    var a, b := 1.0 + (half - x * c.skewBps) / 10000.0, 1.0 + (half - y * c.skewBps) / 10000.0;
    assert (y - x) * c.skewBps == y * c.skewBps - x * c.skewBps;
    NonNegativeProduct(anchor, a - b);
  }

  // ----- where the rungs stand

  /** The cell the side starts at: its reference snapped away from the market, to within the epsilon of a cell. */
  ghost predicate SnappedOutward(ref: real, side: PositionType, grid: real, k: int) {
    if side == LONG then Times(k, grid) <= ref + 0.000000001 * grid < Times(k + 1, grid)
    else Times(k - 1, grid) < ref - 0.000000001 * grid <= Times(k, grid)
  }

  lemma AtLeast(x: real, n: int, grid: real)
    requires grid > 0.0
    ensures n as real <= x / grid <==> Times(n, grid) <= x
  {
    var q := x / grid;
    assert q * grid == x;
    Ordered(n as real, q, grid);
  }

  lemma FloorBetween(x: real, k: int, grid: real)
    requires grid > 0.0
    ensures (x / grid).Floor == k <==> Times(k, grid) <= x < Times(k + 1, grid)
  {
    AtLeast(x, k, grid);
    AtLeast(x, k + 1, grid);
  }

  lemma OneTouch(ref: real, side: PositionType, grid: real, k: int)
    requires grid > 0.0
    ensures SnappedOutward(ref, side, grid, k) <==> k == TouchCell(side, ref, grid)
  {
    var eps := 0.000000001 * grid;
    Quotient(0.000000001, eps, grid);
    assert TICK_EPSILON == eps / grid;
    if side == LONG {
      DividedGap(ref, eps, grid);
      FloorBetween(ref + eps, k, grid);
    } else {
      DividedGap(-ref, eps, grid);
      var q := ref / grid;
      assert q * grid == ref;
      Quotient(-q, -ref, grid);
      FloorBetween(-ref + eps, -k, grid);
      TimesAdds(k, 0, grid);
      TimesAdds(k - 1, 0, grid);
    }
  }

  lemma LowerReferenceLowerCell(x: real, y: real, side: PositionType, grid: real, j: int, k: int)
    requires grid > 0.0 && x <= y && SnappedOutward(x, side, grid, j) && SnappedOutward(y, side, grid, k)
    ensures j <= k
  {
    hide Times;
    if j > k {
      if side == LONG {
        TimesMonotone(k + 1, j, grid);
      } else {
        TimesMonotone(k, j - 1, grid);
      }
    }
  }

  /** The price of a rung: so many cells out from where its side starts. */
  function RungPrice(k: int, side: PositionType, level: nat, grid: real): real {
    Times(if side == LONG then k - level else k + level, grid)
  }

  /** The built side has a rung at each level whose price is positive, there and nowhere else. */
  ghost predicate StandsFrom(qs: seq<Quote>, k: int, side: PositionType, n: nat, grid: real) {
    && (forall i :: 0 <= i < |qs| ==> qs[i].side == side && qs[i].level < n && qs[i].price == RungPrice(k, side, qs[i].level, grid) > 0.0)
    && (forall i, j :: 0 <= i < j < |qs| ==> qs[i].level < qs[j].level)
    && (forall level: nat :: level < n && RungPrice(k, side, level, grid) > 0.0 ==> exists i :: 0 <= i < |qs| && qs[i].level == level)
  }

  lemma SideStandsFrom(k: int, side: PositionType, n: nat, grid: real, m: MarketSpec, c: LadderConfig, mult: Multiplier)
    requires IsGrid(grid, m.priceScale) && LegalMarket(m) && LegalConfig(c)
    ensures StandsFrom(LadderSide(Times(k, grid), side, n, grid, m, c, mult), k, side, n, grid)
  {
    hide Times, ToFixed, QtyAt, RoundQty, MarginFor, RequoteTolerance, LadderSide, PriceAt;
    var qs, first := LadderSide(Times(k, grid), side, n, grid, m, c, mult), FirstLevel(k, side);
    SideIsInsideOut(k, side, n, grid, m, c, mult);
    SideFromItsFirstLevel(k, side, n, grid, m, c, mult);
    forall i | 0 <= i < |qs|
      ensures qs[i].side == side && qs[i].level < n && qs[i].price == RungPrice(k, side, qs[i].level, grid) > 0.0 {
      assert IsRung(qs[i], k, side, grid);
    }
    forall level: nat | level < n && RungPrice(k, side, level, grid) > 0.0 ensures exists i :: 0 <= i < |qs| && qs[i].level == level {
      PositiveCells(k + Outward(side, level), grid);
      assert IsQuoteAt(qs[level - first], k, side, first + (level - first), grid, m, c, mult);
    }
  }

  /**
   * Where a built side stands, for every anchor and inventory: outward from its reference, half the spread
   * from the anchor and lower the longer the maker is, snapped away from the market.
   */
  lemma BuiltSideStands(anchor: real, signedNotional: real, x: real, side: PositionType, grid: real, m: MarketSpec, c: LadderConfig, mult: Multiplier)
    requires LegalMarket(m) && LegalConfig(c) && IsGrid(grid, m.priceScale) && IsLoad(signedNotional, c, x)
    ensures exists k ::
      && SnappedOutward(Reference(anchor, side, x, c), side, grid, k)
      && StandsFrom(SideOf(anchor, signedNotional, side, grid, m, c, mult), k, side, c.levels, grid)
  {
    hide Touch, TouchCell, LadderSide, StandsFrom, SnappedOutward, Reference, BidRef, AskRef;
    LoadIsNormalised(signedNotional, c, x);
    ReferenceIs(anchor, x, c);
    var ref := Reference(anchor, side, x, c);
    var k := TouchCell(side, ref, grid);
    OneTouch(ref, side, grid, k);
    TouchIsACell(side, ref, grid, m.priceScale);
    SideStandsFrom(k, side, c.levels, grid, m, c, mult);
  }

  lemma EveryInventoryHasALoad(signedNotional: real, c: LadderConfig) returns (x: real)
    requires LegalConfig(c)
    ensures IsLoad(signedNotional, c, x)
  {
    x := NormalisedInventory(signedNotional, c.maxInventoryNotional);
    LoadIsNormalised(signedNotional, c, x);
  }

  lemma MoreInventoryMoreLoad(a: real, b: real, c: LadderConfig, x: real, y: real)
    requires LegalConfig(c) && a <= b && IsLoad(a, c, x) && IsLoad(b, c, y)
    ensures x <= y
  {
    hide IsLoad;
    LoadIsNormalised(a, c, x);
    LoadIsNormalised(b, c, y);
    QuotientsOrdered(a, b, c.maxInventoryNotional);
  }

  lemma QuotientsOrdered(a: real, b: real, max: real)
    requires max > 0.0 && a <= b
    ensures a / max <= b / max
  {
    var p, q := a / max, b / max;
    assert p * max == a && q * max == b;
    Ordered(p, q, max);
  }

  /**
   * The longer the maker is, the lower it quotes: of two ladders built at one anchor, every rung of the one
   * for the larger inventory stands at or below the same rung of the other.
   */
  lemma LongerQuotesLower(anchor: real, a: real, b: real, side: PositionType, grid: real, m: MarketSpec, c: LadderConfig, mult: Multiplier, q: Quote, r: Quote)
    requires LegalMarket(m) && LegalConfig(c) && IsGrid(grid, m.priceScale) && anchor > 0.0 && a <= b
    requires q in SideOf(anchor, a, side, grid, m, c, mult) && r in SideOf(anchor, b, side, grid, m, c, mult) && q.level == r.level
    ensures r.price <= q.price
  {
    hide SideOf, SnappedOutward, Reference, IsLoad, Times;
    var x := EveryInventoryHasALoad(a, c);
    var y := EveryInventoryHasALoad(b, c);
    MoreInventoryMoreLoad(a, b, c, x, y);
    MoreLoadLowersReferences(anchor, side, x, y, c);
    BuiltSideStands(anchor, a, x, side, grid, m, c, mult);
    BuiltSideStands(anchor, b, y, side, grid, m, c, mult);
    var k :| SnappedOutward(Reference(anchor, side, x, c), side, grid, k)
      && StandsFrom(SideOf(anchor, a, side, grid, m, c, mult), k, side, c.levels, grid);
    var j :| SnappedOutward(Reference(anchor, side, y, c), side, grid, j)
      && StandsFrom(SideOf(anchor, b, side, grid, m, c, mult), j, side, c.levels, grid);
    LowerReferenceLowerCell(Reference(anchor, side, y, c), Reference(anchor, side, x, c), side, grid, j, k);
    TimesMonotone(if side == LONG then k - q.level else k + q.level, if side == LONG then j - q.level else j + q.level, grid);
  }

  /** Beyond its limit, either way, the inventory no longer moves the ladder. */
  lemma LimitHoldsTheLadder(anchor: real, a: real, b: real, side: PositionType, grid: real, m: MarketSpec, c: LadderConfig, mult: Multiplier)
    requires LegalMarket(m) && LegalConfig(c) && grid > 0.0
    requires (a >= c.maxInventoryNotional && b >= c.maxInventoryNotional) || (a <= -c.maxInventoryNotional && b <= -c.maxInventoryNotional)
    ensures SideOf(anchor, a, side, grid, m, c, mult) == SideOf(anchor, b, side, grid, m, c, mult)
  {
    hide Touch, LadderSide, BidRef, AskRef;
    var x := if a >= c.maxInventoryNotional then 1.0 else -1.0;
    LoadIsNormalised(a, c, x);
    LoadIsNormalised(b, c, x);
  }

  /** The three loads that have names: flat, fully long and fully short. */
  lemma NamedLoads(c: LadderConfig)
    requires LegalConfig(c)
    ensures IsLoad(0.0, c, 0.0) && IsLoad(c.maxInventoryNotional, c, 1.0) && IsLoad(-c.maxInventoryNotional, c, -1.0)
  {
    assert 0.0 * c.maxInventoryNotional == 0.0;
  }

  // ----- sizes, margins and tolerances

  /** The size in whole increments: the units wanted, rounded down, but one increment at least. */
  ghost predicate IsSize(qty: real, units: real, sizeScale: real) {
    var n := (units * sizeScale + 0.000000001).Floor;
    qty > 0.0 && qty * sizeScale == if n >= 1 then n as real else 1.0
  }

  function Units(worth: real, price: real): real
    requires price != 0.0
  {
    worth / price
  }

  function Tolerance(price: real, bps: real, grid: real): real {
    Min(price * bps / 10000.0, 0.45 * grid)
  }

  lemma ToleranceIs(price: real, grid: real, c: LadderConfig)
    ensures RequoteTolerance(price, grid, c) == Tolerance(price, c.requoteBps, grid)
  {
  }

  lemma RoundedSize(units: real, scale: real)
    requires scale > 0.0
    ensures IsSize(RoundQty(units, scale), units, scale)
  {
    hide RoundQty;
    SizesAreRoundedDown(units, scale);
  }

  /** What a margin carries at a leverage. */
  function Carries(margin: real, leverage: real): real {
    margin * leverage
  }

  lemma MoreCarries(x: real, y: real, leverage: real)
    requires leverage > 0.0
    ensures x < y <==> Carries(x, leverage) < Carries(y, leverage)
  {
    Ordered(y, x, leverage);
  }

  /** The fewest whole cents that carry the value at the leverage. */
  ghost predicate IsMargin(margin: real, value: real, leverage: real) {
    && margin * 100.0 == (margin * 100.0).Floor as real
    && Carries(margin - 0.01, leverage) < value <= Carries(margin, leverage)
  }

  function Worth(price: real, qty: real): real {
    price * qty
  }

  /** What a rung is meant to be worth: more the further out, and shaped by its cell. */
  function Wanted(level: nat, c: LadderConfig, multiplier: real): real {
    c.baseNotional * (1.0 + level as real * c.sizeGrowth) * multiplier
  }

  lemma WantedIs(level: nat, c: LadderConfig, multiplier: real)
    ensures RungNotional(level, c, multiplier) == Wanted(level, c, multiplier)
  {
  }

  lemma MarginIs(price: real, qty: real, leverage: real)
    requires leverage > 0.0
    ensures MarginFor(price, qty, leverage) == Ceil(Worth(price, qty) * 100.0 / leverage) as real / 100.0
  {
  }

  /** The terms of a rung on cell `k`: what it is worth by its level and its price, and what follows from that. */
  ghost predicate OnTerms(q: Quote, k: int, grid: real, m: MarketSpec, c: LadderConfig, mult: Multiplier) {
    && q.price > 0.0 && q.qty > 0.0
    && IsSize(q.qty, Units(Wanted(q.level, c, mult(q.side, k)), q.price), m.sizeScale)
    && IsMargin(q.margin, Worth(q.price, q.qty), Min(c.leverage, m.maxLeverage))
    && q.tolerance == Tolerance(q.price, c.requoteBps, grid)
  }

  lemma FewestCents(value: real, leverage: real, margin: real)
    requires leverage > 0.0 && margin == Ceil(value * 100.0 / leverage) as real / 100.0
    ensures IsMargin(margin, value, leverage)
  {
    var y := value * 100.0 / leverage;
    assert y * leverage == value * 100.0;
    assert margin * 100.0 == Ceil(y) as real;
    var z := y / 100.0;
    assert Carries(z, leverage) == value by { Hundredth(z, y, leverage); }
    MoreCarries(margin - 0.01, z, leverage);
    MoreCarries(margin, z, leverage);
  }

  lemma Hundredth(x: real, n: real, y: real)
    requires x * 100.0 == n
    ensures Carries(x, y) * 100.0 == n * y
  {
  }

  lemma CellOf(k: int, grid: real)
    requires grid > 0.0
    ensures RoundToInt(Times(k, grid) / grid) == k
  {
    Quotient(k as real, Times(k, grid), grid);
    FloorOfHalf(k);
  }

  lemma QuoteOnTerms(k: int, side: PositionType, level: nat, grid: real, m: MarketSpec, c: LadderConfig, mult: Multiplier)
    requires IsGrid(grid, m.priceScale) && LegalMarket(m) && LegalConfig(c)
    requires PriceAt(Times(k, grid), side, level, grid, m.priceScale) > 0.0
    ensures OnTerms(QuoteAt(Times(k, grid), side, level, grid, m, c, mult), k + Outward(side, level), grid, m, c, mult)
  {
    hide PriceAt, RoundQty, Times, ToFixed, IsMargin, IsSize, Wanted, RungNotional, Worth, MarginFor, RoundToInt, RequoteTolerance, Tolerance;
    var cell := k + Outward(side, level);
    PricesAreCells(k, side, level, grid, m.priceScale);
    CellOf(cell, grid);
    var price, wanted := Times(cell, grid), Wanted(level, c, mult(side, cell));
    WantedIs(level, c, mult(side, cell));
    RoundedSize(Units(wanted, price), m.sizeScale);
    var qty, leverage := RoundQty(Units(wanted, price), m.sizeScale), Min(c.leverage, m.maxLeverage);
    MarginIs(price, qty, leverage);
    FewestCents(Worth(price, qty), leverage, MarginFor(price, qty, leverage));
    ToleranceIs(price, grid, c);
  }

  lemma SideRungOnTerms(k: int, side: PositionType, n: nat, grid: real, m: MarketSpec, c: LadderConfig, mult: Multiplier, i: nat)
    requires IsGrid(grid, m.priceScale) && LegalMarket(m) && LegalConfig(c) && i < |LadderSide(Times(k, grid), side, n, grid, m, c, mult)|
    ensures var q := LadderSide(Times(k, grid), side, n, grid, m, c, mult)[i];
      var cell := k + Outward(side, q.level);
      q.side == side && q.price == cell as real * grid && OnTerms(q, cell, grid, m, c, mult)
  {
    hide OnTerms, Times, LadderSide, QuoteAt, PriceAt, FirstLevel, Outward;
    var qs, level := LadderSide(Times(k, grid), side, n, grid, m, c, mult), FirstLevel(k, side) + i;
    SideFromItsFirstLevel(k, side, n, grid, m, c, mult);
    SideIsInsideOut(k, side, n, grid, m, c, mult);
    assert IsQuoteAt(qs[i], k, side, level, grid, m, c, mult) && IsRung(qs[i], k, side, grid);
    QuoteOnTerms(k, side, level, grid, m, c, mult);
    LevelOfQuote(k, side, level, grid, m, c, mult);
    TimesIs(k + Outward(side, level), grid);
  }

  /** Every rung of a built ladder is on those terms, on the cell it stands on. */
  lemma BuiltRungsAreOnTerms(anchor: real, signedNotional: real, side: PositionType, grid: real, m: MarketSpec, c: LadderConfig, mult: Multiplier, q: Quote)
    requires LegalMarket(m) && LegalConfig(c) && IsGrid(grid, m.priceScale) && q in SideOf(anchor, signedNotional, side, grid, m, c, mult)
    ensures q.side == side && exists k: int :: q.price == k as real * grid && OnTerms(q, k, grid, m, c, mult)
  {
    hide OnTerms, Times, LadderSide, SideOf, SideCell, Outward;
    var k := SideCell(anchor, signedNotional, side, grid, c);
    SideFromItsCell(anchor, signedNotional, side, grid, m, c, mult);
    var i :| 0 <= i < |SideOf(anchor, signedNotional, side, grid, m, c, mult)| && SideOf(anchor, signedNotional, side, grid, m, c, mult)[i] == q;
    SideRungOnTerms(k, side, c.levels, grid, m, c, mult, i);
  }

  lemma TimesIs(k: int, grid: real)
    ensures Times(k, grid) == k as real * grid
  {
  }

  lemma LevelOfQuote(k: int, side: PositionType, level: nat, grid: real, m: MarketSpec, c: LadderConfig, mult: Multiplier)
    requires grid > 0.0 && LegalMarket(m) && LegalConfig(c) && PriceAt(Times(k, grid), side, level, grid, m.priceScale) > 0.0
    ensures QuoteAt(Times(k, grid), side, level, grid, m, c, mult).level == level
  {
  }

  // ----- the engine takes them

  /** The order the maker places for a quote. */
  function OrderFor(q: Quote, id: Uuid, u: Uuid, market: Uuid): Order {
    Order(id, u, market, q.side, OrderType.Limit, q.qty, q.price, 0.0, q.margin)
  }

  lemma WithinLeverage(q: Quote, leverage: real, most: real)
    requires leverage > 0.0 && leverage <= most && q.price > 0.0 && q.qty > 0.0 && IsMargin(q.margin, Worth(q.price, q.qty), leverage)
    ensures q.margin > 0.0 && Worth(q.price, q.qty) / q.margin <= most
  {
    var value := Worth(q.price, q.qty);
    Positive(q.price, q.qty);
    if q.margin <= 0.0 {
      NonNegativeProduct(-q.margin, leverage);
      assert false;
    }
    var x := value / q.margin;
    assert x * q.margin == value;
    Ordered(x, leverage, q.margin);
  }

  /**
   * The engine never refuses a built quote for its leverage: where it allows at least what the maker takes
   * for the market's maximum, it lets the quote's order through exactly when the free collateral covers
   * its margin, unless the order closes a position.
   */
  lemma BuiltQuotesAreLetThrough(s: Store, market: Uuid, u: Uuid, id: Uuid, q: Quote, anchor: real, signedNotional: real,
                                 grid: real, m: MarketSpec, c: LadderConfig, mult: Multiplier)
    requires LegalMarket(m) && LegalConfig(c) && IsGrid(grid, m.priceScale) && q in SideOf(anchor, signedNotional, q.side, grid, m, c, mult)
    requires market in s.books && u in s.users && m.maxLeverage <= s.books[market].allowedLeverage
    requires !AtMostTwiceHeld(s, OrderFor(q, id, u, market))
    ensures Engine.LegalRow(OrderFor(q, id, u, market))
    ensures Engine.Admit(s, OrderFor(q, id, u, market)).Admitted? <==> s.users[u].available >= q.margin
  {
    hide SideOf, Engine.Admit, IsMargin, AtMostTwiceHeld, IsSize, Wanted;
    BuiltRungsAreOnTerms(anchor, signedNotional, q.side, grid, m, c, mult, q);
    var row := OrderFor(q, id, u, market);
    WithinLeverage(q, Min(c.leverage, m.maxLeverage), s.books[market].allowedLeverage);
    MarginedAdmission(s, row);
    assert WorstPrice(s.books[market], row, q.price);
  }
}