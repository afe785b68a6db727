/** What it costs when the touch moves by whole cells. */
module LadderScroll {
  import opened Exchange
  import opened Sequences
  import opened QuoteLadder
  import Rounding
  import opened LadderReconcile
  import opened LadderConvergence

  /** The first level of a side that is at a positive price. */
  function FirstLevel(cell: int, side: PositionType): nat {
    if side == SHORT && cell < 1 then 1 - cell else 0
  }

  function FirstCell(cell: int, side: PositionType): int {
    cell + Outward(side, FirstLevel(cell, side))
  }

  /** How many of `n` rungs are at positive prices: those at or below zero are left out. */
  function Quoted(cell: int, side: PositionType, n: nat): (k: nat)
    ensures k <= n
  {
    var most := if side == LONG then cell else n - FirstLevel(cell, side);
    if most < 0 then 0 else if most < n then most else n
  }

  lemma PositiveCells(k: int, grid: real)
    requires grid > 0.0
    ensures Times(k, grid) > 0.0 <==> k > 0
  {
    TimesMonotone(0, k, grid);
    TimesMonotone(k, 0, grid);
    NothingTimes(grid);
  }

  lemma QuotedStep(cell: int, side: PositionType, n: nat)
    ensures Quoted(cell, side, n + 1) == Quoted(cell, side, n) + if cell + Outward(side, n) > 0 then 1 else 0
    ensures cell + Outward(side, n) > 0 ==> FirstLevel(cell, side) + Quoted(cell, side, n) == n
  {
  }

  /** The quote is the rung at that level, at a positive price. */
  ghost predicate IsQuoteAt(q: Quote, cell: int, side: PositionType, level: nat, grid: real, m: MarketSpec, c: LadderConfig, mult: Multiplier)
    requires IsGrid(grid, m.priceScale) && LegalMarket(m) && LegalConfig(c)
  {
    && Times(cell + Outward(side, level), grid) > 0.0
    && PriceAt(Times(cell, grid), side, level, grid, m.priceScale) > 0.0
    && q == QuoteAt(Times(cell, grid), side, level, grid, m, c, mult)
  }

  /** A side is its rungs at positive prices, from the first level on. */
  lemma {:induction false} SideFromItsFirstLevel(cell: int, side: PositionType, n: nat, grid: real, m: MarketSpec, c: LadderConfig, mult: Multiplier)
    requires IsGrid(grid, m.priceScale) && LegalMarket(m) && LegalConfig(c)
    ensures var qs, first := LadderSide(Times(cell, grid), side, n, grid, m, c, mult), FirstLevel(cell, side);
      && |qs| == Quoted(cell, side, n)
      && forall i :: 0 <= i < |qs| ==> IsQuoteAt(qs[i], cell, side, first + i, grid, m, c, mult)
  {
    hide Rounding.ToFixed, RoundQty, MarginFor, Times, QtyAt, RequoteTolerance, PriceAt, Quoted, FirstLevel, QuoteAt, Outward;
    if n == 0 {
      assert Quoted(cell, side, 0) == 0;
    } else {
      SideFromItsFirstLevel(cell, side, n - 1, grid, m, c, mult);
      PricesAreCells(cell, side, n - 1, grid, m.priceScale);
      PositiveCells(cell + Outward(side, n - 1), grid);
      QuotedStep(cell, side, n - 1);
    }
  }

  lemma FlatNotional(a: nat, b: nat, c: LadderConfig, multiplier: real)
    requires c.sizeGrowth == 0.0
    ensures RungNotional(a, c, multiplier) == RungNotional(b, c, multiplier)
  {
    assert a as real * c.sizeGrowth == 0.0 == b as real * c.sizeGrowth;
  }

  /** Without size growth a rung is its price: at one cell, two ladders quote the same price and size. */
  lemma SameCellSameQuote(a: int, i: nat, b: int, j: nat, side: PositionType, grid: real, m: MarketSpec, c: LadderConfig, mult: Multiplier)
    requires IsGrid(grid, m.priceScale) && LegalMarket(m) && LegalConfig(c) && c.sizeGrowth == 0.0
    requires a + Outward(side, i) == b + Outward(side, j) && Times(a + Outward(side, i), grid) > 0.0
    ensures PriceAt(Times(a, grid), side, i, grid, m.priceScale) == PriceAt(Times(b, grid), side, j, grid, m.priceScale) > 0.0
    ensures var p, q := QuoteAt(Times(a, grid), side, i, grid, m, c, mult), QuoteAt(Times(b, grid), side, j, grid, m, c, mult);
      p == q.(level := i)
  {
    hide Rounding.ToFixed, RoundQty, MarginFor, Times, RungNotional, RequoteTolerance;
    PricesAreCells(a, side, i, grid, m.priceScale);
    PricesAreCells(b, side, j, grid, m.priceScale);
    FlatNotional(i, j, c, mult(side, RoundToInt(Times(a + Outward(side, i), grid) / grid)));
  }

  // ----- adopted blocks

  /** What is outside a block of `count` that starts at `lo`. */
  function Outside<T>(s: seq<T>, lo: nat, count: nat): seq<T>
    requires lo + count <= |s|
  {
    s[..lo] + s[lo + count..]
  }

  lemma {:induction false} SomesOfBlock(adopted: seq<Option<OwnOrder>>, lo: nat, hi: nat, orders: seq<OwnOrder>)
    requires lo <= hi <= |adopted| && |orders| == hi - lo
    requires forall i :: 0 <= i < |adopted| ==> adopted[i] == if lo <= i < hi then Some(orders[i - lo]) else None
    ensures Somes(adopted) == orders
    decreases |adopted|
  {
    if adopted != [] {
      var n := |adopted| - 1;
      if lo <= n < hi {
        SomesOfBlock(adopted[..n], lo, n, orders[..n - lo]);
      } else {
        SomesOfBlock(adopted[..n], if lo > n then n else lo, if hi > n then n else hi, orders);
      }
    }
  }

  lemma {:induction false} UnadoptedOfBlock(qs: seq<Quote>, adopted: seq<Option<OwnOrder>>, lo: nat, hi: nat)
    requires lo <= hi <= |qs| == |adopted|
    requires forall i :: 0 <= i < |qs| ==> (adopted[i].Some? <==> lo <= i < hi)
    ensures Unadopted(qs, adopted) == Outside(qs, lo, hi - lo)
    decreases |qs|
  {
    if qs != [] {
      var n := |qs| - 1;
      if hi == |qs| {
        if lo == hi {
          UnadoptedOfBlock(qs[..n], adopted[..n], n, n);
          assert qs[..lo] + qs[hi..] == qs[..n] + [qs[n]];
        } else {
          UnadoptedOfBlock(qs[..n], adopted[..n], lo, n);
          assert qs[..n][..lo] + qs[..n][n..] == qs[..lo] + qs[hi..];
        }
      } else {
        UnadoptedOfBlock(qs[..n], adopted[..n], lo, hi);
        assert qs[..lo] + qs[hi..] == qs[..n][..lo] + qs[..n][hi..] + [qs[n]];
      }
    }
  }

  lemma {:induction false} SameOrdersSameLength(a: seq<OwnOrder>, b: seq<OwnOrder>)
    requires SameOrders(a, b)
    ensures |a| == |b|
    decreases |a|
  {
    if a == [] {
      EmptyIfNothingCounts(b);
    } else {
      var n := |a| - 1;
      CountIffIn(a, a[n]);
      CountIffIn(b, a[n]);
      var i :| 0 <= i < |b| && b[i] == a[n];
      forall x ensures Count(a[..n], x) == Count(RemoveAt(b, i), x) {
        CountRemove(b, i, x);
      }
      SameOrdersSameLength(a[..n], RemoveAt(b, i));
    }
  }

  // ----- the scroll

  /** How far outwards the first rung quoted moved, in cells; negative when it moved inwards. */
  function OutwardShift(side: PositionType, from: int, to: int): int {
    if side == LONG then FirstCell(from, side) - FirstCell(to, side) else FirstCell(to, side) - FirstCell(from, side)
  }

  function Abs(x: int): nat {
    if x < 0 then -x else x
  }

  /** Where in a ladder of `n` rungs the ones it shares with a ladder shifted by `shift` begin. */
  function SharedFrom(n: nat, shift: int): (lo: nat)
    ensures lo <= n
  {
    if shift >= 0 then 0 else if -shift < n then -shift else n
  }

  /** How many rungs the two ladders share. */
  function Shared(was: nat, now: nat, shift: int): (count: nat)
    ensures SharedFrom(now, shift) + count <= now && SharedFrom(was, -shift) + count <= was
  {
    var lo, hi := SharedFrom(now, shift), if was - shift < now then was - shift else now;
    if hi > lo then hi - lo else 0
  }

  function Wanted(was: seq<OwnOrder>, shift: int, now: nat): (w: seq<Option<OwnOrder>>)
    ensures |w| == now
    ensures forall i :: 0 <= i < now ==> w[i] == if 0 <= i + shift < |was| then Some(was[i + shift]) else None
  {
    seq(now, i => if 0 <= i + shift < |was| then Some(was[i + shift]) else None)
  }

  ghost predicate Scrolled(was: seq<Quote>, now: seq<Quote>, shift: int, grid: real) {
    && (forall i :: 0 <= i < |now| && 0 <= i + shift < |was| ==>
          now[i].price == was[i + shift].price && now[i].qty == was[i + shift].qty && now[i].side == was[i + shift].side)
    && (forall i, j :: 0 <= i < |now| && 0 <= j < |was| && j != i + shift ==> Gap(was[j].price, now[i].price) >= grid)
  }

  lemma LaddersScroll(side: PositionType, from: int, to: int, n: nat, grid: real, m: MarketSpec, c: LadderConfig, mult: Multiplier)
    requires IsGrid(grid, m.priceScale) && LegalMarket(m) && LegalConfig(c) && c.sizeGrowth == 0.0
    ensures var was, now := LadderSide(Times(from, grid), side, n, grid, m, c, mult), LadderSide(Times(to, grid), side, n, grid, m, c, mult);
      && Scrolled(was, now, OutwardShift(side, from, to), grid) && Apart(now, grid)
      && |was| == Quoted(from, side, n) && |now| == Quoted(to, side, n)
  {
    hide Rounding.ToFixed, RoundQty, MarginFor, Times, RungNotional, RequoteTolerance, LadderSide, QtyAt, Apart, InsideOut, PriceAt, Gap, Quoted;
    var was, now := LadderSide(Times(from, grid), side, n, grid, m, c, mult), LadderSide(Times(to, grid), side, n, grid, m, c, mult);
    var shift := OutwardShift(side, from, to);
    var a, b := FirstLevel(from, side), FirstLevel(to, side);
    SideFromItsFirstLevel(from, side, n, grid, m, c, mult);
    SideFromItsFirstLevel(to, side, n, grid, m, c, mult);
    SideIsInsideOut(to, side, n, grid, m, c, mult);
    SidesAreApart(now, to, side, n, grid);
    forall i | 0 <= i < |now| && 0 <= i + shift < |was|
      ensures now[i].price == was[i + shift].price && now[i].qty == was[i + shift].qty && now[i].side == was[i + shift].side {
      assert IsQuoteAt(now[i], to, side, b + i, grid, m, c, mult) && IsQuoteAt(was[i + shift], from, side, a + (i + shift), grid, m, c, mult);
      SameCellSameQuote(to, b + i, from, a + i + shift, side, grid, m, c, mult);
    }
    forall i, j | 0 <= i < |now| && 0 <= j < |was| && j != i + shift ensures Gap(was[j].price, now[i].price) >= grid {
      assert IsQuoteAt(now[i], to, side, b + i, grid, m, c, mult) && IsQuoteAt(was[j], from, side, a + j, grid, m, c, mult);
      PricesAreCells(from, side, a + j, grid, m.priceScale);
      PricesAreCells(to, side, b + i, grid, m.priceScale);
      CellsAreApart(from + Outward(side, a + j), to + Outward(side, b + i), grid);
    }
  }

  lemma CellsAreApart(a: int, b: int, grid: real)
    requires a != b && grid > 0.0
    ensures Gap(Times(a, grid), Times(b, grid)) >= grid
  {
    TimesMonotone(a, b, grid);
    TimesMonotone(b, a, grid);
  }

  lemma SplitInThree<T>(s: seq<T>, lo: nat, count: nat)
    requires lo + count <= |s|
    ensures s == s[..lo] + (s[lo..lo + count] + s[lo + count..])
  {
  }

  lemma PlacedBlock(qs: seq<Quote>, lo: nat, count: nat, newId: Quote -> Uuid, x: OwnOrder)
    requires lo + count <= |qs|
    ensures Count(PlacedAll(qs, newId), x)
      == Count(PlacedAll(qs, newId)[lo..lo + count], x) + Count(Outside(PlacedAll(qs, newId), lo, count), x)
  {
    hide Count, PlacedAll;
    var os := PlacedAll(qs, newId);
    SplitInThree(os, lo, count);
    CountConcat(os[..lo], os[lo..lo + count] + os[lo + count..], x);
    CountConcat(os[lo..lo + count], os[lo + count..], x);
    CountConcat(os[..lo], os[lo + count..], x);
  }

  /** The shared rungs want the orders that already rest there; the other orders are near nothing. */
  lemma ScrollIsSorted(was: seq<Quote>, now: seq<Quote>, shift: int, grid: real, newId: Quote -> Uuid, av: seq<OwnOrder>)
    requires Scrolled(was, now, shift, grid) && Apart(now, grid) && SameOrders(av, PlacedAll(was, newId))
    ensures var os, count := PlacedAll(was, newId), Shared(|was|, |now|, shift);
      && Sorted(av, now, Wanted(os, shift, |now|), Outside(os, SharedFrom(|was|, -shift), count))
      && Unadopted(now, Wanted(os, shift, |now|)) == Outside(now, SharedFrom(|now|, shift), count)
  {
    hide Apart, Near, Fits, Unadopted, Somes, Scrolled, Count, Suits, Wanted, SharedFrom, Shared, PlacedAll, Outside;
    var os := PlacedAll(was, newId);
    var from, to, count := SharedFrom(|was|, -shift), SharedFrom(|now|, shift), Shared(|was|, |now|, shift);
    WantedIsABlock(os, shift, |now|);
    UnadoptedOfBlock(now, Wanted(os, shift, |now|), to, to + count);
    forall x ensures Count(av, x) == Count(Somes(Wanted(os, shift, |now|)), x) + Count(Outside(os, from, count), x) {
      PlacedBlock(was, from, count, newId, x);
    }
    WantedSuits(was, now, shift, grid, newId);
    OthersAreNearNothing(was, now, shift, grid, newId);
  }

  lemma SharedIsABlock(was: nat, now: nat, shift: int)
    ensures Shared(was, now, shift) > 0 ==> SharedFrom(was, -shift) == SharedFrom(now, shift) + shift
  {
  }

  lemma SharedRung(was: nat, now: nat, shift: int, i: nat)
    requires i < now
    ensures 0 <= i + shift < was <==> SharedFrom(now, shift) <= i < SharedFrom(now, shift) + Shared(was, now, shift)
  {
  }

  lemma WantedIsABlock(os: seq<OwnOrder>, shift: int, now: nat)
    ensures var from, to, count := SharedFrom(|os|, -shift), SharedFrom(now, shift), Shared(|os|, now, shift);
      && Somes(Wanted(os, shift, now)) == os[from..from + count]
      && forall i :: 0 <= i < now ==> (Wanted(os, shift, now)[i].Some? <==> to <= i < to + count)
  {
    hide Somes, SharedFrom, Shared;
    var from, to, count := SharedFrom(|os|, -shift), SharedFrom(now, shift), Shared(|os|, now, shift);
    SharedIsABlock(|os|, now, shift);
    var want, block := Wanted(os, shift, now), os[from..from + count];
    forall i | 0 <= i < now ensures want[i] == if to <= i < to + count then Some(block[i - to]) else None {
      SharedRung(|os|, now, shift, i);
      if to <= i < to + count {
        assert block[i - to] == os[i + shift];
      }
    }
    SomesOfBlock(want, to, to + count, block);
  }

  lemma WantedSuits(was: seq<Quote>, now: seq<Quote>, shift: int, grid: real, newId: Quote -> Uuid)
    requires Scrolled(was, now, shift, grid) && Apart(now, grid)
    ensures Suits(Wanted(PlacedAll(was, newId), shift, |now|), now)
  {
  }

  lemma OthersAreNearNothing(was: seq<Quote>, now: seq<Quote>, shift: int, grid: real, newId: Quote -> Uuid)
    requires Scrolled(was, now, shift, grid) && Apart(now, grid)
    ensures forall o, i ::
      o in Outside(PlacedAll(was, newId), SharedFrom(|was|, -shift), Shared(|was|, |now|, shift)) && 0 <= i < |now| ==> !Near(o, now[i])
  {
    var os := PlacedAll(was, newId);
    var from, count := SharedFrom(|was|, -shift), Shared(|was|, |now|, shift);
    forall o, i | o in Outside(os, from, count) && 0 <= i < |now| ensures !Near(o, now[i]) {
      var j :| 0 <= j < |was| && os[j] == o && !(from <= j < from + count);
      assert j != i + shift;
      assert Gap(was[j].price, now[i].price) >= grid;
    }
  }

  /**
   * The difference between a scrolled ladder and the orders of the ladder it scrolled from: what one has
   * and the other lacks, and nothing else. Between ladders of one length that is a rung per cell of the
   * shift, up to all of them.
   */
  ghost predicate CostsTheShift(was: seq<Quote>, now: seq<Quote>, shift: int, av: seq<OwnOrder>, newId: Quote -> Uuid) {
    var os, d, count := PlacedAll(was, newId), SideDiff(now, av), Shared(|was|, |now|, shift);
    && SameOrders(d.toCancel, Outside(os, SharedFrom(|was|, -shift), count))
    && d.toPlace == Outside(now, SharedFrom(|now|, shift), count)
    && |d.toCancel| == |was| - count && |d.toPlace| == |now| - count
    && (|was| == |now| ==> |d.toCancel| == |d.toPlace| == Cost(|now|, shift))
    && (forall i :: 0 <= i < |now| && 0 <= i + shift < |was| ==>
          Claimed(now, av).adopted[i] == Some(os[i + shift])
          && os[i + shift].price == now[i].price && os[i + shift].remainingQty == now[i].qty)
  }

  /** How many rungs of `n` a shift replaces. */
  function Cost(n: nat, shift: int): nat {
    if Abs(shift) < n then Abs(shift) else n
  }

  lemma OutsideLength<T>(s: seq<T>, lo: nat, count: nat)
    requires lo + count <= |s|
    ensures |Outside(s, lo, count)| == |s| - count
  {
  }

  lemma SharedCount(n: nat, shift: int)
    ensures n - Shared(n, n, shift) == Cost(n, shift)
  {
  }

  lemma SameAtSharedRungs(was: seq<Quote>, now: seq<Quote>, shift: int, grid: real, newId: Quote -> Uuid)
    requires Scrolled(was, now, shift, grid)
    ensures var os := PlacedAll(was, newId);
      forall i :: 0 <= i < |now| && 0 <= i + shift < |was| ==>
        Wanted(os, shift, |now|)[i] == Some(os[i + shift]) && os[i + shift].price == now[i].price && os[i + shift].remainingQty == now[i].qty
  {
    hide Gap;
  }

  lemma ScrollDiffers(was: seq<Quote>, now: seq<Quote>, shift: int, grid: real, newId: Quote -> Uuid, av: seq<OwnOrder>)
    requires Scrolled(was, now, shift, grid) && Apart(now, grid) && SameOrders(av, PlacedAll(was, newId))
    ensures CostsTheShift(was, now, shift, av, newId)
  {
    hide Apart, Sorted, Claimed, Unadopted, SameOrders, NotAt, Prices, Somes, Near, Fits, Gap, Scrolled, Outside, Shared, SharedFrom, Wanted, Cost, PlacedAll;
    var os, count := PlacedAll(was, newId), Shared(|was|, |now|, shift);
    ScrollIsSorted(was, now, shift, grid, newId, av);
    SharedCount(|now|, shift);
    var rest := Outside(os, SharedFrom(|was|, -shift), count);
    OutsideLength(os, SharedFrom(|was|, -shift), count);
    OutsideLength(now, SharedFrom(|now|, shift), count);
    ClaimsFindTheWanted(now, grid, Wanted(os, shift, |now|), rest, av);
    SameOrdersSameLength(Claimed(now, av).left, rest);
    assert [] + Claimed(now, av).left == Claimed(now, av).left;
    SameAtSharedRungs(was, now, shift, grid, newId);
  }

  /**
   * A scroll of k cells costs exactly k. With the grid unchanged and no size growth, a side whose old
   * ladder rests whole cancels exactly the rungs the new one lacks and places exactly the rungs the old
   * one lacked, k of each (or all of them, when k is more); every other rung adopts the order that
   * already rests at its price with its size. Ladders cut short at zero keep to the same, each with
   * the rungs it has.
   */
  lemma ScrollCostsItsCells(side: PositionType, from: int, to: int, n: nat, grid: real, m: MarketSpec, c: LadderConfig, mult: Multiplier,
                            newId: Quote -> Uuid, av: seq<OwnOrder>)
    requires IsGrid(grid, m.priceScale) && LegalMarket(m) && LegalConfig(c) && c.sizeGrowth == 0.0
    requires SameOrders(av, PlacedAll(LadderSide(Times(from, grid), side, n, grid, m, c, mult), newId))
    ensures var was, now := LadderSide(Times(from, grid), side, n, grid, m, c, mult), LadderSide(Times(to, grid), side, n, grid, m, c, mult);
      && |was| == Quoted(from, side, n) && |now| == Quoted(to, side, n)
      && CostsTheShift(was, now, OutwardShift(side, from, to), av, newId)
  {
    hide LadderSide, Times, Apart, CostsTheShift, SameOrders, Scrolled, PlacedAll, Quoted;
    LaddersScroll(side, from, to, n, grid, m, c, mult);
    ScrollDiffers(LadderSide(Times(from, grid), side, n, grid, m, c, mult), LadderSide(Times(to, grid), side, n, grid, m, c, mult),
      OutwardShift(side, from, to), grid, newId, av);
  }

  // ----- both sides of one reconcile

  /** The two sides `BuildLadder` builds, bids then asks. */
  function Ladder(anchor: real, signedNotional: real, grid: real, m: MarketSpec, c: LadderConfig, mult: Multiplier): seq<Quote>
    requires grid > 0.0 && LegalMarket(m) && LegalConfig(c)
  {
    SideOf(anchor, signedNotional, LONG, grid, m, c, mult) + SideOf(anchor, signedNotional, SHORT, grid, m, c, mult)
  }

  /** The cell a side's touch stands on. */
  function SideCell(anchor: real, signedNotional: real, side: PositionType, grid: real, c: LadderConfig): int
    requires grid > 0.0 && LegalConfig(c)
  {
    var inventory := NormalisedInventory(signedNotional, c.maxInventoryNotional);
    TouchCell(side, if side == LONG then BidRef(anchor, inventory, c) else AskRef(anchor, inventory, c), grid)
  }

  lemma SideFromItsCell(anchor: real, signedNotional: real, side: PositionType, grid: real, m: MarketSpec, c: LadderConfig, mult: Multiplier)
    requires LegalMarket(m) && LegalConfig(c) && IsGrid(grid, m.priceScale)
    ensures SideOf(anchor, signedNotional, side, grid, m, c, mult)
      == LadderSide(Times(SideCell(anchor, signedNotional, side, grid, c), grid), side, c.levels, grid, m, c, mult)
  {
    hide LadderSide, Touch, TouchCell, BidRef, AskRef, Times;
    var inventory := NormalisedInventory(signedNotional, c.maxInventoryNotional);
    TouchIsACell(side, if side == LONG then BidRef(anchor, inventory, c) else AskRef(anchor, inventory, c), grid, m.priceScale);
  }

  /** Orders placed for a ladder, seen side by side. */
  lemma OrdersOfASide(bids: seq<Quote>, asks: seq<Quote>, resting: seq<OwnOrder>, side: PositionType, newId: Quote -> Uuid)
    requires (forall q :: q in bids ==> q.side == LONG) && (forall q :: q in asks ==> q.side == SHORT)
    requires SameOrders(resting, PlacedAll(bids + asks, newId))
    ensures SameOrders(BySide(resting, side), PlacedAll(if side == LONG then bids else asks, newId))
  {
    hide Count, PlacedAll, BySide;
    PlacedAllConcat(bids, asks, newId);
    forall x ensures Count(BySide(resting, side), x) == Count(PlacedAll(if side == LONG then bids else asks, newId), x) {
      BySideCounts(resting, side, x);
      CountConcat(PlacedAll(bids, newId), PlacedAll(asks, newId), x);
      if x.side == LONG {
        OtherSidePlacesNothing(asks, SHORT, newId, x);
      } else {
        OtherSidePlacesNothing(bids, LONG, newId, x);
      }
    }
  }

  /** What one reconcile cancels and places when both sides scrolled. */
  ghost predicate CostsBothShifts(wasBids: seq<Quote>, nowBids: seq<Quote>, bidShift: int, wasAsks: seq<Quote>, nowAsks: seq<Quote>, askShift: int,
                                  d: Diff, newId: Quote -> Uuid)
  {
    var bids, asks := Shared(|wasBids|, |nowBids|, bidShift), Shared(|wasAsks|, |nowAsks|, askShift);
    && d.toPlace == Outside(nowBids, SharedFrom(|nowBids|, bidShift), bids) + Outside(nowAsks, SharedFrom(|nowAsks|, askShift), asks)
    && SameOrders(d.toCancel,
         Outside(PlacedAll(wasBids, newId), SharedFrom(|wasBids|, -bidShift), bids)
         + Outside(PlacedAll(wasAsks, newId), SharedFrom(|wasAsks|, -askShift), asks))
    && |d.toCancel| == |wasBids| - bids + |wasAsks| - asks && |d.toPlace| == |nowBids| - bids + |nowAsks| - asks
    && (|wasBids| == |nowBids| && |wasAsks| == |nowAsks| ==>
          |d.toCancel| == |d.toPlace| == Cost(|nowBids|, bidShift) + Cost(|nowAsks|, askShift))
  }

  lemma BothSidesAddUp(wasBids: seq<Quote>, nowBids: seq<Quote>, bidShift: int, avBids: seq<OwnOrder>,
                       wasAsks: seq<Quote>, nowAsks: seq<Quote>, askShift: int, avAsks: seq<OwnOrder>, newId: Quote -> Uuid)
    requires CostsTheShift(wasBids, nowBids, bidShift, avBids, newId) && CostsTheShift(wasAsks, nowAsks, askShift, avAsks, newId)
    ensures var b, a := SideDiff(nowBids, avBids), SideDiff(nowAsks, avAsks);
      CostsBothShifts(wasBids, nowBids, bidShift, wasAsks, nowAsks, askShift, Diff(b.toCancel + a.toCancel, b.toPlace + a.toPlace), newId)
  {
    hide SideDiff, Outside, Shared, SharedFrom, Count, PlacedAll, Claimed, Cost;
    var b, a := SideDiff(nowBids, avBids), SideDiff(nowAsks, avAsks);
    var goneBids := Outside(PlacedAll(wasBids, newId), SharedFrom(|wasBids|, -bidShift), Shared(|wasBids|, |nowBids|, bidShift));
    var goneAsks := Outside(PlacedAll(wasAsks, newId), SharedFrom(|wasAsks|, -askShift), Shared(|wasAsks|, |nowAsks|, askShift));
    forall x ensures Count(b.toCancel + a.toCancel, x) == Count(goneBids + goneAsks, x) {
      CountConcat(b.toCancel, a.toCancel, x);
      CountConcat(goneBids, goneAsks, x);
    }
  }

  /**
   * One reconcile after the mid moved. The ladder built for the old anchor and inventory rests whole; the
   * one for the new anchor and inventory stands on the same grid, without size growth. Reconciling places
   * exactly the rungs the old ladder lacked and cancels exactly the orders of the rungs the new one lacks,
   * on each side as many as its touch moved cells; every other order stays.
   */
  lemma ReconcileCostsItsCells(anchor: real, signedNotional: real, newAnchor: real, newNotional: real, grid: real,
                               m: MarketSpec, c: LadderConfig, mult: Multiplier, newId: Quote -> Uuid, resting: seq<OwnOrder>)
    requires LegalMarket(m) && LegalConfig(c) && IsGrid(grid, m.priceScale) && c.sizeGrowth == 0.0
    requires SameOrders(resting, PlacedAll(Ladder(anchor, signedNotional, grid, m, c, mult), newId))
    ensures var wasBids, nowBids := SideOf(anchor, signedNotional, LONG, grid, m, c, mult), SideOf(newAnchor, newNotional, LONG, grid, m, c, mult);
      var wasAsks, nowAsks := SideOf(anchor, signedNotional, SHORT, grid, m, c, mult), SideOf(newAnchor, newNotional, SHORT, grid, m, c, mult);
      && |wasBids| == Quoted(SideCell(anchor, signedNotional, LONG, grid, c), LONG, c.levels)
      && |nowBids| == Quoted(SideCell(newAnchor, newNotional, LONG, grid, c), LONG, c.levels)
      && |wasAsks| == Quoted(SideCell(anchor, signedNotional, SHORT, grid, c), SHORT, c.levels)
      && |nowAsks| == Quoted(SideCell(newAnchor, newNotional, SHORT, grid, c), SHORT, c.levels)
      && CostsBothShifts(
           wasBids, nowBids, OutwardShift(LONG, SideCell(anchor, signedNotional, LONG, grid, c), SideCell(newAnchor, newNotional, LONG, grid, c)),
           wasAsks, nowAsks, OutwardShift(SHORT, SideCell(anchor, signedNotional, SHORT, grid, c), SideCell(newAnchor, newNotional, SHORT, grid, c)),
           Reconciled(Ladder(newAnchor, newNotional, grid, m, c, mult), resting), newId)
  {
    hide SideOf, LadderSide, Times, SideCell, Quoted, SameOrders, CostsTheShift, CostsBothShifts, PlacedAll, BySide, QuotesOn, SideDiff, OutwardShift;
    var bids, asks := SideOf(anchor, signedNotional, LONG, grid, m, c, mult), SideOf(anchor, signedNotional, SHORT, grid, m, c, mult);
    BuiltSide(anchor, signedNotional, LONG, grid, m, c, mult);
    BuiltSide(anchor, signedNotional, SHORT, grid, m, c, mult);
    BuiltLaddersAreLadders(newAnchor, newNotional, grid, m, c, mult);
    SideScrolls(bids, asks, anchor, signedNotional, newAnchor, newNotional, LONG, grid, m, c, mult, newId, resting);
    SideScrolls(bids, asks, anchor, signedNotional, newAnchor, newNotional, SHORT, grid, m, c, mult, newId, resting);
    BothSidesAddUp(
      bids, SideOf(newAnchor, newNotional, LONG, grid, m, c, mult),
      OutwardShift(LONG, SideCell(anchor, signedNotional, LONG, grid, c), SideCell(newAnchor, newNotional, LONG, grid, c)), BySide(resting, LONG),
      asks, SideOf(newAnchor, newNotional, SHORT, grid, m, c, mult),
      OutwardShift(SHORT, SideCell(anchor, signedNotional, SHORT, grid, c), SideCell(newAnchor, newNotional, SHORT, grid, c)), BySide(resting, SHORT),
      newId);
  }

  lemma SideScrolls(bids: seq<Quote>, asks: seq<Quote>, anchor: real, signedNotional: real, newAnchor: real, newNotional: real, side: PositionType,
                    grid: real, m: MarketSpec, c: LadderConfig, mult: Multiplier, newId: Quote -> Uuid, resting: seq<OwnOrder>)
    requires LegalMarket(m) && LegalConfig(c) && IsGrid(grid, m.priceScale) && c.sizeGrowth == 0.0
    requires (forall q :: q in bids ==> q.side == LONG) && (forall q :: q in asks ==> q.side == SHORT)
    requires SideOf(anchor, signedNotional, side, grid, m, c, mult) == if side == LONG then bids else asks
    requires SameOrders(resting, PlacedAll(bids + asks, newId))
    ensures var was, now := SideOf(anchor, signedNotional, side, grid, m, c, mult), SideOf(newAnchor, newNotional, side, grid, m, c, mult);
      && |was| == Quoted(SideCell(anchor, signedNotional, side, grid, c), side, c.levels)
      && |now| == Quoted(SideCell(newAnchor, newNotional, side, grid, c), side, c.levels)
      && CostsTheShift(was, now, OutwardShift(side, SideCell(anchor, signedNotional, side, grid, c), SideCell(newAnchor, newNotional, side, grid, c)),
           BySide(resting, side), newId)
  {
    hide SideOf, LadderSide, Times, SideCell, Quoted, SameOrders, CostsTheShift, PlacedAll, BySide, OutwardShift;
    OrdersOfASide(bids, asks, resting, side, newId);
    SideFromItsCell(anchor, signedNotional, side, grid, m, c, mult);
    SideFromItsCell(newAnchor, newNotional, side, grid, m, c, mult);
    ScrollCostsItsCells(side, SideCell(anchor, signedNotional, side, grid, c), SideCell(newAnchor, newNotional, side, grid, c),
      c.levels, grid, m, c, mult, newId, BySide(resting, side));
  }
}
