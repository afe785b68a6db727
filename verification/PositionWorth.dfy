/** What a trade is worth. */
module PositionWorth {
  import opened Exchange
  import opened Rounding
  import opened Positions
  import opened EngineSteps

  // ----- closing pays the difference

  /** The mean of two prices, by their sizes. */
  function Mean(q: real, p: real, r: real, x: real): real
    requires q + r != 0.0
  {
    (q * p + r * x) / (q + r)
  }

  /** The entry price a netting settles at: the mean of both, by the size held and by what is left over, in cents. */
  function SettledEntry(held: Position, t: Trade): real
    requires held.qty > 0.0
  {
    Round2(Mean(held.qty, held.averagePrice, Abs(held.qty - t.qty), t.averagePrice))
  }

  lemma MeanIs(q1: real, p1: real, q2: real, p2: real)
    requires q1 + q2 != 0.0
    ensures WeightedMean(q1, p1, q2, p2) == Mean(q1, p1, q2, p2)
  {
  }

  /** The margin behind part of a size, in cents. */
  function Share(total: real, qty: real, part: real): real
    requires qty != 0.0
  {
    Round2(total / qty * part)
  }

  lemma ShareIs(total: real, qty: real, part: real)
    requires qty != 0.0
    ensures RelativeMargin(total, qty, part) == Share(total, qty, part)
  {
    hide Round2;
  }

  lemma SettledIsNetted(held: Position, t: Trade)
    requires held.qty > 0.0
    ensures NettedAverage(held, t) == SettledEntry(held, t)
  {
    hide Round2;
    MeanIs(held.qty, held.averagePrice, Abs(held.qty - t.qty), t.averagePrice);
  }

  lemma NettingIs(u: User, t: Trade, last: real, i: nat)
    requires WfPositions(u.positions) && t.qty > 0.0 && i < |u.positions|
    requires u.positions[i].marketId == t.marketId && u.positions[i].kind != t.kind
    ensures CreatePosition(u, t, last) == Net(u, i, t, last)
    ensures NettedAverage(u.positions[i], t) == SettledEntry(u.positions[i], t)
  {
    hide Net, SettledEntry;
    FindUnique(u.positions, t.marketId, i);
    SettledIsNetted(u.positions[i], t);
  }

  /**
   * A trade against a position pays its size times the move from the settled entry to the last price: a
   * long gains when the price is above, a short when it is below.
   */
  lemma OppositeTradePays(u: User, t: Trade, last: real, i: nat)
    requires WfPositions(u.positions) && t.qty > 0.0 && i < |u.positions|
    requires u.positions[i].marketId == t.marketId && u.positions[i].kind != t.kind
    ensures var v, held := CreatePosition(u, t, last), u.positions[i];
      v.available + v.locked == u.available + u.locked + Signed(held.kind, t.qty) * (last - SettledEntry(held, t))
  {
    hide CreatePosition, NettedAverage, NettedMargin, SettledEntry, Reduced;
    NettingIs(u, t, last, i);
    var held := u.positions[i];
    Distributes(t.qty, last, SettledEntry(held, t));
  }

  lemma Distributes(q: real, x: real, y: real)
    ensures q * (x - y) == x * q - y * q && -q * (x - y) == y * q - x * q
  {
  }

  lemma SameSign(q: real, x: real)
    requires q > 0.0
    ensures q * x > 0.0 <==> x > 0.0
  {
  }

  lemma NothingTimes(x: real, y: real)
    requires x == 0.0
    ensures x * y == 0.0
  {
  }

  lemma MeanOfOne(q: real, p: real, r: real, x: real)
    requires q > 0.0 && r == 0.0
    ensures Mean(q, p, r, x) == p
  {
    NothingTimes(r, x);
    Quotient(p, q * p + r * x, q + r);
  }

  /**
   * Closing the whole position gains, for a long, if and only if the last price is above its entry price
   * in cents, for a short if and only if it is below; other trades pay nothing.
   */
  lemma WholeCloseGainsIff(u: User, t: Trade, last: real, i: nat)
    requires WfPositions(u.positions) && t.qty > 0.0 && i < |u.positions|
    requires u.positions[i].marketId == t.marketId && u.positions[i].kind != t.kind && u.positions[i].qty == t.qty
    ensures var v, held := CreatePosition(u, t, last), u.positions[i];
      v.available + v.locked > u.available + u.locked
      <==> (if held.kind == LONG then last > Round2(held.averagePrice) else last < Round2(held.averagePrice))
  {
    hide CreatePosition, Round2;
    var held := u.positions[i];
    MeanOfOne(held.qty, held.averagePrice, Abs(held.qty - t.qty), t.averagePrice);
    OppositeTradePays(u, t, last, i);
    SameSign(t.qty, last - Round2(held.averagePrice));
    SameSign(t.qty, Round2(held.averagePrice) - last);
    Distributes(t.qty, last, Round2(held.averagePrice));
  }

  lemma OtherTradesPayNothing(u: User, t: Trade, last: real)
    requires WfPositions(u.positions) && t.qty > 0.0
    requires forall i :: 0 <= i < |u.positions| && u.positions[i].marketId == t.marketId ==> u.positions[i].kind == t.kind
    ensures var v := CreatePosition(u, t, last);
      v.available == u.available && v.locked == u.locked && v.closedPositions == u.closedPositions
  {
  }

  /** What a netting moves from locked to available: the margin it leaves behind the position, or all of it at a close. */
  lemma NettingUnlocks(u: User, t: Trade, last: real, i: nat)
    requires WfPositions(u.positions) && t.qty > 0.0 && i < |u.positions|
    requires u.positions[i].marketId == t.marketId && u.positions[i].kind != t.kind
    ensures var v, held := CreatePosition(u, t, last), u.positions[i];
      && (t.qty == held.qty ==> v.locked == u.locked - held.margin && v.positions == u.positions[..i] + u.positions[i + 1..])
      && (t.qty != held.qty ==>
            && |v.positions| == |u.positions|
            && v.locked == u.locked - v.positions[i].margin
            && v.positions[i].averagePrice == SettledEntry(held, t)
            && v.positions[i].margin == (if t.qty < held.qty then Share(held.margin, held.qty, held.qty - t.qty)
                                         else Share(t.margin, t.qty, t.qty - held.qty)))
  {
    hide CreatePosition, NettedAverage, SettledEntry, Round2, RealisedPnl, LiquidationPrice;
    NettingIs(u, t, last, i);
    var held := u.positions[i];
    ShareIs(t.margin, t.qty, t.qty - held.qty);
    ShareIs(held.margin, held.qty, held.qty - t.qty);
  }

  // ----- entry prices that are no means

  lemma MeanBetween(q: real, p: real, r: real, x: real)
    requires q > 0.0 && r >= 0.0
    ensures (q + r) * (Mean(q, p, r, x) - p) == r * (x - p)
  {
    var mean := Mean(q, p, r, x);
    assert mean * (q + r) == q * p + r * x;
  }

  lemma Scaled(d: real, a: real, b: real)
    requires d != 0.0 && d * a == d * b
    ensures a == b
  {
    if d < 0.0 {
      assert -d * a == -(d * a) && -d * b == -(d * b);
      Scale(-d, a, b);
    } else {
      Scale(d, a, b);
    }
  }

  lemma Expands(x: real, y: real, z: real)
    ensures (x + y) * z == x * z + y * z && (x - y) * z == x * z - y * z
  {
  }

  lemma TwoMeans(q: real, r: real, k: real, a: real, d: real)
    requires q > 0.0 && r != k && (q + r) * a == r * d && (q + k) * a == k * d
    ensures d == 0.0
  {
    Expands(q, r, a);
    Expands(q, k, a);
    Expands(r, k, a);
    Expands(r, k, d);
    Scaled(r - k, a, d);
    Expands(q, r, d);
    Scaled(q, d, 0.0);
  }

  lemma SameMean(q: real, p: real, r: real, x: real, k: real)
    requires q > 0.0 && r > 0.0 && k > 0.0 && r != k
    ensures Mean(q, p, r, x) == Mean(q, p, k, x) <==> p == x
  {
    MeanBetween(q, p, r, x);
    MeanBetween(q, p, k, x);
    var a, b := Mean(q, p, r, x) - p, Mean(q, p, k, x) - p;
    if a == b {
      TwoMeans(q, r, k, a, x - p);
    } else if p == x {
      MeanOfEqual(q, p, r);
      MeanOfEqual(q, p, k);
    }
  }

  lemma MeanOfEqual(q: real, p: real, r: real)
    requires q + r > 0.0
    ensures Mean(q, p, r, p) == p
  {
    Quotient(p, q * p + r * p, q + r);
  }

  /** Adding weighs the newcomer with the new total: the entry price is the mean of what was bought only where both prices agree. */
  lemma AddedEntryIsTheMeanIff(held: Position, t: Trade)
    requires held.qty > 0.0 && t.qty > 0.0
    ensures Mean(held.qty, held.averagePrice, held.qty + t.qty, t.averagePrice) == Mean(held.qty, held.averagePrice, t.qty, t.averagePrice)
      <==> held.averagePrice == t.averagePrice
  {
    hide Mean;
    SameMean(held.qty, held.averagePrice, held.qty + t.qty, t.averagePrice, t.qty);
  }

  /** Reducing moves the entry price, but where the trade is at that price or takes the whole position. */
  lemma NettedEntryStaysIff(held: Position, t: Trade)
    requires held.qty > 0.0 && t.qty > 0.0
    ensures Mean(held.qty, held.averagePrice, Abs(held.qty - t.qty), t.averagePrice) == held.averagePrice
      <==> held.qty == t.qty || held.averagePrice == t.averagePrice
  {
    hide Mean;
    var left := Abs(held.qty - t.qty);
    MeanBetween(held.qty, held.averagePrice, left, t.averagePrice);
    Scale(held.qty + left, Mean(held.qty, held.averagePrice, left, t.averagePrice) - held.averagePrice, 0.0);
    if held.qty == t.qty {
      NothingTimes(left, t.averagePrice - held.averagePrice);
    } else {
      Scale(left, t.averagePrice - held.averagePrice, 0.0);
    }
  }

  // ----- what liquidates a position

  /** The price at which the position has lost 99% of its margin. */
  ghost predicate LosesItsMarginAt(p: Position, x: real) {
    Signed(p.kind, p.qty) * (p.averagePrice - x) == 0.99 * p.margin
  }

  /** The same distance on the other side of its entry: the price at which it has gained that much. */
  ghost predicate GainsItsMarginAt(p: Position, x: real) {
    Signed(p.kind, p.qty) * (x - p.averagePrice) == 0.99 * p.margin
  }

  /** The price is no better for the position than the limit. */
  predicate NoBetterThan(kind: PositionType, price: real, limit: real) {
    if kind == LONG then price <= limit else price >= limit
  }

  lemma PricePerUnit(p: Position, x: real)
    requires p.qty > 0.0
    ensures LosesItsMarginAt(p, x) <==> x == (if p.kind == LONG then p.averagePrice - 0.99 * p.margin / p.qty else p.averagePrice + 0.99 * p.margin / p.qty)
    ensures GainsItsMarginAt(p, x) <==> x == (if p.kind == LONG then p.averagePrice + 0.99 * p.margin / p.qty else p.averagePrice - 0.99 * p.margin / p.qty)
  {
    var d := 0.99 * p.margin / p.qty;
    assert d * p.qty == 0.99 * p.margin;
    Scale(p.qty, p.averagePrice - x, d);
    Scale(p.qty, x - p.averagePrice, d);
    Distributes(p.qty, p.averagePrice, x);
    Distributes(p.qty, x, p.averagePrice);
  }

  lemma Scale(q: real, a: real, b: real)
    requires q > 0.0
    ensures q * a == q * b <==> a == b
  {
    if a < b {
      SameSign(q, b - a);
    } else if b < a {
      SameSign(q, a - b);
    }
  }

  /** There is exactly one such price. */
  lemma OnePriceLosesTheMargin(p: Position, x: real, y: real)
    requires p.qty > 0.0
    ensures exists z :: LosesItsMarginAt(p, z)
    ensures LosesItsMarginAt(p, x) && LosesItsMarginAt(p, y) ==> x == y
  {
    PricePerUnit(p, x);
    PricePerUnit(p, y);
    var z := if p.kind == LONG then p.averagePrice - 0.99 * p.margin / p.qty else p.averagePrice + 0.99 * p.margin / p.qty;
    PricePerUnit(p, z);
    assert LosesItsMarginAt(p, z);
  }

  /** The position is liquidated exactly at prices no better than the one that costs it 99% of its margin, in cents. */
  ghost predicate LiquidatedAtItsLoss(p: Position) {
    forall x, price :: LosesItsMarginAt(p, x) ==> (Liquidatable(p, price) <==> NoBetterThan(p.kind, price, Round2(x)))
  }

  /** The position is liquidated already at prices that leave it that much ahead. */
  ghost predicate LiquidatedAtItsGain(p: Position) {
    forall x, price :: GainsItsMarginAt(p, x) ==> (Liquidatable(p, price) <==> NoBetterThan(p.kind, price, Round2(x)))
  }

  lemma LiquidatedAt(p: Position, side: PositionType)
    requires p.qty > 0.0 && p.liquidationPrice == LiquidationPrice(p.margin, p.qty, side, p.averagePrice)
    ensures side == p.kind ==> LiquidatedAtItsLoss(p)
    ensures side != p.kind ==> LiquidatedAtItsGain(p)
  {
    assert p.margin - 0.01 * p.margin == 0.99 * p.margin;
    forall x, price | LosesItsMarginAt(p, x) && side == p.kind
      ensures Liquidatable(p, price) <==> NoBetterThan(p.kind, price, Round2(x)) {
      PricePerUnit(p, x);
    }
    forall x, price | GainsItsMarginAt(p, x) && side != p.kind
      ensures Liquidatable(p, price) <==> NoBetterThan(p.kind, price, Round2(x)) {
      PricePerUnit(p, x);
    }
  }

  /** The account's position in the market. */
  ghost predicate Holds(v: User, m: Uuid, p: Position) {
    WfPositions(v.positions) && p in v.positions && p.marketId == m
  }

  lemma Replaced(ps: seq<Position>, i: nat, p: Position)
    requires i < |ps|
    ensures p in ps[i := p]
  {
    assert ps[i := p][i] == p;
  }

  /**
   * A position just opened is liquidated exactly at the prices that cost it 99% of its margin or more.
   */
  lemma OpenedIsLiquidatedAtItsLoss(u: User, t: Trade, last: real)
    requires WfPositions(u.positions) && t.qty > 0.0 && FindPosition(u.positions, t.marketId) < 0
    ensures exists p ::
      && Holds(CreatePosition(u, t, last), t.marketId, p)
      && p.kind == t.kind && p.qty == t.qty && p.margin == t.margin && p.averagePrice == t.averagePrice
      && LiquidatedAtItsLoss(p)
  {
    hide LiquidationPrice, LiquidatedAtItsLoss;
    NettingAddsSignedQuantity(u, t, last, t.marketId);
    var p := Opened(t);
    LiquidatedAt(p, t.kind);
    assert (u.positions + [p])[|u.positions|] == p;
    assert Holds(CreatePosition(u, t, last), t.marketId, p);
  }

  /** So is a position added to, with what is then behind it. */
  lemma AddedIsLiquidatedAtItsLoss(u: User, t: Trade, last: real, i: nat)
    requires WfPositions(u.positions) && t.qty > 0.0 && i < |u.positions|
    requires u.positions[i].marketId == t.marketId && u.positions[i].kind == t.kind
    ensures var held := u.positions[i];
      exists p ::
        && Holds(CreatePosition(u, t, last), t.marketId, p)
        && p.kind == t.kind && p.qty == held.qty + t.qty && p.margin == held.margin + t.margin
        && p.averagePrice == Round2(Mean(held.qty, held.averagePrice, held.qty + t.qty, t.averagePrice))
        && LiquidatedAtItsLoss(p)
  {
    hide LiquidationPrice, LiquidatedAtItsLoss, Round2, WeightedMean, Mean;
    FindUnique(u.positions, t.marketId, i);
    NettingAddsSignedQuantity(u, t, last, t.marketId);
    var p := Added(u.positions[i], t);
    MeanIs(u.positions[i].qty, u.positions[i].averagePrice, p.qty, t.averagePrice);
    LiquidatedAt(p, t.kind);
    Replaced(u.positions, i, p);
    assert Holds(CreatePosition(u, t, last), t.marketId, p);
  }

  /**
   * A position turned round too. One made smaller is not: it keeps its side but is liquidated on the far
   * side of its entry, at the prices that leave it ahead by 99% of its margin or less.
   */
  lemma NettedIsLiquidatedOnTheTradesSide(u: User, t: Trade, last: real, i: nat)
    requires WfPositions(u.positions) && t.qty > 0.0 && i < |u.positions|
    requires u.positions[i].marketId == t.marketId && u.positions[i].kind != t.kind && u.positions[i].qty != t.qty
    ensures var held := u.positions[i];
      exists p ::
        && Holds(CreatePosition(u, t, last), t.marketId, p)
        && p.qty == Abs(held.qty - t.qty) && p.averagePrice == SettledEntry(held, t)
        && (t.qty > held.qty ==> p.kind == t.kind && p.margin == Share(t.margin, t.qty, t.qty - held.qty) && LiquidatedAtItsLoss(p))
        && (t.qty < held.qty ==> p.kind == held.kind && p.margin == Share(held.margin, held.qty, held.qty - t.qty) && LiquidatedAtItsGain(p))
  {
    hide LiquidationPrice, LiquidatedAtItsLoss, LiquidatedAtItsGain, SettledEntry, NettedAverage, Share, RelativeMargin;
    NettingIs(u, t, last, i);
    NettingAddsSignedQuantity(u, t, last, t.marketId);
    var held := u.positions[i];
    var p := Reduced(held, t);
    ShareIs(t.margin, t.qty, t.qty - held.qty);
    ShareIs(held.margin, held.qty, held.qty - t.qty);
    LiquidatedAt(p, t.kind);
    Replaced(u.positions, i, p);
    assert Holds(CreatePosition(u, t, last), t.marketId, p);
  }

  // ----- which side of the entry that is

  /** With margin behind it, a position liquidated at its loss is safe at every price better than its entry in cents. */
  lemma LossIsBehindTheEntry(p: Position)
    requires p.qty > 0.0 && p.margin >= 0.0 && LiquidatedAtItsLoss(p)
    ensures if p.kind == LONG then p.liquidationPrice <= Round2(p.averagePrice) else p.liquidationPrice >= Round2(p.averagePrice)
  {
    hide Round2;
    OnePriceLosesTheMargin(p, 0.0, 0.0);
    var x :| LosesItsMarginAt(p, x);
    PricePerUnit(p, x);
    assert 0.99 * p.margin / p.qty >= 0.0 by { NonNegativeQuotient(0.99 * p.margin, p.qty); }
    assert Liquidatable(p, p.liquidationPrice);
    assert Liquidatable(p, Round2(x));
    if p.kind == LONG {
      Round2Monotone(x, p.averagePrice);
    } else {
      Round2Monotone(p.averagePrice, x);
    }
  }

  lemma NonNegativeQuotient(x: real, y: real)
    requires x >= 0.0 && y > 0.0
    ensures x / y >= 0.0
  {
  }

  /** One liquidated at its gain is already under water at its own entry price in cents. */
  lemma GainIsAheadOfTheEntry(p: Position)
    requires p.qty > 0.0 && p.margin >= 0.0 && LiquidatedAtItsGain(p)
    ensures Liquidatable(p, Round2(p.averagePrice))
  {
    hide Round2;
    var d := 0.99 * p.margin / p.qty;
    NonNegativeQuotient(0.99 * p.margin, p.qty);
    var x := if p.kind == LONG then p.averagePrice + d else p.averagePrice - d;
    PricePerUnit(p, x);
    if p.kind == LONG {
      Round2Monotone(p.averagePrice, x);
    } else {
      Round2Monotone(x, p.averagePrice);
    }
  }

  /** It is liquidated where it should be if and only if the two prices are the same to the cent. */
  lemma GainIsTheLossIff(p: Position, x: real, y: real)
    requires p.qty > 0.0 && LiquidatedAtItsGain(p) && LosesItsMarginAt(p, x) && GainsItsMarginAt(p, y)
    ensures LiquidatedAtItsLoss(p) <==> Round2(x) == Round2(y)
  {
    hide Round2;
    PricePerUnit(p, x);
    assert Liquidatable(p, Round2(x)) <==> NoBetterThan(p.kind, Round2(x), Round2(y));
    assert Liquidatable(p, Round2(y)) <==> NoBetterThan(p.kind, Round2(y), Round2(y));
    if Round2(x) == Round2(y) {
      forall z, price | LosesItsMarginAt(p, z) ensures Liquidatable(p, price) <==> NoBetterThan(p.kind, price, Round2(z)) {
        PricePerUnit(p, z);
        assert z == x;
      }
    }
  }
}
