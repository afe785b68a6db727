/** One-way position netting: at most one position per market and account. */
module Positions {
  import opened Exchange
  import opened Sequences
  import opened Rounding

  /** What one execution hands to an account: the payload of a position change. */
  datatype Trade = Trade(marketId: Uuid, kind: PositionType, qty: real, margin: real, averagePrice: real)

  function FindPosition(ps: seq<Position>, m: Uuid): (i: int)
    ensures -1 <= i < |ps|
    ensures i < 0 ==> forall j :: 0 <= j < |ps| ==> ps[j].marketId != m
    ensures 0 <= i ==> ps[i].marketId == m && forall j :: 0 <= j < i ==> ps[j].marketId != m
  {
    if ps == [] then -1
    else if ps[0].marketId == m then 0
    else var k := FindPosition(ps[1..], m); if k < 0 then -1 else k + 1
  }

  function RelativeMargin(total: real, qty: real, part: real): real
    requires qty != 0.0
  {
    Round2(total / qty * part)
  }

  function WeightedAverage(q1: real, p1: real, q2: real, p2: real): real
    requires q1 + q2 != 0.0
  {
    Round2(WeightedMean(q1, p1, q2, p2))
  }

  function WeightedMean(q1: real, p1: real, q2: real, p2: real): real
    requires q1 + q2 != 0.0
  {
    (q1 * p1 + q2 * p2) / (q1 + q2)
  }

  /** The price that costs a position 99% of its margin. */
  function LiquidationPrice(margin: real, qty: real, kind: PositionType, averagePrice: real): real
    requires qty != 0.0
  {
    var loss := (margin - 0.01 * margin) / qty;
    Round2(if kind == LONG then averagePrice - loss else averagePrice + loss)
  }

  ghost predicate WfPositions(ps: seq<Position>) {
    && (forall i :: 0 <= i < |ps| ==> ps[i].qty > 0.0)
    && (forall i, j :: 0 <= i < j < |ps| ==> ps[i].marketId != ps[j].marketId)
  }

  function Abs(x: real): real {
    if x < 0.0 then -x else x
  }

  /** The entry price after netting `t` against `e`; the newcomer weighs in with the quantity left over. */
  function NettedAverage(e: Position, t: Trade): real
    requires e.qty > 0.0
  {
    WeightedAverage(e.qty, e.averagePrice, Abs(e.qty - t.qty), t.averagePrice)
  }

  function RealisedPnl(e: Position, t: Trade, last: real): real
    requires e.qty > 0.0
  {
    var now, then_ := last * t.qty, NettedAverage(e, t) * t.qty;
    if e.kind == LONG then now - then_ else then_ - now
  }

  function NettedMargin(e: Position, t: Trade): real
    requires e.qty > 0.0 && t.qty > 0.0
  {
    var left := e.qty - t.qty;
    if left == 0.0 then e.margin
    else if left > 0.0 then RelativeMargin(e.margin, e.qty, left)
    else RelativeMargin(t.margin, t.qty, -left)
  }

  function Opened(t: Trade): Position
    requires t.qty > 0.0
  {
    Position(t.marketId, t.kind, t.qty, t.margin, t.averagePrice,
      LiquidationPrice(t.margin, t.qty, t.kind, t.averagePrice))
  }

  function Added(e: Position, t: Trade): Position
    requires e.qty > 0.0 && t.qty > 0.0
  {
    var qty := e.qty + t.qty;
    var average := WeightedAverage(e.qty, e.averagePrice, qty, t.averagePrice);
    var margin := e.margin + t.margin;
    e.(averagePrice := average, qty := qty, margin := margin,
       liquidationPrice := LiquidationPrice(margin, qty, t.kind, average))
  }

  /** What is left of `e`, on whichever side prevailed. */
  function Reduced(e: Position, t: Trade): Position
    requires e.qty > 0.0 && t.qty > 0.0 && e.qty != t.qty
  {
    var qty := Abs(e.qty - t.qty);
    var average := NettedAverage(e, t);
    var margin := NettedMargin(e, t);
    e.(kind := if e.qty < t.qty then t.kind else e.kind, averagePrice := average, qty := qty, margin := margin,
       liquidationPrice := LiquidationPrice(margin, qty, t.kind, average))
  }

  function Net(u: User, i: nat, t: Trade, last: real): User
    requires i < |u.positions| && u.positions[i].qty > 0.0 && t.qty > 0.0
  {
    var e := u.positions[i];
    var margin := NettedMargin(e, t);
    var settled := u.(available := u.available + (RealisedPnl(e, t, last) + margin), locked := u.locked - margin);
    if e.qty == t.qty
    then settled.(positions := RemoveAt(u.positions, i), closedPositions := u.closedPositions + [e])
    else settled.(positions := u.positions[i := Reduced(e, t)])
  }

  function CreatePosition(u: User, t: Trade, last: real): User
    requires WfPositions(u.positions) && t.qty > 0.0
  {
    var i := FindPosition(u.positions, t.marketId);
    if i < 0 then u.(positions := u.positions + [Opened(t)])
    else if u.positions[i].kind != t.kind then Net(u, i, t, last)
    else u.(positions := u.positions[i := Added(u.positions[i], t)])
  }

  /** The PnL a trade books: the netting's, and nothing when there is nothing to net. */
  function Booked(u: User, t: Trade, last: real): real
    requires WfPositions(u.positions) && t.qty > 0.0
  {
    var i := FindPosition(u.positions, t.marketId);
    if i < 0 || u.positions[i].kind == t.kind then 0.0 else RealisedPnl(u.positions[i], t, last)
  }

  // ----- exposure

  function Signed(kind: PositionType, qty: real): real {
    if kind == LONG then qty else -qty
  }

  /** What an account holds in a market: positive when long, negative when short. */
  function Exposure(ps: seq<Position>, m: Uuid): real {
    var i := FindPosition(ps, m);
    if i < 0 then 0.0 else Signed(ps[i].kind, ps[i].qty)
  }

  lemma FindUnique(ps: seq<Position>, m: Uuid, i: nat)
    requires WfPositions(ps) && i < |ps| && ps[i].marketId == m
    ensures FindPosition(ps, m) == i
  {
  }

  lemma ExposureAfterUpdate(ps: seq<Position>, i: nat, p: Position, m: Uuid)
    requires WfPositions(ps) && i < |ps| && p.qty > 0.0 && p.marketId == ps[i].marketId
    ensures WfPositions(ps[i := p])
    ensures Exposure(ps[i := p], m) == if m == p.marketId then Signed(p.kind, p.qty) else Exposure(ps, m)
  {
    var qs := ps[i := p];
    assert forall j :: 0 <= j < |ps| ==> qs[j].marketId == ps[j].marketId;
    var k := FindPosition(ps, m);
    if 0 <= k {
      FindUnique(qs, m, k);
    }
    if m == p.marketId {
      FindUnique(qs, m, i);
    }
  }

  lemma DropKeepsWf(ps: seq<Position>, i: nat)
    requires WfPositions(ps) && i < |ps|
    ensures WfPositions(RemoveAt(ps, i))
  {
    var qs := RemoveAt(ps, i);
    forall a, b | 0 <= a < b < |qs| ensures qs[a].marketId != qs[b].marketId {
      assert qs[a] == ps[if a < i then a else a + 1];
      assert qs[b] == ps[if b < i then b else b + 1];
    }
  }

  lemma ExposureAfterRemoveAt(ps: seq<Position>, i: nat, m: Uuid)
    requires WfPositions(ps) && i < |ps|
    ensures WfPositions(RemoveAt(ps, i))
    ensures Exposure(RemoveAt(ps, i), m) == if m == ps[i].marketId then 0.0 else Exposure(ps, m)
  {
    DropKeepsWf(ps, i);
    var qs := RemoveAt(ps, i);
    var k := FindPosition(ps, m);
    if 0 <= k && k != i {
      FindUnique(qs, m, if k < i then k else k - 1);
    } else {
      forall j | 0 <= j < |qs| ensures qs[j].marketId != m {
        assert qs[j] == ps[if j < i then j else j + 1];
      }
    }
  }

  lemma ExposureAfterPush(ps: seq<Position>, p: Position, m: Uuid)
    requires WfPositions(ps) && p.qty > 0.0 && FindPosition(ps, p.marketId) < 0
    ensures WfPositions(ps + [p])
    ensures Exposure(ps + [p], m) == if m == p.marketId then Signed(p.kind, p.qty) else Exposure(ps, m)
  {
    var qs := ps + [p];
    assert forall j :: 0 <= j < |ps| ==> qs[j] == ps[j];
    assert qs[|ps|] == p;
    assert WfPositions(qs);
    var k := FindPosition(ps, m);
    if 0 <= k {
      FindUnique(qs, m, k);
    } else if m == p.marketId {
      FindUnique(qs, m, |ps|);
    }
  }

  /**
   * Adding, reducing, closing and flipping are all one thing: the trade's signed quantity is added
   * to what the account holds in that market, and no other market is touched.
   */
  lemma NettingAddsSignedQuantity(u: User, t: Trade, last: real, m: Uuid)
    requires WfPositions(u.positions) && t.qty > 0.0
    ensures WfPositions(CreatePosition(u, t, last).positions)
    ensures Exposure(CreatePosition(u, t, last).positions, m)
      == Exposure(u.positions, m) + if m == t.marketId then Signed(t.kind, t.qty) else 0.0
  {
    var i := FindPosition(u.positions, t.marketId);
    if i < 0 {
      ExposureAfterPush(u.positions, Opened(t), m);
    } else if u.positions[i].kind == t.kind {
      ExposureAfterUpdate(u.positions, i, Added(u.positions[i], t), m);
    } else if u.positions[i].qty == t.qty {
      ExposureAfterRemoveAt(u.positions, i, m);
    } else {
      ExposureAfterUpdate(u.positions, i, Reduced(u.positions[i], t), m);
    }
  }

  /** Margin only moves between the two halves of the collateral; the booked PnL is all that enters it. */
  lemma NettingMovesEquityByPnl(u: User, t: Trade, last: real)
    requires WfPositions(u.positions) && t.qty > 0.0
    ensures var v := CreatePosition(u, t, last);
      v.available + v.locked == u.available + u.locked + Booked(u, t, last)
  {
  }

  // ----- entry prices

  /** `x` lies between two printed prices, each widened to its own cent. */
  ghost predicate Between(x: real, prints: set<real>) {
    && (exists a :: a in prints && Below(a) <= x)
    && (exists b :: b in prints && x <= Above(b))
  }

  ghost predicate AveragesBetween(ps: seq<Position>, m: Uuid, prints: set<real>) {
    forall i :: 0 <= i < |ps| && ps[i].marketId == m ==> Between(ps[i].averagePrice, prints)
  }

  lemma DivBetween(n: real, d: real, lo: real, hi: real)
    requires d > 0.0 && lo * d <= n <= hi * d
    ensures lo <= n / d <= hi
  {
    var q := n / d;
    assert q * d == n;
    assert q < lo ==> (lo - q) * d > 0.0;
    assert hi < q ==> (q - hi) * d > 0.0;
  }

  lemma ScaledSumAtLeast(lo: real, q1: real, x: real, q2: real, y: real)
    requires 0.0 <= q1 && 0.0 <= q2 && lo <= x && lo <= y
    ensures lo * (q1 + q2) <= q1 * x + q2 * y
  {
    NonNegativeProduct(q1, x - lo);
    NonNegativeProduct(q2, y - lo);
  }

  lemma ScaledSumAtMost(q1: real, x: real, q2: real, y: real, hi: real)
    requires 0.0 <= q1 && 0.0 <= q2 && x <= hi && y <= hi
    ensures q1 * x + q2 * y <= hi * (q1 + q2)
  {
    NonNegativeProduct(q1, hi - x);
    NonNegativeProduct(q2, hi - y);
  }

  lemma WeightedMeanBetween(q1: real, x: real, q2: real, y: real, lo: real, hi: real)
    requires q1 > 0.0 && q2 >= 0.0
    requires lo <= x <= hi && lo <= y <= hi
    ensures lo <= WeightedMean(q1, x, q2, y) <= hi
  {
    ScaledSumAtLeast(lo, q1, x, q2, y);
    ScaledSumAtMost(q1, x, q2, y, hi);
    DivBetween(q1 * x + q2 * y, q1 + q2, lo, hi);
  }

  lemma RoundedStaysBetween(x: real, prints: set<real>)
    requires Between(x, prints)
    ensures Between(Round2(x), prints)
  {
    var a :| a in prints && Below(a) <= x;
    var b :| b in prints && x <= Above(b);
    RoundingStaysInBand(a, x, b);
  }

  lemma RoundedMiddleIsBetween(x: real, y: real, mean: real, prints: set<real>)
    requires Between(x, prints) && Between(y, prints)
    requires (if x < y then x else y) <= mean <= (if x < y then y else x)
    ensures Between(Round2(mean), prints)
  {
    assert Between(mean, prints);
    RoundedStaysBetween(mean, prints);
  }

  lemma AverageStaysBetween(q1: real, x: real, q2: real, y: real, prints: set<real>)
    requires q1 > 0.0 && q2 >= 0.0 && Between(x, prints) && Between(y, prints)
    ensures Between(WeightedAverage(q1, x, q2, y), prints)
  {
    var mean := WeightedMean(q1, x, q2, y);
    WeightedMeanBetween(q1, x, q2, y, if x < y then x else y, if x < y then y else x);
    RoundedMiddleIsBetween(x, y, mean, prints);
  }

  /** Trading at prices of the band keeps every entry price in the band, in this market and the others. */
  lemma NettingKeepsAveragesBetween(u: User, t: Trade, last: real, m: Uuid, prints: set<real>)
    requires WfPositions(u.positions) && t.qty > 0.0
    requires AveragesBetween(u.positions, m, prints)
    requires m == t.marketId ==> Between(t.averagePrice, prints)
    ensures AveragesBetween(CreatePosition(u, t, last).positions, m, prints)
  {
    var i := FindPosition(u.positions, t.marketId);
    if i >= 0 && m == t.marketId {
      var e := u.positions[i];
      AverageStaysBetween(e.qty, e.averagePrice, Abs(e.qty - t.qty), t.averagePrice, prints);
      AverageStaysBetween(e.qty, e.averagePrice, e.qty + t.qty, t.averagePrice, prints);
    }
  }

  lemma MorePrintsKeepAverages(ps: seq<Position>, m: Uuid, prints: set<real>, more: set<real>)
    requires AveragesBetween(ps, m, prints) && prints <= more
    ensures AveragesBetween(ps, m, more)
  {
  }

  /** With whole-cent prices the band is exactly the printed range. */
  lemma CentPricesNeedNoWidening(n: int)
    ensures Below(Cents(n)) == Cents(n) == Above(Cents(n))
  {
    Round2FixesCents(n);
  }
}
