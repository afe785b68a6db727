/** The terms of an order. */
module OrderTerms {
  import opened Exchange
  import opened Sequences
  import opened Rounding
  import opened Books
  import opened Positions
  import opened Matching
  import opened Engine
  import opened EngineBooks
  import opened EngineSteps
  import opened EngineClose
  import opened EngineResting
  import opened PositionWorth

  // ----- market orders

  /** The lowest ask for a buyer, the highest bid for a seller. */
  ghost predicate BestOffer(b: Book, side: PositionType, best: real) {
    if side == LONG then best in b.asks && forall q :: q in b.asks ==> best <= q
    else best in b.bids && forall q :: q in b.bids ==> q <= best
  }

  /** The worst price the row names: its limit, or the best offer widened by its slippage. */
  ghost predicate WorstPrice(b: Book, row: Order, limit: real) {
    if row.orderType == Limit then limit == row.price
    else exists best :: BestOffer(b, row.positionType, best) && limit == Widened(row, best)
  }

  lemma OneBestOffer(b: Book, side: PositionType, best: real)
    ensures BestOffer(b, side, best) <==> Side(b, Opposite(side)) != map[] && best == BestPrice(Opposite(side), Side(b, Opposite(side)))
  {
    var levels := Side(b, Opposite(side));
    if levels != map[] {
      assert IsBest(Opposite(side), levels, BestPrice(Opposite(side), levels));
    }
  }

  lemma OneWorstPrice(b: Book, row: Order, x: real, y: real)
    requires WorstPrice(b, row, x) && WorstPrice(b, row, y)
    ensures x == y
  {
    hide Widened;
    if row.orderType == Market {
      var p :| BestOffer(b, row.positionType, p) && x == Widened(row, p);
      var q :| BestOffer(b, row.positionType, q) && y == Widened(row, q);
    }
  }

  /** What the engine may trade an admitted order at is the worst price the order names. */
  lemma BoundIsTheWorstPrice(s: Store, row: Order)
    requires Admit(s, row).Admitted?
    ensures row.marketId in s.books && WorstPrice(s.books[row.marketId], row, Admit(s, row).order.price)
  {
    hide WithSlippage, Widened, LeverageAllowed, BestOffer;
    AdmittedKeepsIdentity(s, row);
    if row.orderType == Market {
      var b, kind := s.books[row.marketId], Opposite(row.positionType);
      var best := BestPrice(kind, Side(b, kind));
      OneBestOffer(b, row.positionType, best);
      SlippageWidens(CheckMargin(s.users[row.userId], row).order, best);
      SlippageWidens(row, best);
    }
  }

  /** The bound of an admitted market order: the best offer, widened by its slippage against its sender. */
  lemma MarketOrderBound(s: Store, row: Order)
    requires Admit(s, row).Admitted? && row.orderType == Market
    ensures row.marketId in s.books && exists best ::
      && BestOffer(s.books[row.marketId], row.positionType, best)
      && Admit(s, row).order.price
           == (if row.positionType == LONG then best * (1.0 + row.slippage / 100.0) else best * (1.0 - row.slippage / 100.0))
  {
    hide Admit, BestOffer;
    BoundIsTheWorstPrice(s, row);
  }

  lemma WideningCovers(row: Order, best: real)
    requires row.slippage >= 0.0 && best > 0.0
    ensures Acceptable(Opposite(row.positionType), best, Widened(row, best))
  {
    NonNegativeProduct(best, row.slippage / 100.0);
    assert best * (1.0 + row.slippage / 100.0) == best + best * (row.slippage / 100.0);
    assert best * (1.0 - row.slippage / 100.0) == best - best * (row.slippage / 100.0);
  }

  /** What a placement reports is the walk over the queue: its fills, their quantity and their price total. */
  lemma FillsAreTaken(s: Store, row: Order, now: int)
    requires WfStore(s) && row.qty > 0.0 && Admit(s, row).Admitted?
    ensures var p, es := Place(s, row, now), Taken(s, row);
      p.Placed? && p.fills == FillsOf(es, Admit(s, row).order) && p.filled == TotalQty(es) && p.total == TotalPrice(es)
  {
    hide WfStore, MatchFrom, UsersAfter, BookAfter, BookingsAfter, AveragePrice, StatusAfter, Queue, Greedy, Admit;
    AdmittedKeepsIdentity(s, row);
    var o, reducing := Admit(s, row).order, Admit(s, row).reducing;
    StartIsReady(s, o, reducing);
    var start := Start(s.books[o.marketId], LockFor(s.users, o, reducing), o);
    MatchingIsPriceTimePriority(start, o);
    assert [] + FillsOf(Taken(s, row), o) == FillsOf(Taken(s, row), o);
  }

  /** The walk stays within the limit and starts at the front. */
  lemma {:induction false} GreedyWithin(q: seq<Slot>, kind: PositionType, limit: real, need: real, o: Order)
    requires Served(q, kind) && need >= 0.0
    ensures var fs := FillsOf(Greedy(q, kind, limit, need), o);
      forall f :: f in fs ==> q != [] && Rank(kind, q[0].price) <= Rank(kind, f.price) <= Rank(kind, limit)
  {
    if q != [] && need > 0.0 && Acceptable(kind, q[0].price, limit) {
      var take := Min(Unfilled(q[0].order), need);
      GreedyWithin(q[1..], kind, limit, need - take, o);
      assert Greedy(q, kind, limit, need)[1..] == Greedy(q[1..], kind, limit, need - take);
      assert q[1..] != [] ==> q[1..][0] == q[1];
    }
  }

  lemma {:induction false} SomethingTaken(q: seq<Slot>, kind: PositionType, limit: real, need: real, o: Order)
    requires Served(q, kind) && need > 0.0 && q != [] && Acceptable(kind, q[0].price, limit)
    ensures TotalQty(Greedy(q, kind, limit, need)) > 0.0 && FillsOf(Greedy(q, kind, limit, need), o) != []
  {
    var take := Min(Unfilled(q[0].order), need);
    GreedyTakesAllItCan(q[1..], kind, limit, need - take);
    LiquidityNonNegative(q[1..], kind, limit);
    assert Greedy(q, kind, limit, need)[1..] == Greedy(q[1..], kind, limit, need - take);
  }

  lemma FacingIsServed(s: Store, m: Uuid, kind: PositionType)
    requires WfStore(s) && m in s.books
    ensures var levels := Side(s.books[m], kind);
      && Served(Queue(kind, levels), kind)
      && (forall p :: p in levels ==> p > 0.0)
      && (levels != map[] ==> Queue(kind, levels) != [] && Queue(kind, levels)[0].price == BestPrice(kind, levels))
  {
    var levels := Side(s.books[m], kind);
    assert WfBook(s.books[m], m, s.users);
    assert SideWf(s.books[m], kind, m, s.users);
    QueueIsServed(kind, levels, m);
    if levels != map[] {
      QueueLosesItsHead(kind, levels, m, BestPrice(kind, levels));
    }
  }

  /**
   * A market order that is let through fills: with slippage of nothing or more the best offer is within
   * its bound, so something trades, all of it between the two.
   */
  lemma MarketOrderFills(s: Store, row: Order, now: int)
    requires WfStore(s) && LegalRow(row) && Admit(s, row).Admitted? && row.orderType == Market && row.slippage >= 0.0
    ensures var p := Place(s, row, now);
      && p.Placed? && p.filled > 0.0 && p.fills != []
      && row.marketId in s.books
      && exists best :: BestOffer(s.books[row.marketId], row.positionType, best) && forall f :: f in p.fills ==>
           if row.positionType == LONG then best <= f.price <= Widened(row, best) else Widened(row, best) <= f.price <= best
  {
    hide Widened, Place, Admit, WfStore, Queue, Greedy, TotalQty, BestOffer, Served, FillsOf;
    AdmittedKeepsIdentity(s, row);
    FillsAreTaken(s, row, now);
    BoundIsTheWorstPrice(s, row);
    var b, kind, o := s.books[row.marketId], Opposite(row.positionType), Admit(s, row).order;
    var best :| BestOffer(b, row.positionType, best) && o.price == Widened(row, best);
    OneBestOffer(b, row.positionType, best);
    FacingIsServed(s, row.marketId, kind);
    WideningCovers(row, best);
    SomethingTaken(Queue(kind, Side(b, kind)), kind, o.price, row.qty, o);
    GreedyWithin(Queue(kind, Side(b, kind)), kind, o.price, row.qty, o);
  }

  // ----- orders with margin

  /** A row that names no known market or account is refused as such, before anything else is looked at. */
  lemma UnknownIsRefused(s: Store, row: Order)
    ensures Admit(s, row) == Refused(UnsupportedMarket) <==> row.marketId !in s.books
    ensures Admit(s, row) == Refused(UnknownUser) <==> row.marketId in s.books && row.userId !in s.users
  {
  }

  /**
   * An order with margin that is no closing one is let through exactly when the free collateral covers the
   * margin, there is a price to trade at, and the size at that price is within the market's leverage of
   * the margin; the first of the three that fails is the error. It keeps its margin.
   */
  lemma MarginedAdmission(s: Store, row: Order)
    requires row.marketId in s.books && row.userId in s.users && row.initialMargin != 0.0 && !AtMostTwiceHeld(s, row)
    ensures var a, u, b := Admit(s, row), s.users[row.userId], s.books[row.marketId];
      && (a == Refused(InsufficientMargin) <==> u.available < row.initialMargin)
      && (a == Refused(NoMatches) <==> u.available >= row.initialMargin && !exists limit :: WorstPrice(b, row, limit))
      && (a.Admitted? <==>
            && u.available >= row.initialMargin
            && exists limit :: WorstPrice(b, row, limit) && limit * row.qty / row.initialMargin <= b.allowedLeverage)
      && (a.Refused? ==> a.error in {InsufficientMargin, NoMatches, LeverageNotSupported})
      && (a.Admitted? ==> !a.reducing && a.order == row.(price := a.order.price))
  {
    hide WithSlippage, Widened, BestOffer;
    var u, b, kind := s.users[row.userId], s.books[row.marketId], Opposite(row.positionType);
    assert CheckMargin(u, row) == if u.available < row.initialMargin then Refused(InsufficientMargin) else Admitted(row, false);
    if row.orderType == Limit {
      assert WorstPrice(b, row, row.price);
    } else if Side(b, kind) == map[] {
      forall best ensures !BestOffer(b, row.positionType, best) {
        OneBestOffer(b, row.positionType, best);
      }
    } else {
      var best := BestPrice(kind, Side(b, kind));
      OneBestOffer(b, row.positionType, best);
      SlippageWidens(row, best);
      assert WorstPrice(b, row, Widened(row, best));
      forall limit | WorstPrice(b, row, limit) ensures limit == Widened(row, best) {
        OneWorstPrice(b, row, limit, Widened(row, best));
      }
    }
  }

  /** Without margin, and against nothing held or more than twice what is held, it is refused. */
  lemma MarginlessIsRefused(s: Store, row: Order)
    requires row.marketId in s.books && row.userId in s.users && row.initialMargin == 0.0 && !AtMostTwiceHeld(s, row)
    ensures Admit(s, row) == Refused(if Held(s, row) < 0 then MarginRequired else RiskIncreasing)
  {
  }

  lemma LeverageCovers(x: real, margin: real, most: real)
    requires margin > 0.0 && x / margin <= most
    ensures x <= most * margin
  {
    assert x / margin * margin == x;
    NonNegativeProduct(most - x / margin, margin);
  }

  /** What an order with margin may come to is within the market's leverage of it, and its sender has the margin. */
  lemma AdmittedOrderIsCovered(s: Store, row: Order, limit: real)
    requires row.marketId in s.books && row.userId in s.users && row.initialMargin > 0.0 && !AtMostTwiceHeld(s, row)
    requires Admit(s, row).Admitted? && WorstPrice(s.books[row.marketId], row, limit)
    ensures row.initialMargin <= s.users[row.userId].available
    ensures limit * row.qty <= s.books[row.marketId].allowedLeverage * row.initialMargin
  {
    hide Admit, WorstPrice;
    MarginedAdmission(s, row);
    var y :| WorstPrice(s.books[row.marketId], row, y) && y * row.qty / row.initialMargin <= s.books[row.marketId].allowedLeverage;
    OneWorstPrice(s.books[row.marketId], row, y, limit);
    LeverageCovers(y * row.qty, row.initialMargin, s.books[row.marketId].allowedLeverage);
  }

  // ----- what it is charged

  /** The order is not against a position, and meets none of its sender's own orders. */
  ghost predicate Opens(s: Store, row: Order)
    requires Admit(s, row).Admitted?
  {
    AdmittedKeepsIdentity(s, row);
    && row.initialMargin > 0.0
    && (Held(s, row) >= 0 ==> HeldPosition(s, row).kind == row.positionType)
    && NoOwnOrders(Facing(s, row), Admit(s, row).order)
  }

  lemma {:induction false} NoOwnMakerTrades(q: seq<Slot>, kind: PositionType, limit: real, need: real, u: Uuid)
    requires forall i :: 0 <= i < |q| && Acceptable(kind, q[i].price, limit) ==> q[i].order.userId != u
    ensures MakerTrades(Greedy(q, kind, limit, need), u) == []
  {
    if q != [] && need > 0.0 && Acceptable(kind, q[0].price, limit) {
      var take := Min(Unfilled(q[0].order), need);
      assert forall i :: 0 <= i < |q[1..]| ==> q[1..][i] == q[i + 1];
      NoOwnMakerTrades(q[1..], kind, limit, need - take, u);
      MakerTradesCons(Execution(q[0], take), Greedy(q[1..], kind, limit, need - take), u);
    }
  }

  /** While such an order matches, its margin is locked and its sender is otherwise left alone. */
  lemma MatchedWithMarginLocked(s: Store, row: Order)
    requires WfStore(s) && row.qty > 0.0 && Admit(s, row).Admitted? && Opens(s, row)
    ensures row.userId in s.users && row.marketId in s.books
    ensures var o, u := Admit(s, row).order, s.users[row.userId];
      && o.marketId == row.marketId && o.userId == row.userId && o.qty == row.qty && o.initialMargin == row.initialMargin
      && !Admit(s, row).reducing
      && var st := Matched(s, o, false);
      && row.userId in st.users
      && st.users[row.userId] == u.(available := u.available - row.initialMargin, locked := u.locked + row.initialMargin)
  {
    hide WfStore, MatchFrom, Queue, Greedy, MakerTrades, Ready, Admit;
    AdmittedKeepsIdentity(s, row);
    MarginedAdmission(s, row);
    var o, kind := Admit(s, row).order, Opposite(row.positionType);
    var start := Start(s.books[o.marketId], LockFor(s.users, o, false), o);
    StartIsReady(s, o, false);
    MatchIsMakerTrades(start, o, row.userId);
    var q := Queue(kind, start.levels);
    forall i | 0 <= i < |q| && Acceptable(kind, q[i].price, o.price) ensures q[i].order.userId != row.userId {
      SlotsComeFromLevels(kind, start.levels, i);
    }
    NoOwnMakerTrades(q, kind, o.price, o.qty, row.userId);
  }

  /** What the account holds in the market after it traded on a side it did not hold the opposite of. */
  ghost predicate Grown(u: User, v: User, i: int, t: Trade)
    requires i < |u.positions| && (i >= 0 ==> u.positions[i].qty > 0.0) && t.qty > 0.0
  {
    exists p ::
      && Holds(v, t.marketId, p) && p.kind == t.kind && LiquidatedAtItsLoss(p)
      && p.qty == t.qty + (if i < 0 then 0.0 else u.positions[i].qty)
      && p.margin == t.margin + (if i < 0 then 0.0 else u.positions[i].margin)
      && p.averagePrice == if i < 0 then t.averagePrice
                           else Round2(Mean(u.positions[i].qty, u.positions[i].averagePrice, u.positions[i].qty + t.qty, t.averagePrice))
  }

  lemma TradeGrows(u: User, t: Trade, last: real)
    requires WfPositions(u.positions) && t.qty > 0.0
    requires var i := FindPosition(u.positions, t.marketId); i >= 0 ==> u.positions[i].kind == t.kind
    ensures Grown(u, CreatePosition(u, t, last), FindPosition(u.positions, t.marketId), t)
    ensures var v := CreatePosition(u, t, last); v.available == u.available && v.locked == u.locked
  {
    hide CreatePosition, LiquidatedAtItsLoss, Round2, Mean;
    var i := FindPosition(u.positions, t.marketId);
    if i < 0 {
      OpenedIsLiquidatedAtItsLoss(u, t, last);
    } else {
      AddedIsLiquidatedAtItsLoss(u, t, last, i);
      forall j | 0 <= j < |u.positions| && u.positions[j].marketId == t.marketId ensures u.positions[j].kind == t.kind {
        FindUnique(u.positions, t.marketId, j);
      }
    }
    OtherTradesPayNothing(u, t, last);
  }

  lemma TakerTradeIs(st: Progress, o: Order)
    requires o.qty > 0.0 && st.filled > 0.0
    ensures TakerTrade(st, o)
      == Trade(o.marketId, o.positionType, st.filled, Share(o.initialMargin, o.qty, st.filled), Round2(st.total / st.filled))
  {
    hide Round2;
    ShareIs(o.initialMargin, o.qty, st.filled);
  }

  /**
   * An order with margin moves exactly its margin from available to locked. What it fills is held on its
   * side, at the cent rounding of what the fills cost per unit, with its share of the margin behind it.
   */
  lemma OpeningLocksItsMargin(s: Store, row: Order, now: int)
    requires WfStore(s) && LegalRow(row) && Admit(s, row).Admitted? && Opens(s, row)
    ensures var p := Place(s, row, now);
      && p.Placed? && row.userId in s.users && row.userId in p.store.users
      && var u, v := s.users[row.userId], p.store.users[row.userId];
      && v.available == u.available - row.initialMargin && v.locked == u.locked + row.initialMargin
      && (p.filled <= 0.0 ==> v.positions == u.positions)
      && (p.filled > 0.0 ==> WfPositions(u.positions) && Grown(u, v, FindPosition(u.positions, row.marketId),
            Trade(row.marketId, row.positionType, p.filled, Share(row.initialMargin, row.qty, p.filled), Round2(p.total / p.filled))))
  {
    hide WfStore, Matched, BookAfter, BookingsAfter, AveragePrice, StatusAfter, Grown, Share, Round2, Admit, Opens, TakerTrade, CreatePosition;
    MatchedWithMarginLocked(s, row);
    KnownPositions(s, row.userId);
    AdmittedKeepsIdentity(s, row);
    var o := Admit(s, row).order;
    var st := Matched(s, o, false);
    if st.filled > 0.0 {
      OpensWithout(s, row);
      TakerTradeIs(st, o);
      TradeGrows(st.users[row.userId], TakerTrade(st, o), st.last);
      GrownFromLocked(s.users[row.userId], st.users[row.userId], CreatePosition(st.users[row.userId], TakerTrade(st, o), st.last),
        FindPosition(s.users[row.userId].positions, row.marketId), TakerTrade(st, o));
    }
  }

  lemma OpensWithout(s: Store, row: Order)
    requires Admit(s, row).Admitted? && Opens(s, row)
    ensures row.userId in s.users
    ensures var i := FindPosition(s.users[row.userId].positions, row.marketId);
      i >= 0 ==> s.users[row.userId].positions[i].kind == row.positionType
  {
  }

  lemma GrownFromLocked(u: User, w: User, v: User, i: int, t: Trade)
    requires w.positions == u.positions && i < |u.positions| && (i >= 0 ==> u.positions[i].qty > 0.0) && t.qty > 0.0
    requires Grown(w, v, i, t)
    ensures Grown(u, v, i, t)
  {
  }

  /** What a limit order does not fill rests on its own side at its own price, with its share of the margin. */
  lemma RemainderRests(s: Store, row: Order, now: int)
    requires WfStore(s) && LegalRow(row) && Admit(s, row).Admitted? && row.orderType == Limit && Place(s, row, now).filled < row.qty
    ensures var p, margin := Place(s, row, now), Admit(s, row).order.initialMargin;
      && p.Placed? && row.marketId in p.store.books
      && var b := p.store.books[row.marketId];
      var side := if row.positionType == LONG then b.bids else b.asks;
      && row.price in side
      && OpenOrder(row.id, row.userId, row.marketId, row.positionType, row.qty, p.filled, Share(margin, row.qty, row.qty - p.filled), Open, now)
           in side[row.price].openOrders
  {
    hide WfStore, Matched, UsersAfter, BookingsAfter, AveragePrice, StatusAfter, Share, Admit;
    AdmittedKeepsIdentity(s, row);
    var o, reducing := Admit(s, row).order, Admit(s, row).reducing;
    MatchedQuantities(s, o, reducing);
    var st := Matched(s, o, reducing);
    ShareIs(o.initialMargin, o.qty, st.remaining);
    var r := RestingOrder(st, o, now);
    var os := Append(Side(s.books[row.marketId], row.positionType), row.price, r)[row.price].openOrders;
    assert os[|os| - 1] == r;
  }

  // ----- cancelling gives it back

  /** No offer of the other side is within the row's limit. */
  ghost predicate MeetsNothing(b: Book, row: Order) {
    if row.positionType == LONG then forall p :: p in b.asks ==> p > row.price else forall p :: p in b.bids ==> p < row.price
  }

  /** No order of that id stands at the row's price. */
  ghost predicate NewId(b: Book, row: Order) {
    var side := Side(b, row.positionType);
    row.price in side ==> forall r :: r in side[row.price].openOrders ==> r.orderId != row.id
  }

  lemma NothingToMatch(s: Store, o: Order, reducing: bool)
    requires WfStore(s) && o.marketId in s.books && o.userId in s.users && MeetsNothing(s.books[o.marketId], o)
    ensures Matched(s, o, reducing) == Start(s.books[o.marketId], LockFor(s.users, o, reducing), o)
  {
    StartIsReady(s, o, reducing);
    var levels := Side(s.books[o.marketId], Opposite(o.positionType));
    if levels != map[] {
      assert IsBest(Opposite(o.positionType), levels, BestPrice(Opposite(o.positionType), levels));
    }
  }

  lemma FindAppended(os: seq<OpenOrder>, r: OpenOrder)
    requires forall x :: x in os ==> x.orderId != r.orderId
    ensures FindOrder(os + [r], r.orderId) == |os|
  {
    var all := os + [r];
    assert all[|os|] == r;
    forall j | 0 <= j < |os| ensures all[j].orderId != r.orderId {
      assert os[j] in os;
    }
  }

  /** Taking the last order of a level off again leaves the side as it was. */
  lemma AppendThenTakeOff(levels: Levels, p: real, r: OpenOrder, kind: PositionType, m: Uuid)
    requires WfLevels(levels, kind, m) && Unfilled(r) > 0.0
    requires p in levels ==> forall x :: x in levels[p].openOrders ==> x.orderId != r.orderId
    ensures var after := Append(levels, p, r);
      var i := FindOrder(after[p].openOrders, r.orderId);
      && p in after && after[p].availableQty > 0.0
      && i >= 0 && after[p].openOrders[i] == r && WithoutOrder(after, p, i) == levels
  {
    var after := Append(levels, p, r);
    var os := if p in levels then levels[p].openOrders else [];
    assert after[p].openOrders == os + [r];
    FindAppended(os, r);
    assert RemoveAt(os + [r], |os|) == os;
    if p in levels {
      assert WfLevel(levels[p], kind, m);
      RemainingPositive(levels[p].openOrders, kind, m);
      assert after[p := levels[p]] == levels;
    } else {
      assert after - {p} == levels;
    }
  }

  /** What a resting order that met nothing is: the row, with its margin in cents. */
  function Untouched(row: Order, margin: real, now: int): OpenOrder {
    OpenOrder(row.id, row.userId, row.marketId, row.positionType, row.qty, 0.0, Round2(margin), Open, now)
  }

  lemma WholeShare(total: real, qty: real)
    requires qty != 0.0
    ensures RelativeMargin(total, qty, qty) == Round2(total)
  {
    hide Round2;
    assert total / qty * qty == total;
  }

  /** Placing an order that meets nothing locks its margin and adds it to its side; nothing else happens. */
  lemma RestsWhole(s: Store, row: Order, now: int)
    requires WfStore(s) && LegalRow(row) && row.orderType == Limit && Admit(s, row).Admitted? && MeetsNothing(s.books[row.marketId], row)
    requires Admit(s, row).order.initialMargin >= 0.0
    ensures var p, o, b := Place(s, row, now), Admit(s, row).order, s.books[row.marketId];
      && p.Placed? && p.filled == 0.0 && p.fills == []
      && row.userId in s.users
      && var u, locked := s.users[row.userId], if Admit(s, row).reducing then 0.0 else o.initialMargin;
      p.store == s.(
        users := s.users[row.userId := u.(available := u.available - locked, locked := u.locked + locked)],
        books := s.books[row.marketId :=
          WithSide(b, row.positionType, Append(Side(b, row.positionType), row.price, Untouched(row, o.initialMargin, now)))])
  {
    hide WfStore, MatchFrom, Append, Round2, Queue;
    AdmittedKeepsIdentity(s, row);
    var o, reducing := Admit(s, row).order, Admit(s, row).reducing;
    NothingToMatch(s, o, reducing);
    WholeShare(o.initialMargin, o.qty);
    var u := s.users[row.userId];
    assert s.users[row.userId := u.(available := u.available - 0.0, locked := u.locked + 0.0)] == s.users;
  }

  /**
   * Cancelling an order that met nothing undoes placing it: every book and every account is as before,
   * but for the part of a cent its margin was rounded by, which stays locked or is let go too much.
   */
  lemma PlaceThenCancel(s: Store, row: Order, now: int)
    requires WfStore(s) && LegalRow(row) && row.orderType == Limit && Admit(s, row).Admitted? && MeetsNothing(s.books[row.marketId], row)
    requires NewId(s.books[row.marketId], row) && row.initialMargin >= 0.0
    ensures row.userId in s.users
    ensures var placed := Created(s, row, now).store;
      var t := CancelledOutcome(placed, row).store;
      var u, margin := s.users[row.userId], if AtMostTwiceHeld(s, row) then 0.0 else row.initialMargin;
      && placed.users[row.userId] == u.(available := u.available - margin, locked := u.locked + margin)
      && t.books == s.books && t.userIds == s.userIds && t.lastUpdateId == s.lastUpdateId + 2
      && t.users == s.users[row.userId := u.(available := u.available - margin + Round2(margin), locked := u.locked + margin - Round2(margin))]
      && (t.users == s.users <==> margin == Round2(margin))
  {
    hide WfStore, Append, Round2, Queue, Admit, Place, WithoutOrder, MeetsNothing, MatchEvents, Publish;
    AdmittedKeepsIdentity(s, row);
    MarginOf(s, row);
    RestsWhole(s, row, now);
    var p, b := Place(s, row, now), s.books[row.marketId];
    var o := Untouched(row, Admit(s, row).order.initialMargin, now);
    assert WfLevels(Side(b, row.positionType), row.positionType, row.marketId) by { SideIsWf(s, row.marketId, row.positionType); }
    AppendThenTakeOff(Side(b, row.positionType), row.price, o, row.positionType, row.marketId);
  }

  lemma SideIsWf(s: Store, m: Uuid, kind: PositionType)
    requires WfStore(s) && m in s.books
    ensures WfLevels(Side(s.books[m], kind), kind, m)
  {
    assert WfBook(s.books[m], m, s.users);
    assert SideWf(s.books[m], kind, m, s.users);
  }

  /** The margin an admitted order goes in with: none when it closes, else what was sent. */
  lemma MarginOf(s: Store, row: Order)
    requires Admit(s, row).Admitted?
    ensures row.userId in s.users
    ensures Admit(s, row).reducing <==> AtMostTwiceHeld(s, row)
    ensures Admit(s, row).order.initialMargin == if AtMostTwiceHeld(s, row) then 0.0 else row.initialMargin
  {
  }
}
