/** Closing without margin, and overshooting. */
module EngineClose {
  import opened Exchange
  import opened Sequences
  import opened Books
  import opened Positions
  import opened Matching
  import opened Engine
  import Rounding
  import opened EngineSteps

  // ----- how much an order can fill

  /** What a side offers at prices the taker accepts. */
  ghost function Liquidity(q: seq<Slot>, kind: PositionType, limit: real): real {
    if q == [] then 0.0
    else (if Acceptable(kind, q[0].price, limit) then Unfilled(q[0].order) else 0.0) + Liquidity(q[1..], kind, limit)
  }

  ghost predicate Served(q: seq<Slot>, kind: PositionType) {
    && (forall i, j :: 0 <= i < j < |q| ==> Rank(kind, q[i].price) <= Rank(kind, q[j].price))
    && (forall i :: 0 <= i < |q| ==> Unfilled(q[i].order) > 0.0)
  }

  lemma {:induction false} NothingBeyondLimit(q: seq<Slot>, kind: PositionType, limit: real)
    requires Served(q, kind) && (q != [] ==> !Acceptable(kind, q[0].price, limit))
    ensures Liquidity(q, kind, limit) == 0.0
  {
    if q != [] {
      assert q[1..] != [] ==> q[1..][0] == q[1];
      NothingBeyondLimit(q[1..], kind, limit);
    }
  }

  lemma {:induction false} LiquidityNonNegative(q: seq<Slot>, kind: PositionType, limit: real)
    requires Served(q, kind)
    ensures Liquidity(q, kind, limit) >= 0.0
  {
    if q != [] {
      LiquidityNonNegative(q[1..], kind, limit);
    }
  }

  /** The greedy walk takes the whole order or all acceptable liquidity, whichever is less. */
  lemma {:induction false} GreedyTakesAllItCan(q: seq<Slot>, kind: PositionType, limit: real, need: real)
    requires Served(q, kind) && need >= 0.0
    ensures TotalQty(Greedy(q, kind, limit, need)) == Min(need, Liquidity(q, kind, limit))
  {
    LiquidityNonNegative(q, kind, limit);
    if q == [] || need <= 0.0 {
    } else if !Acceptable(kind, q[0].price, limit) {
      NothingBeyondLimit(q, kind, limit);
    } else {
      var take := Min(Unfilled(q[0].order), need);
      LiquidityNonNegative(q[1..], kind, limit);
      GreedyTakesAllItCan(q[1..], kind, limit, need - take);
      assert Greedy(q, kind, limit, need)[1..] == Greedy(q[1..], kind, limit, need - take);
    }
  }

  lemma {:induction false} SlotsComeFromLevels(kind: PositionType, levels: Levels, i: nat)
    requires i < |Queue(kind, levels)|
    ensures var s := Queue(kind, levels)[i]; s.price in levels && s.order in levels[s.price].openOrders
    decreases |levels|
  {
    var p := BestPrice(kind, levels);
    TimeQueueIsStableSort(p, levels[p].openOrders);
    var n := |levels[p].openOrders|;
    if i >= n {
      SlotsComeFromLevels(kind, levels - {p}, i - n);
    }
  }

  lemma QueueIsServed(kind: PositionType, levels: Levels, m: Uuid)
    requires WfLevels(levels, kind, m)
    ensures Served(Queue(kind, levels), kind)
  {
    QueueIsPriceTimeSorted(kind, levels);
    var q := Queue(kind, levels);
    forall i | 0 <= i < |q| ensures Unfilled(q[i].order) > 0.0 {
      SlotsComeFromLevels(kind, levels, i);
      assert WfLevel(levels[q[i].price], kind, m);
    }
  }

  /** What an order fills is its size or the acceptable liquidity it meets, whichever is less. */
  lemma FilledIsSizeOrLiquidity(s: Store, o: Order, reducing: bool)
    requires WfStore(s) && o.marketId in s.books && o.userId in s.users && o.qty > 0.0
    ensures var kind := Opposite(o.positionType);
      Matched(s, o, reducing).filled == Min(o.qty, Liquidity(Queue(kind, Side(s.books[o.marketId], kind)), kind, o.price))
  {
    hide WfStore, MatchFrom;
    StartIsReady(s, o, reducing);
    var start := Start(s.books[o.marketId], LockFor(s.users, o, reducing), o);
    var kind := Opposite(o.positionType);
    MatchingIsPriceTimePriority(start, o);
    QueueIsServed(kind, start.levels, o.marketId);
    GreedyTakesAllItCan(Queue(kind, start.levels), kind, o.price, o.qty);
  }

  // ----- an account that holds the other side while its order matches

  /** What the account's own resting orders sold to the order; `fills` may be any part of a match. */
  function MadeBy(fills: seq<Fill>, u: Uuid): real {
    if fills == [] then 0.0
    else MadeBy(fills[..|fills| - 1], u) + if fills[|fills| - 1].makerId == u then fills[|fills| - 1].qty else 0.0
  }

  /** From `u` to `v` the position `i` grew by `more`, on its side, and nothing was closed or released. */
  ghost predicate OnlyGrew(u: User, v: User, i: nat, more: real)
    requires i < |u.positions|
  {
    && WfPositions(v.positions) && |v.positions| == |u.positions|
    && v.positions[i].marketId == u.positions[i].marketId
    && v.positions[i].kind == u.positions[i].kind
    && v.positions[i].qty == u.positions[i].qty + more
    && v.available == u.available && v.locked == u.locked && v.closedPositions == u.closedPositions
    && more >= 0.0 && (more == 0.0 ==> v == u)
  }

  lemma GrowthAddsUp(u: User, v: User, w: User, i: nat, a: real, b: real)
    requires i < |u.positions| && OnlyGrew(u, v, i, a) && OnlyGrew(v, w, i, b)
    ensures OnlyGrew(u, w, i, a + b)
  {
  }

  lemma FillOnlyAddsToOwn(st: Progress, o: Order, u: Uuid, i: nat)
    requires Ready(st, o) && !Done(st, o) && u in st.users && i < |st.users[u].positions|
    requires st.users[u].positions[i].marketId == o.marketId && st.users[u].positions[i].kind == Opposite(o.positionType)
    ensures var next := FillHead(st, o);
      && u in next.users
      && OnlyGrew(st.users[u], next.users[u], i, MadeBy(next.fills, u) - MadeBy(st.fills, u))
  {
    hide CreatePosition, OnlyGrew, FillHead, MadeBy;
    FillHeadTrades(st, o);
    FillHeadReady(st, o);
    FillHeadExecutes(st, o);
    var p, r, next := HeadPrice(st, o), Head(st, o), FillHead(st, o);
    var e := Execution(Slot(p, r), Min(Unfilled(r), st.remaining));
    MadeByPush(st.fills, FillOf(e, o), u);
    if r.userId == u {
      TradeOnlyAdds(st.users[u], MakerTrade(r, e.qty, p), p, i);
    } else {
      ReadyUsers(st, o, u, i);
    }
  }

  lemma MadeByPush(fills: seq<Fill>, f: Fill, u: Uuid)
    ensures MadeBy(fills + [f], u) == MadeBy(fills, u) + if f.makerId == u then f.qty else 0.0
  {
    assert (fills + [f])[..|fills|] == fills;
  }

  lemma TradeOnlyAdds(u: User, t: Trade, last: real, i: nat)
    requires WfPositions(u.positions) && t.qty > 0.0 && i < |u.positions|
    requires u.positions[i].marketId == t.marketId && u.positions[i].kind == t.kind
    ensures OnlyGrew(u, CreatePosition(u, t, last), i, t.qty)
  {
    hide WeightedAverage, LiquidationPrice;
    FindUnique(u.positions, t.marketId, i);
    NettingAddsSignedQuantity(u, t, last, t.marketId);
  }

  /**
   * While an order matches, a position of the other side can only grow, and only by what the account's
   * own resting orders sold to it.
   */
  lemma {:induction false} MatchOnlyAddsToOwn(st: Progress, o: Order, u: Uuid, i: nat)
    requires Ready(st, o) && u in st.users && i < |st.users[u].positions|
    requires st.users[u].positions[i].marketId == o.marketId && st.users[u].positions[i].kind == Opposite(o.positionType)
    ensures var end := MatchFrom(st, o);
      && u in end.users
      && OnlyGrew(st.users[u], end.users[u], i, MadeBy(end.fills, u) - MadeBy(st.fills, u))
    decreases Measure(st, o)
  {
    hide FillHead, Done, Ready, OnlyGrew;
    if Done(st, o) {
      assert OnlyGrew(st.users[u], st.users[u], i, 0.0) by { ReadyUsers(st, o, u, i); }
    } else {
      FillHeadReady(st, o);
      FillHeadProgresses(st, o);
      FillOnlyAddsToOwn(st, o, u, i);
      var next := FillHead(st, o);
      assert next.users[u].positions[i].kind == Opposite(o.positionType) && i < |next.users[u].positions|
        && next.users[u].positions[i].marketId == o.marketId by { GrewInPlace(st.users[u], next.users[u], i, MadeBy(next.fills, u) - MadeBy(st.fills, u)); }
      MatchOnlyAddsToOwn(next, o, u, i);
      var end := MatchFrom(next, o);
      GrowthAddsUp(st.users[u], next.users[u], end.users[u], i,
        MadeBy(next.fills, u) - MadeBy(st.fills, u), MadeBy(end.fills, u) - MadeBy(next.fills, u));
    }
  }

  lemma ReadyUsers(st: Progress, o: Order, u: Uuid, i: nat)
    requires Ready(st, o) && u in st.users && i < |st.users[u].positions|
    ensures OnlyGrew(st.users[u], st.users[u], i, 0.0)
  {
  }

  lemma GrewInPlace(u: User, v: User, i: nat, more: real)
    requires i < |u.positions| && OnlyGrew(u, v, i, more)
    ensures i < |v.positions| && v.positions[i].kind == u.positions[i].kind && v.positions[i].marketId == u.positions[i].marketId
  {
  }

  /** The executions the account has with itself. */
  function OwnQty(es: seq<Execution>, u: Uuid): real {
    if es == [] then 0.0 else (if es[0].slot.order.userId == u then es[0].qty else 0.0) + OwnQty(es[1..], u)
  }

  lemma {:induction false} MadeByConcat(a: seq<Fill>, b: seq<Fill>, u: Uuid)
    ensures MadeBy(a + b, u) == MadeBy(a, u) + MadeBy(b, u)
  {
    if b == [] {
      assert a + b == a;
    } else {
      assert (a + b)[..|a + b| - 1] == a + b[..|b| - 1];
      MadeByConcat(a, b[..|b| - 1], u);
    }
  }

  lemma {:induction false} MadeByOwnOrders(es: seq<Execution>, o: Order, u: Uuid)
    ensures MadeBy(FillsOf(es, o), u) == OwnQty(es, u)
  {
    if es != [] {
      MadeByOwnOrders(es[1..], o, u);
      var first := [FillOf(es[0], o)];
      assert first[..0] == [];
      assert MadeBy(first, u) == if es[0].slot.order.userId == u then es[0].qty else 0.0;
      MadeByConcat(first, FillsOf(es[1..], o), u);
    }
  }

  lemma {:induction false} OwnIsPartOfAll(q: seq<Slot>, kind: PositionType, limit: real, need: real, u: Uuid)
    requires Served(q, kind) && need >= 0.0
    ensures var es := Greedy(q, kind, limit, need); 0.0 <= OwnQty(es, u) <= TotalQty(es)
  {
    if q != [] && need > 0.0 && Acceptable(kind, q[0].price, limit) {
      var take := Min(Unfilled(q[0].order), need);
      OwnIsPartOfAll(q[1..], kind, limit, need - take, u);
      assert Greedy(q, kind, limit, need)[1..] == Greedy(q[1..], kind, limit, need - take);
    }
  }

  // ----- what is let through without margin

  ghost function Held(s: Store, row: Order): int
    requires row.userId in s.users
  {
    FindPosition(s.users[row.userId].positions, row.marketId)
  }

  /** The row is against a position the account holds, and of at most twice its size. */
  ghost predicate AtMostTwiceHeld(s: Store, row: Order)
    requires row.userId in s.users
  {
    var i := Held(s, row);
    i >= 0 && s.users[row.userId].positions[i].kind == Opposite(row.positionType)
    && row.qty <= 2.0 * s.users[row.userId].positions[i].qty
  }

  /**
   * An order without margin is let through exactly when it is against a held position and at most twice
   * its size, free collateral is not negative, and a market order has something to trade against. An
   * order of that kind sent with margin meets the same test, and its margin is set to nothing.
   */
  lemma MarginFreeAdmission(s: Store, row: Order)
    requires WfStore(s) && row.marketId in s.books && row.userId in s.users
    requires row.initialMargin == 0.0 || AtMostTwiceHeld(s, row)
    ensures Admit(s, row).Admitted? <==>
      && AtMostTwiceHeld(s, row)
      && s.users[row.userId].available >= 0.0
      && (row.orderType == Market ==> Side(s.books[row.marketId], Opposite(row.positionType)) != map[])
    ensures Admit(s, row).Admitted? ==> Admit(s, row).reducing && Admit(s, row).order.initialMargin == 0.0
  {
    assert WfBook(s.books[row.marketId], row.marketId, s.users);
  }

  /** The engine lets the order through without margin, whatever was sent with it. */
  ghost predicate MarginFree(s: Store, row: Order) {
    && WfStore(s) && row.qty > 0.0
    && Admit(s, row).Admitted? && Admit(s, row).reducing
  }

  lemma MarginFreeMeans(s: Store, row: Order)
    requires MarginFree(s, row)
    ensures row.marketId in s.books && row.userId in s.users && AtMostTwiceHeld(s, row)
    ensures var o := Admit(s, row).order;
      o == row.(initialMargin := 0.0, price := o.price)
  {
    AdmittedKeepsIdentity(s, row);
  }

  /** What an order trades: the front of the opposite queue, up to its size and the price it may trade at. */
  ghost function Taken(s: Store, row: Order): seq<Execution>
    requires Admit(s, row).Admitted?
  {
    AdmittedKeepsIdentity(s, row);
    var kind := Opposite(row.positionType);
    Greedy(Queue(kind, Side(s.books[row.marketId], kind)), kind, Admit(s, row).order.price, row.qty)
  }

  /** What others trade with it; the rest it trades with the account's own resting orders. */
  ghost function FromOthers(s: Store, row: Order): real
    requires MarginFree(s, row)
  {
    MarginFreeMeans(s, row);
    TotalQty(Taken(s, row)) - OwnQty(Taken(s, row), row.userId)
  }

  ghost function HeldPosition(s: Store, row: Order): Position
    requires row.userId in s.users && Held(s, row) >= 0
  {
    s.users[row.userId].positions[Held(s, row)]
  }

  // ----- one opposite trade

  lemma NoMargin(qty: real, part: real)
    requires qty != 0.0
    ensures RelativeMargin(0.0, qty, part) == 0.0
  {
    assert 0.0 / qty * part == 0.0;
  }

  /** A position with no margin behind it: its liquidation price is its own entry price, rounded. */
  predicate Unbacked(p: Position) {
    p.margin == 0.0 && p.liquidationPrice == Rounding.Round2(p.averagePrice)
  }

  /** Such a position is liquidated by the first index price that is no better than its entry. */
  lemma UnbackedIsLiquidatable(p: Position, price: real)
    requires Unbacked(p)
    ensures Liquidatable(p, price)
      <==> if p.kind == LONG then price <= Rounding.Round2(p.averagePrice) else price >= Rounding.Round2(p.averagePrice)
  {
  }

  lemma NothingToLose(qty: real, kind: PositionType, average: real)
    requires qty != 0.0
    ensures LiquidationPrice(0.0, qty, kind, average) == Rounding.Round2(average)
  {
    assert (0.0 - 0.01 * 0.0) / qty == 0.0;
  }

  /**
   * An opposite trade leaves a smaller position of the same side, none, or one of the other side,
   * exactly as its size is below, at or above the size held. A position turned round by a trade
   * without margin is unbacked, and the margin of the position it replaced stays locked.
   */
  lemma OppositeTrade(u: User, t: Trade, last: real, i: nat)
    requires WfPositions(u.positions) && t.qty > 0.0 && i < |u.positions|
    requires u.positions[i].marketId == t.marketId && u.positions[i].kind == Opposite(t.kind)
    ensures var v, held := CreatePosition(u, t, last), u.positions[i];
      && (t.qty < held.qty ==>
            && |v.positions| == |u.positions| && v.positions[i].marketId == held.marketId && v.positions[i].kind == held.kind
            && v.positions[i].qty == held.qty - t.qty && v.closedPositions == u.closedPositions)
      && (t.qty == held.qty ==>
            && FindPosition(v.positions, t.marketId) < 0
            && v.closedPositions == u.closedPositions + [held] && v.locked == u.locked - held.margin)
      && (t.qty > held.qty ==>
            && |v.positions| == |u.positions| && v.positions[i].marketId == held.marketId && v.positions[i].kind == t.kind
            && v.positions[i].qty == t.qty - held.qty && v.closedPositions == u.closedPositions
            && (t.margin == 0.0 ==> Unbacked(v.positions[i]) && v.locked == u.locked))
  {
    FindUnique(u.positions, t.marketId, i);
    var held := u.positions[i];
    if t.qty == held.qty {
      var left := RemoveAt(u.positions, i);
      forall j | 0 <= j < |left| ensures left[j].marketId != t.marketId {
        assert left[j] == u.positions[if j < i then j else j + 1];
      }
    } else if t.qty > held.qty && t.margin == 0.0 {
      NoMargin(t.qty, t.qty - held.qty);
      NothingToLose(t.qty - held.qty, t.kind, NettedAverage(held, t));
    }
  }

  // ----- closing without margin

  /** The account once the order matched: its position grew by what it traded with itself, and by nothing else. */
  lemma MarginFreeMatch(s: Store, row: Order)
    requires MarginFree(s, row)
    ensures row.userId in s.users && Held(s, row) >= 0 && WfPositions(s.users[row.userId].positions)
    ensures var o := Admit(s, row).order;
      && o.marketId in s.books && o.userId in s.users
      && var st := Matched(s, o, true);
      && st.filled == TotalQty(Taken(s, row))
      && row.userId in st.users
      && OnlyGrew(s.users[row.userId], st.users[row.userId], Held(s, row), OwnQty(Taken(s, row), row.userId))
  {
    hide WfStore, MatchFrom, Queue, Greedy, OnlyGrew, Admit, FillsOf, Ready, OwnQty, TotalQty, MadeBy;
    MarginFreeMeans(s, row);
    var o, u := Admit(s, row).order, row.userId;
    var start := Start(s.books[o.marketId], LockFor(s.users, o, true), o);
    StartIsReady(s, o, true);
    MatchOnlyAddsToOwn(start, o, u, Held(s, row));
    MatchingIsPriceTimePriority(start, o);
    MadeByOwnOrders(Taken(s, row), o, u);
    assert Matched(s, o, true).fills == [] + FillsOf(Taken(s, row), o);
    assert [] + FillsOf(Taken(s, row), o) == FillsOf(Taken(s, row), o);
    assert MadeBy([], u) == 0.0 by { NothingMade(u); }
    KnownPositions(s, u);
  }

  lemma NothingMade(u: Uuid)
    ensures MadeBy([], u) == 0.0
  {
  }

  lemma KnownPositions(s: Store, u: Uuid)
    requires WfStore(s) && u in s.users
    ensures WfPositions(s.users[u].positions)
  {
  }

  lemma OwnIsPartOfTaken(s: Store, row: Order)
    requires MarginFree(s, row)
    ensures 0.0 <= OwnQty(Taken(s, row), row.userId) <= TotalQty(Taken(s, row))
  {
    hide Queue, Greedy, OwnQty, TotalQty, Served, Admit;
    MarginFreeMeans(s, row);
    var kind := Opposite(row.positionType);
    assert WfBook(s.books[row.marketId], row.marketId, s.users);
    assert SideWf(s.books[row.marketId], kind, row.marketId, s.users);
    QueueIsServed(kind, Side(s.books[row.marketId], kind), row.marketId);
    OwnIsPartOfAll(Queue(kind, Side(s.books[row.marketId], kind)), kind, Admit(s, row).order.price, row.qty, row.userId);
  }

  /** None of the account's own orders stands at a price the order may trade at. */
  ghost predicate NoOwnOrders(levels: Levels, o: Order) {
    forall p, r :: p in levels && Acceptable(Opposite(o.positionType), p, o.price) && r in levels[p].openOrders ==>
      r.userId != o.userId
  }

  lemma {:induction false} NoOwnSlotTaken(q: seq<Slot>, kind: PositionType, limit: real, need: real, u: Uuid)
    requires forall i :: 0 <= i < |q| && Acceptable(kind, q[i].price, limit) ==> q[i].order.userId != u
    ensures OwnQty(Greedy(q, kind, limit, need), u) == 0.0
  {
    if q != [] && need > 0.0 && Acceptable(kind, q[0].price, limit) {
      var take := Min(Unfilled(q[0].order), need);
      assert forall i :: 0 <= i < |q[1..]| ==> q[1..][i] == q[i + 1];
      NoOwnSlotTaken(q[1..], kind, limit, need - take, u);
      assert Greedy(q, kind, limit, need)[1..] == Greedy(q[1..], kind, limit, need - take);
    }
  }

  /** Then all it fills comes from others. */
  lemma NoOwnOrdersTaken(s: Store, row: Order)
    requires MarginFree(s, row) && row.marketId in s.books
    requires NoOwnOrders(Side(s.books[row.marketId], Opposite(row.positionType)), Admit(s, row).order)
    ensures OwnQty(Taken(s, row), row.userId) == 0.0 && FromOthers(s, row) == TotalQty(Taken(s, row))
  {
    hide Queue, Greedy, OwnQty, TotalQty, WfStore, Admit;
    MarginFreeMeans(s, row);
    var kind, limit := Opposite(row.positionType), Admit(s, row).order.price;
    var levels := Side(s.books[row.marketId], kind);
    var q := Queue(kind, levels);
    forall i | 0 <= i < |q| && Acceptable(kind, q[i].price, limit) ensures q[i].order.userId != row.userId {
      SlotsComeFromLevels(kind, levels, i);
    }
    NoOwnSlotTaken(q, kind, limit, row.qty, row.userId);
  }

  /** What such an order fills is its size or the acceptable liquidity, whichever is less. */
  lemma MarginFreeFills(s: Store, row: Order, now: int)
    requires MarginFree(s, row)
    ensures row.marketId in s.books
    ensures var kind, p := Opposite(row.positionType), Place(s, row, now);
      && p.Placed?
      && p.filled == TotalQty(Taken(s, row))
        == Min(row.qty, Liquidity(Queue(kind, Side(s.books[row.marketId], kind)), kind, Admit(s, row).order.price))
  {
    hide WfStore, Matched, Queue, Greedy, Liquidity, UsersAfter, BookAfter, BookingsAfter, AveragePrice, StatusAfter, TotalQty;
    MarginFreeMeans(s, row);
    MarginFreeMatch(s, row);
    FilledIsSizeOrLiquidity(s, Admit(s, row).order, true);
  }

  /** The account after a margin-free order: as the match left it, then one opposite trade without margin. */
  lemma MarginFreeExecution(s: Store, row: Order, now: int)
    requires MarginFree(s, row)
    ensures var p := Place(s, row, now);
      && p.Placed? && p.filled == TotalQty(Taken(s, row))
      && row.userId in s.users && row.userId in p.store.users
      && exists w ::
           && AsMatched(s, row, w)
           && (p.filled <= 0.0 ==> p.store.users[row.userId] == w)
           && (p.filled > 0.0 ==> TradedOnce(w, p.store.users[row.userId], row.marketId, row.positionType, p.filled))
  {
    hide WfStore, Matched, CreatePosition, OnlyGrew, TotalQty, Taken, BookAfter, BookingsAfter, AveragePrice, StatusAfter;
    MarginFreeMeans(s, row);
    MarginFreeMatch(s, row);
    var o := Admit(s, row).order;
    var st := Matched(s, o, true);
    var w := st.users[row.userId];
    assert AsMatched(s, row, w);
    if st.filled > 0.0 {
      NoMargin(o.qty, st.filled);
      assert WfPositions(w.positions) by {
        GrewIsWf(s.users[row.userId], w, Held(s, row), OwnQty(Taken(s, row), row.userId));
      }
      assert TradedOnce(w, CreatePosition(w, TakerTrade(st, o), st.last), row.marketId, row.positionType, st.filled);
    }
  }

  lemma GrewIsWf(u: User, v: User, i: nat, more: real)
    requires i < |u.positions| && OnlyGrew(u, v, i, more)
    ensures WfPositions(v.positions)
  {
  }

  ghost predicate AsMatched(s: Store, row: Order, w: User)
    requires MarginFree(s, row)
  {
    && row.userId in s.users && Held(s, row) >= 0
    && OnlyGrew(s.users[row.userId], w, Held(s, row), OwnQty(Taken(s, row), row.userId))
  }

  /** One trade of `qty` on side `kind`, without margin, takes account `u` to `v`. */
  ghost predicate TradedOnce(u: User, v: User, m: Uuid, kind: PositionType, qty: real) {
    && WfPositions(u.positions) && qty > 0.0
    && (exists t: Trade, last: real ::
          t.marketId == m && t.kind == kind && t.qty == qty && t.margin == 0.0 && v == CreatePosition(u, t, last))
  }

  /** One opposite trade of a position's whole size removes it, records it once and frees its margin. */
  lemma OppositeTradeFlattens(u: User, v: User, m: Uuid, i: nat)
    requires i < |u.positions| && u.positions[i].marketId == m
    requires TradedOnce(u, v, m, Opposite(u.positions[i].kind), u.positions[i].qty)
    ensures FindPosition(v.positions, m) < 0
    ensures v.closedPositions == u.closedPositions + [u.positions[i]]
    ensures v.locked == u.locked - u.positions[i].margin
  {
    var t: Trade, last: real :| t.marketId == m && t.kind == Opposite(u.positions[i].kind) && t.qty == u.positions[i].qty
      && v == CreatePosition(u, t, last);
    OppositeTrade(u, t, last, i);
  }

  /** What an account holds after a margin-free order, by what others took of it. */
  ghost predicate Netted(s: Store, row: Order, v: User)
    requires MarginFree(s, row)
  {
    MarginFreeMeans(s, row);
    var u, i, held, gone := s.users[row.userId], Held(s, row), HeldPosition(s, row), FromOthers(s, row);
    && (gone < held.qty ==>
          && |v.positions| == |u.positions| && v.positions[i].marketId == row.marketId && v.positions[i].kind == held.kind
          && v.positions[i].qty == held.qty - gone && v.closedPositions == u.closedPositions)
    && (gone == held.qty ==> FindPosition(v.positions, row.marketId) < 0)
    && (gone > held.qty ==>
          && |v.positions| == |u.positions| && v.positions[i].marketId == row.marketId && v.positions[i].kind == row.positionType
          && v.positions[i].qty == gone - held.qty && v.closedPositions == u.closedPositions
          && Unbacked(v.positions[i]) && v.locked == u.locked)
  }

  /**
   * The whole outcome, for any order the engine lets through without margin: market or limit, sent with
   * margin or without, and whoever's orders it meets. The position is smaller by what others took, gone,
   * or turned round and unbacked, exactly as that is below, at or above the size held.
   */
  lemma MarginFreeOrderNets(s: Store, row: Order, now: int)
    requires MarginFree(s, row)
    ensures var p := Place(s, row, now);
      p.Placed? && row.userId in p.store.users && Netted(s, row, p.store.users[row.userId])
  {
    hide WfStore, Place, CreatePosition, TotalQty, Taken, OwnQty, Admit;
    MarginFreeMeans(s, row);
    MarginFreeExecution(s, row, now);
    OwnIsPartOfTaken(s, row);
    KnownPositions(s, row.userId);
    var p := Place(s, row, now);
    var v, i := p.store.users[row.userId], Held(s, row);
    var w :| && AsMatched(s, row, w)
             && (p.filled <= 0.0 ==> v == w)
             && (p.filled > 0.0 ==> TradedOnce(w, v, row.marketId, row.positionType, p.filled));
    if p.filled > 0.0 {
      var t: Trade, last: real :| t.marketId == row.marketId && t.kind == row.positionType && t.qty == p.filled
        && t.margin == 0.0 && v == CreatePosition(w, t, last);
      OppositeTrade(w, t, last, i);
    }
  }

  /**
   * A margin-free order that others fill for exactly the held size, and that meets no own order, flattens
   * the position: it is gone, recorded once as closed, and exactly its margin is unlocked.
   */
  lemma FullCloseFlattens(s: Store, row: Order, now: int)
    requires MarginFree(s, row) && OwnQty(Taken(s, row), row.userId) == 0.0
    requires row.userId in s.users && Held(s, row) >= 0 && TotalQty(Taken(s, row)) == HeldPosition(s, row).qty
    ensures var p := Place(s, row, now);
      var u, held := s.users[row.userId], HeldPosition(s, row);
      && p.Placed? && row.userId in p.store.users
      && var v := p.store.users[row.userId];
      && FindPosition(v.positions, row.marketId) < 0
      && v.closedPositions == u.closedPositions + [held]
      && v.locked == u.locked - held.margin
  {
    hide Place, TradedOnce, Admit, WfStore, TotalQty, Taken, OwnQty;
    MarginFreeMeans(s, row);
    MarginFreeExecution(s, row, now);
    KnownPositions(s, row.userId);
    var v := Place(s, row, now).store.users[row.userId];
    assert TradedOnce(s.users[row.userId], v, row.marketId, row.positionType, HeldPosition(s, row).qty);
    OppositeTradeFlattens(s.users[row.userId], v, row.marketId, Held(s, row));
  }

  /** A price widened, against the sender, by the slippage in percent. */
  function Widened(row: Order, best: real): real {
    if row.positionType == LONG then best * (1.0 + row.slippage / 100.0) else best * (1.0 - row.slippage / 100.0)
  }

  lemma SlippageWidens(row: Order, best: real)
    ensures WithSlippage(row, best) == row.(price := Widened(row, best))
    ensures forall margin :: Widened(row.(initialMargin := margin), best) == Widened(row, best)
  {
    assert row.slippage * 0.01 * best == best * (row.slippage / 100.0);
  }

  /** The worst price the order may trade at: its own limit, or the best price it meets widened by its slippage. */
  ghost function Band(s: Store, row: Order): real
    requires row.marketId in s.books
  {
    var facing := Facing(s, row);
    if row.orderType == Limit then row.price
    else if facing == map[] then 0.0
    else Widened(row, BestPrice(Opposite(row.positionType), facing))
  }

  /** The side of the market an order faces. */
  ghost function Facing(s: Store, row: Order): Levels
    requires row.marketId in s.books
  {
    Side(s.books[row.marketId], Opposite(row.positionType))
  }

  /** An order for exactly what the account holds, against it, whatever margin came with it. */
  ghost predicate WholeClose(s: Store, row: Order) {
    && WfStore(s) && row.marketId in s.books && row.userId in s.users
    && Held(s, row) >= 0
    && HeldPosition(s, row).kind == Opposite(row.positionType) && row.qty == HeldPosition(s, row).qty
    && s.users[row.userId].available >= 0.0
    && NoOwnOrders(Facing(s, row), row.(price := Band(s, row)))
  }

  /** What the market offers at prices the order may trade at. */
  ghost function Offered(s: Store, row: Order): real
    requires row.marketId in s.books
  {
    Liquidity(Queue(Opposite(row.positionType), Facing(s, row)), Opposite(row.positionType), Band(s, row))
  }

  lemma WholeCloseIsAdmitted(s: Store, row: Order)
    requires WholeClose(s, row)
    ensures row.qty > 0.0
    ensures Admit(s, row).Admitted? <==> row.orderType == Limit || Facing(s, row) != map[]
    ensures Admit(s, row).Admitted? ==> MarginFree(s, row) && Admit(s, row).order == row.(initialMargin := 0.0, price := Band(s, row))
  {
    hide NoOwnOrders, Queue, Widened, WithSlippage;
    KnownPositions(s, row.userId);
    MarginFreeAdmission(s, row);
    if Facing(s, row) != map[] {
      SlippageWidens(row.(initialMargin := 0.0), BestPrice(Opposite(row.positionType), Facing(s, row)));
    }
  }

  lemma NothingOffered(s: Store, row: Order)
    requires row.marketId in s.books && Facing(s, row) == map[]
    ensures Offered(s, row) == 0.0
  {
  }

  /**
   * Closing a position, by what can be seen before: an order for exactly the held size, from an account
   * with non-negative free collateral none of whose orders stands in its way, takes the position off if
   * and only if the market offers that much. It is then recorded once as closed and exactly its margin is
   * unlocked; with less on offer the position keeps its side with the rest.
   */
  lemma WholeCloseFlattensIff(s: Store, row: Order, now: int)
    requires WholeClose(s, row)
    ensures var p, u, held := Place(s, row, now), s.users[row.userId], HeldPosition(s, row);
      && (p.Rejected? ==> Offered(s, row) < held.qty)
      && (p.Placed? ==>
            && row.userId in p.store.users
            && var v := p.store.users[row.userId];
            && (FindPosition(v.positions, row.marketId) < 0 <==> Offered(s, row) >= held.qty)
            && (Offered(s, row) >= held.qty ==>
                  v.closedPositions == u.closedPositions + [held] && v.locked == u.locked - held.margin)
            && (Offered(s, row) < held.qty ==>
                  && Held(s, row) < |v.positions| && v.positions[Held(s, row)].kind == held.kind
                  && v.positions[Held(s, row)].qty == held.qty - Offered(s, row)))
  {
    hide Place, WfStore, Queue, Liquidity, Taken, OwnQty, TotalQty, NoOwnOrders, Band, Admit;
    WholeCloseIsAdmitted(s, row);
    if Admit(s, row).Admitted? {
      NoOwnOrdersTaken(s, row) by {
        assert NoOwnOrders(Facing(s, row), Admit(s, row).order) by { SameBand(s, row); }
      }
      MarginFreeFills(s, row, now);
      if Offered(s, row) >= HeldPosition(s, row).qty {
        FullCloseFlattens(s, row, now);
      } else {
        ShortCloseOnlyReduces(s, row, now);
      }
    } else {
      KnownPositions(s, row.userId);
      NothingOffered(s, row);
      RefusedIsRejected(s, row, now);
    }
  }

  lemma SameBand(s: Store, row: Order)
    requires WholeClose(s, row) && Admit(s, row).Admitted?
    ensures NoOwnOrders(Facing(s, row), Admit(s, row).order)
  {
    hide Band;
    WholeCloseIsAdmitted(s, row);
  }

  lemma RefusedIsRejected(s: Store, row: Order, now: int)
    requires WfStore(s) && row.qty > 0.0 && Admit(s, row).Refused?
    ensures Place(s, row, now).Rejected?
  {
  }

  /** While others take less than is held the position keeps its side and shrinks by that; it never flips. */
  lemma ShortCloseOnlyReduces(s: Store, row: Order, now: int)
    requires MarginFree(s, row) && row.userId in s.users && Held(s, row) >= 0
    requires FromOthers(s, row) < HeldPosition(s, row).qty
    ensures var p := Place(s, row, now);
      var held := HeldPosition(s, row);
      && p.Placed? && row.userId in p.store.users
      && var v := p.store.users[row.userId];
      && Held(s, row) < |v.positions|
      && v.positions[Held(s, row)].marketId == row.marketId
      && v.positions[Held(s, row)].kind == held.kind
      && v.positions[Held(s, row)].qty == held.qty - FromOthers(s, row)
      && v.closedPositions == s.users[row.userId].closedPositions
  {
    hide Place, Admit, WfStore, FromOthers;
    MarginFreeOrderNets(s, row, now);
  }

  /** The account stands on the side of the order it sent. */
  ghost predicate TurnedRound(v: User, row: Order) {
    var i := FindPosition(v.positions, row.marketId);
    i >= 0 && v.positions[i].kind == row.positionType
  }

  /**
   * The engine takes it that a position never changes sides on an order without margin. It does not
   * exactly when others take no more than is held: any order let through without margin turns the
   * position round if and only if they take more, and what it turns into is unbacked.
   */
  lemma MarginFreeOrderFlipsIff(s: Store, row: Order, now: int)
    requires MarginFree(s, row) && row.userId in s.users && Held(s, row) >= 0
    ensures var p := Place(s, row, now);
      && p.Placed? && row.userId in p.store.users
      && var v := p.store.users[row.userId];
      && (TurnedRound(v, row) <==> FromOthers(s, row) > HeldPosition(s, row).qty)
      && (TurnedRound(v, row) ==> Unbacked(v.positions[FindPosition(v.positions, row.marketId)]) && v.locked == s.users[row.userId].locked)
  {
    hide Place, Admit, WfStore, FromOthers;
    MarginFreeMeans(s, row);
    MarginFreeOrderNets(s, row, now);
    PlacedPositions(s, row, now);
    var v, i := Place(s, row, now).store.users[row.userId], Held(s, row);
    if FromOthers(s, row) != HeldPosition(s, row).qty {
      FindUnique(v.positions, row.marketId, i);
    }
  }

  lemma PlacedPositions(s: Store, row: Order, now: int)
    requires MarginFree(s, row)
    ensures var p := Place(s, row, now); p.Placed? && forall u :: u in p.store.users ==> WfPositions(p.store.users[u].positions)
  {
    hide Matched, BookAfter, BookingsAfter, AveragePrice, StatusAfter;
    MarginFreeMeans(s, row);
    MatchedIsReady(s, Admit(s, row).order, true);
  }

  // ----- a store in which it happens

  /** Selling 80 against a long 40 passes for a reducing order and needs no margin; selling 90 does not. */
  lemma TwiceThePositionCountsAsReducing(m: Uuid, margin: real, average: real)
    ensures var u := User(0.0, margin, [Position(m, LONG, 40.0, margin, average, average)], []);
      && CheckMargin(u, Order(1, 1, m, SHORT, Market, 80.0, 0.0, 1.0, 0.0)).Admitted?
      && CheckMargin(u, Order(1, 1, m, SHORT, Market, 90.0, 0.0, 1.0, 0.0)) == Refused(RiskIncreasing)
  {
    var ps := [Position(m, LONG, 40.0, margin, average, average)];
    assert ps[0].marketId == m;
    assert FindPosition(ps, m) == 0;
  }

  /** Account 1 is long 40 with free collateral; account 2 has collateral only. */
  function TwoAccounts(bids: Levels, asks: Levels): Store {
    var s, m := InitialStore(), MarketOf(SOL);
    s.(userIds := [1, 2],
       users := map[1 := User(10.0, 500.0, [Position(m, LONG, 40.0, 500.0, 90.0, 77.63)], []), 2 := User(1000.0, 500.0, [], [])],
       books := s.books[m := s.books[m].(bids := bids, asks := asks)])
  }

  function LoneOrder(id: Uuid, u: Uuid, kind: PositionType, qty: real, margin: real): OpenOrder {
    OpenOrder(id, u, MarketOf(SOL), kind, qty, 0.0, margin, Open, 0)
  }

  function LoneLevel(p: real, r: OpenOrder): Levels {
    map[p := Level(Unfilled(r), [r])]
  }

  lemma LoneLevelIsWf(p: real, r: OpenOrder)
    requires p > 0.0 && 0.0 <= r.filledQty < r.qty
    ensures WfLevels(LoneLevel(p, r), r.positionType, r.marketId)
    ensures Queue(r.positionType, LoneLevel(p, r)) == [Slot(p, r)]
  {
    var levels := LoneLevel(p, r);
    assert Remaining([r]) == Unfilled(r) + Remaining([r][1..]);
    assert levels - {p} == map[];
    QueueUnfolds(r.positionType, levels, p);
    TimeQueueUnfolds(p, [r], []);
    var i := FirstCreated([r]);
    assert RemoveAt([r], i) == [];
    assert TimeQueue(p, [r]) + [] == TimeQueue(p, [r]);
  }

  lemma GreedyOfOne(x: Slot, kind: PositionType, limit: real, need: real, u: Uuid)
    requires Acceptable(kind, x.price, limit) && 0.0 < need <= Unfilled(x.order)
    ensures var es := Greedy([x], kind, limit, need);
      && es == [Execution(x, need)]
      && TotalQty(es) == need
      && OwnQty(es, u) == if x.order.userId == u then need else 0.0
  {
    assert [x][1..] == [];
    var es := Greedy([x], kind, limit, need);
    assert Min(Unfilled(x.order), need) == need && Greedy([], kind, limit, 0.0) == [];
    assert es == [Execution(x, need)] + [];
    assert es[1..] == [];
  }

  lemma TwoAccountsIsWf(bids: Levels, asks: Levels)
    requires WfLevels(bids, LONG, MarketOf(SOL)) && WfLevels(asks, SHORT, MarketOf(SOL))
    requires bids == map[] || asks == map[]
    requires OwnersKnown(bids, TwoAccounts(bids, asks).users) && OwnersKnown(asks, TwoAccounts(bids, asks).users)
    ensures WfStore(TwoAccounts(bids, asks))
  {
    var s := TwoAccounts(bids, asks);
    InitialStoreIsWf();
    forall m | m in s.books ensures WfBook(s.books[m], m, s.users) {
      assert WfBook(InitialStore().books[m], m, InitialStore().users);
      forall kind ensures SideWf(s.books[m], kind, m, s.users) {
        assert SideWf(InitialStore().books[m], kind, m, InitialStore().users);
      }
    }
  }

  /**
   * As a taker. Account 2 bids for 80 at 90; account 1, long 40, sells 80 there without margin. It is let
   * through, and leaves account 1 short 40 with nothing behind it and the old margin still locked.
   */
  lemma TwiceThePositionTurnsRound(now: int)
    ensures var s := TwoAccounts(LoneLevel(90.0, LoneOrder(5, 2, LONG, 80.0, 500.0)), map[]);
      var row := Order(6, 1, MarketOf(SOL), SHORT, Limit, 80.0, 90.0, 0.0, 0.0);
      && WfStore(s)
      && var p := Place(s, row, now);
      && p.Placed? && 1 in p.store.users
      && var v := p.store.users[1];
      && |v.positions| == 1 && v.positions[0].marketId == MarketOf(SOL)
      && v.positions[0].kind == SHORT && v.positions[0].qty == 40.0 && Unbacked(v.positions[0])
      && v.locked == 500.0
  {
    hide Queue, Place, WfStore;
    var m, r := MarketOf(SOL), LoneOrder(5, 2, LONG, 80.0, 500.0);
    var bids := LoneLevel(90.0, r);
    var s := TwoAccounts(bids, map[]);
    var row := Order(6, 1, m, SHORT, Limit, 80.0, 90.0, 0.0, 0.0);
    LoneLevelIsWf(90.0, r);
    TwoAccountsIsWf(bids, map[]);
    assert Held(s, row) == 0;
    MarginFreeAdmission(s, row);
    GreedyOfOne(Slot(90.0, r), LONG, 90.0, 80.0, 1);
    assert Side(s.books[m], LONG) == bids;
    assert Admit(s, row).order.price == 90.0;
    MarginFreeOrderNets(s, row, now);
  }
}
