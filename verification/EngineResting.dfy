/** The maker's half of closing without margin. */
module EngineResting {
  import opened Exchange
  import opened Books
  import opened Positions
  import opened Matching
  import opened Engine
  import opened EngineBooks
  import opened EngineClose

  /** What is left of a margin-free limit order rests without margin. */
  lemma MarginFreeRemainderRests(s: Store, row: Order, now: int)
    requires MarginFree(s, row) && row.orderType == Limit && TotalQty(Taken(s, row)) < row.qty
    ensures var p := Place(s, row, now);
      && p.Placed? && row.marketId in p.store.books
      && var side := Side(p.store.books[row.marketId], row.positionType);
      && row.price in side
      && OpenOrder(row.id, row.userId, row.marketId, row.positionType, row.qty, p.filled, 0.0, Open, now) in side[row.price].openOrders
  {
    hide WfStore, MatchFrom, UsersAfter, BookingsAfter, AveragePrice, StatusAfter, TotalQty, Taken, Queue, Liquidity;
    MarginFreeMeans(s, row);
    MarginFreeMatch(s, row);
    MatchedQuantities(s, Admit(s, row).order, true);
    var o := Admit(s, row).order;
    var st := Matched(s, o, true);
    NoMargin(o.qty, st.remaining);
    var r := RestingOrder(st, o, now);
    var side := Side(s.books[row.marketId], row.positionType);
    var os := Append(side, row.price, r)[row.price].openOrders;
    assert os[|os| - 1] == r;
  }

  // ----- a list of trades against one position

  /** The account after the trades, one by one. */
  ghost function AfterTrades(u: User, ts: seq<Trade>): User
    decreases |ts|
  {
    if ts == [] then u
    else
      var t := ts[0];
      if t.qty > 0.0 && WfPositions(u.positions) then AfterTrades(CreatePosition(u, t, t.averagePrice), ts[1..]) else u
  }

  ghost predicate TradesOf(ts: seq<Trade>, m: Uuid, kind: PositionType) {
    forall i :: 0 <= i < |ts| ==> ts[i].marketId == m && ts[i].kind == kind && ts[i].qty > 0.0
  }

  function SumQty(ts: seq<Trade>): real {
    if ts == [] then 0.0 else ts[0].qty + SumQty(ts[1..])
  }

  function SumMargin(ts: seq<Trade>): real {
    if ts == [] then 0.0 else ts[0].margin + SumMargin(ts[1..])
  }

  /** What netting the trades against a position of that margin and size unlocks. */
  function Released(margin: real, qty: real, ts: seq<Trade>): real
    requires qty > 0.0
    decreases |ts|
  {
    if ts == [] then 0.0
    else
      var t := ts[0];
      if t.qty <= 0.0 then 0.0
      else if t.qty < qty then
        var left := RelativeMargin(margin, qty, qty - t.qty);
        left + Released(left, qty - t.qty, ts[1..])
      else if t.qty == qty then margin
      else RelativeMargin(t.margin, t.qty, t.qty - qty)
  }

  /** The margin behind what the trades turn a position of that size into. */
  function MarginTurned(qty: real, ts: seq<Trade>): real
    requires qty > 0.0
    decreases |ts|
  {
    if ts == [] then 0.0
    else
      var t := ts[0];
      if t.qty <= 0.0 then 0.0
      else if t.qty < qty then MarginTurned(qty - t.qty, ts[1..])
      else if t.qty == qty then SumMargin(ts[1..])
      else RelativeMargin(t.margin, t.qty, t.qty - qty) + SumMargin(ts[1..])
  }

  /** The account stands on side `kind` with that much and that margin, and is unbacked if the margin is nothing. */
  ghost predicate StandsAt(v: User, m: Uuid, kind: PositionType, qty: real, margin: real) {
    && WfPositions(v.positions)
    && var j := FindPosition(v.positions, m);
    && j >= 0 && v.positions[j].kind == kind && v.positions[j].qty == qty && v.positions[j].margin == margin
    && (margin == 0.0 ==> Unbacked(v.positions[j]))
  }

  lemma AtIndex(ps: seq<Position>, i: nat, e: Position)
    requires WfPositions(ps) && i < |ps| && e.marketId == ps[i].marketId
    ensures FindPosition(ps[i := e], e.marketId) == i
  {
    assert forall j :: 0 <= j < |ps| ==> ps[i := e][j].marketId == ps[j].marketId;
  }

  lemma AddedStands(u: User, t: Trade, last: real, qty: real, margin: real)
    requires StandsAt(u, t.marketId, t.kind, qty, margin) && t.qty > 0.0
    ensures var v := CreatePosition(u, t, last); StandsAt(v, t.marketId, t.kind, qty + t.qty, margin + t.margin) && v.locked == u.locked
  {
    hide LiquidationPrice, WeightedAverage, RelativeMargin;
    var i := FindPosition(u.positions, t.marketId);
    var e := Added(u.positions[i], t);
    NettingAddsSignedQuantity(u, t, last, t.marketId);
    AtIndex(u.positions, i, e);
    if margin + t.margin == 0.0 {
      NothingToLose(e.qty, t.kind, e.averagePrice);
    }
  }

  lemma OpenedStands(u: User, t: Trade, last: real)
    requires WfPositions(u.positions) && FindPosition(u.positions, t.marketId) < 0 && t.qty > 0.0
    ensures var v := CreatePosition(u, t, last); StandsAt(v, t.marketId, t.kind, t.qty, t.margin) && v.locked == u.locked
  {
    hide LiquidationPrice;
    NettingAddsSignedQuantity(u, t, last, t.marketId);
    var after := u.positions + [Opened(t)];
    assert forall j :: 0 <= j < |u.positions| ==> after[j] == u.positions[j];
    FindUnique(after, t.marketId, |u.positions|);
    if t.margin == 0.0 {
      NothingToLose(t.qty, t.kind, t.averagePrice);
    }
  }

  lemma {:induction false} TradesAdd(u: User, ts: seq<Trade>, m: Uuid, kind: PositionType, qty: real, margin: real)
    requires TradesOf(ts, m, kind) && StandsAt(u, m, kind, qty, margin)
    ensures var v := AfterTrades(u, ts);
      StandsAt(v, m, kind, qty + SumQty(ts), margin + SumMargin(ts)) && v.locked == u.locked
    decreases |ts|
  {
    hide StandsAt, CreatePosition;
    if ts != [] {
      assert WfPositions(u.positions) by { StandingIsWf(u, m, kind, qty, margin); }
      AddedStands(u, ts[0], ts[0].averagePrice, qty, margin);
      assert TradesOf(ts[1..], m, kind);
      TradesAdd(CreatePosition(u, ts[0], ts[0].averagePrice), ts[1..], m, kind, qty + ts[0].qty, margin + ts[0].margin);
    }
  }

  lemma StandingIsWf(v: User, m: Uuid, kind: PositionType, qty: real, margin: real)
    requires StandsAt(v, m, kind, qty, margin)
    ensures WfPositions(v.positions)
  {
  }

  lemma TurnedStands(u: User, t: Trade, last: real, i: nat)
    requires WfPositions(u.positions) && i < |u.positions| && u.positions[i].marketId == t.marketId
    requires u.positions[i].kind == Opposite(t.kind) && t.qty > u.positions[i].qty
    ensures var v, q := CreatePosition(u, t, last), u.positions[i].qty;
      && StandsAt(v, t.marketId, t.kind, t.qty - q, RelativeMargin(t.margin, t.qty, t.qty - q))
      && v.locked == u.locked - RelativeMargin(t.margin, t.qty, t.qty - q)
  {
    hide LiquidationPrice, WeightedAverage, RelativeMargin;
    FindUnique(u.positions, t.marketId, i);
    var e := Reduced(u.positions[i], t);
    NettingAddsSignedQuantity(u, t, last, t.marketId);
    AtIndex(u.positions, i, e);
    if e.margin == 0.0 {
      NothingToLose(e.qty, t.kind, e.averagePrice);
    }
  }

  lemma ReducedKeeps(u: User, t: Trade, last: real, i: nat)
    requires WfPositions(u.positions) && i < |u.positions| && u.positions[i].marketId == t.marketId
    requires u.positions[i].kind == Opposite(t.kind) && 0.0 < t.qty < u.positions[i].qty
    ensures var v, e := CreatePosition(u, t, last), u.positions[i];
      var left := RelativeMargin(e.margin, e.qty, e.qty - t.qty);
      && WfPositions(v.positions) && |v.positions| == |u.positions|
      && v.positions[i].marketId == t.marketId && v.positions[i].kind == e.kind
      && v.positions[i].qty == e.qty - t.qty && v.positions[i].margin == left
      && v.locked == u.locked - left
  {
    hide LiquidationPrice, WeightedAverage, RelativeMargin;
    FindUnique(u.positions, t.marketId, i);
    NettingAddsSignedQuantity(u, t, last, t.marketId);
  }

  /** What trades against a position make of the account, by their total against the size held. */
  ghost predicate Outcome(u: User, v: User, i: nat, ts: seq<Trade>, m: Uuid, kind: PositionType)
    requires i < |u.positions| && u.positions[i].qty > 0.0
  {
    var held, j := u.positions[i], FindPosition(v.positions, m);
    && WfPositions(v.positions)
    && v.locked == u.locked - Released(held.margin, held.qty, ts)
    && (SumQty(ts) < held.qty ==> j >= 0 && v.positions[j].kind == held.kind && v.positions[j].qty == held.qty - SumQty(ts))
    && (SumQty(ts) == held.qty ==> j < 0)
    && (SumQty(ts) > held.qty ==> StandsAt(v, m, kind, SumQty(ts) - held.qty, MarginTurned(held.qty, ts)))
  }

  lemma {:induction false} NonNegativeSum(ts: seq<Trade>, m: Uuid, kind: PositionType)
    requires TradesOf(ts, m, kind)
    ensures SumQty(ts) >= 0.0 && (ts != [] ==> SumQty(ts) > 0.0)
  {
    if ts != [] {
      assert TradesOf(ts[1..], m, kind);
      NonNegativeSum(ts[1..], m, kind);
    }
  }

  lemma {:induction false} TradesNet(u: User, ts: seq<Trade>, m: Uuid, kind: PositionType, i: nat)
    requires WfPositions(u.positions) && i < |u.positions| && TradesOf(ts, m, kind)
    requires u.positions[i].marketId == m && u.positions[i].kind == Opposite(kind)
    ensures Outcome(u, AfterTrades(u, ts), i, ts, m, kind)
    decreases |ts|
  {
    hide CreatePosition, RelativeMargin;
    FindUnique(u.positions, m, i);
    if ts != [] {
      var t, held, rest := ts[0], u.positions[i], ts[1..];
      var v := CreatePosition(u, t, t.averagePrice);
      assert TradesOf(rest, m, kind);
      NonNegativeSum(rest, m, kind);
      if t.qty < held.qty {
        ReducedKeeps(u, t, t.averagePrice, i);
        TradesNet(v, rest, m, kind, i);
      } else if t.qty == held.qty {
        OppositeTrade(u, t, t.averagePrice, i);
        NettingAddsSignedQuantity(u, t, t.averagePrice, m);
        if rest != [] {
          OpenedStands(v, rest[0], rest[0].averagePrice);
          assert TradesOf(rest[1..], m, kind);
          TradesAdd(CreatePosition(v, rest[0], rest[0].averagePrice), rest[1..], m, kind, rest[0].qty, rest[0].margin);
        }
      } else {
        TurnedStands(u, t, t.averagePrice, i);
        TradesAdd(v, rest, m, kind, t.qty - held.qty, RelativeMargin(t.margin, t.qty, t.qty - held.qty));
      }
    }
  }

  // ----- what a match does to one maker

  /** The trades the executions make with an account's resting orders. */
  function MakerTrades(es: seq<Execution>, u: Uuid): seq<Trade> {
    if es == [] then []
    else
      var r, rest := es[0].slot.order, MakerTrades(es[1..], u);
      if r.userId == u && r.qty > 0.0 then [MakerTrade(r, es[0].qty, es[0].slot.price)] + rest else rest
  }

  lemma MakerTradesCons(e: Execution, es: seq<Execution>, u: Uuid)
    ensures MakerTrades([e] + es, u)
      == if e.slot.order.userId == u && e.slot.order.qty > 0.0 then [MakerTrade(e.slot.order, e.qty, e.slot.price)] + MakerTrades(es, u)
         else MakerTrades(es, u)
  {
    assert ([e] + es)[1..] == es;
  }

  /** One fill is one step of the greedy walk, and the maker's one trade. */
  lemma FillIsOneTrade(st: Progress, o: Order, u: Uuid)
    requires Ready(st, o) && !Done(st, o) && u in st.users
    ensures var kind, next := Opposite(o.positionType), FillHead(st, o);
      var es, rest := Greedy(Queue(kind, st.levels), kind, o.price, st.remaining), Greedy(Queue(kind, next.levels), kind, o.price, next.remaining);
      u in next.users && AfterTrades(st.users[u], MakerTrades(es, u)) == AfterTrades(next.users[u], MakerTrades(rest, u))
  {
    hide Queue, LevelsAfter, CreatePosition, FillHead;
    HeadIsKnown(st, o);
    FillHeadTrades(st, o);
    FillHeadConsumesFront(st, o);
    FillHeadExecutes(st, o);
    var kind, next := Opposite(o.positionType), FillHead(st, o);
    var q, after := Queue(kind, st.levels), Queue(kind, next.levels);
    var take := Min(Unfilled(q[0].order), st.remaining);
    GreedyContinues(q, after, kind, o.price, st.remaining);
    var rest := Greedy(after, kind, o.price, next.remaining);
    MakerTradesCons(Execution(q[0], take), rest, u);
    if q[0].order.userId == u {
      assert ([MakerTrade(q[0].order, take, q[0].price)] + MakerTrades(rest, u))[1..] == MakerTrades(rest, u);
    }
  }

  /** A whole match is, for each account, the trades the greedy walk makes with its resting orders. */
  lemma {:induction false} MatchIsMakerTrades(st: Progress, o: Order, u: Uuid)
    requires Ready(st, o) && u in st.users
    ensures var kind := Opposite(o.positionType);
      && u in MatchFrom(st, o).users
      && MatchFrom(st, o).users[u] == AfterTrades(st.users[u], MakerTrades(Greedy(Queue(kind, st.levels), kind, o.price, st.remaining), u))
    decreases Measure(st, o)
  {
    hide FillHead, Ready, Done, MakerTrades, AfterTrades, Greedy, Queue;
    if Done(st, o) {
      DoneLeavesNothingToGreed(st, o);
      NoTrades(st.users[u], u);
    } else {
      FillHeadReady(st, o);
      FillHeadProgresses(st, o);
      FillIsOneTrade(st, o, u);
      MatchIsMakerTrades(FillHead(st, o), o, u);
    }
  }

  lemma NoTrades(v: User, u: Uuid)
    ensures AfterTrades(v, MakerTrades([], u)) == v
  {
  }

  lemma {:induction false} MakerTradesAre(q: seq<Slot>, kind: PositionType, limit: real, need: real, u: Uuid, m: Uuid)
    requires need >= 0.0 && forall i :: 0 <= i < |q| ==> Resting(q[i].order, kind, m)
    ensures var ts := MakerTrades(Greedy(q, kind, limit, need), u);
      TradesOf(ts, m, kind) && SumQty(ts) == OwnQty(Greedy(q, kind, limit, need), u)
  {
    hide RelativeMargin;
    if q != [] && need > 0.0 && Acceptable(kind, q[0].price, limit) {
      var take := Min(Unfilled(q[0].order), need);
      assert Resting(q[0].order, kind, m);
      assert forall i :: 0 <= i < |q[1..]| ==> q[1..][i] == q[i + 1];
      MakerTradesAre(q[1..], kind, limit, need - take, u, m);
      var rest := Greedy(q[1..], kind, limit, need - take);
      MakerTradesCons(Execution(q[0], take), rest, u);
      assert ([Execution(q[0], take)] + rest)[1..] == rest;
      var ts := MakerTrades(Greedy(q, kind, limit, need), u);
      assert q[0].order.userId == u ==> ts[1..] == MakerTrades(rest, u);
    }
  }

  lemma PlacedAsMatched(s: Store, row: Order, now: int)
    requires WfStore(s) && row.qty > 0.0 && Admit(s, row).Admitted?
    ensures Place(s, row, now).Placed?
    ensures var o, p := Admit(s, row).order, Place(s, row, now);
      && o.marketId == row.marketId && o.userId == row.userId && o.positionType == row.positionType
      && o.marketId in s.books && o.userId in s.users
      && var st := Matched(s, o, Admit(s, row).reducing);
      && Ready(st, o) && st.users.Keys == s.users.Keys
      && p.fills == st.fills && p.store.users.Keys == st.users.Keys
      && forall u :: u in st.users && u != row.userId ==> p.store.users[u] == st.users[u]
  {
    hide MatchFrom, CreatePosition, BookAfter, BookingsAfter, AveragePrice, StatusAfter;
    AdmittedKeepsIdentity(s, row);
    MatchedIsReady(s, Admit(s, row).order, Admit(s, row).reducing);
  }

  lemma QueueRests(s: Store, m: Uuid, kind: PositionType)
    requires WfStore(s) && m in s.books
    ensures var q := Queue(kind, Side(s.books[m], kind)); forall i :: 0 <= i < |q| ==> Resting(q[i].order, kind, m)
  {
    hide Queue;
    assert WfBook(s.books[m], m, s.users);
    assert SideWf(s.books[m], kind, m, s.users);
    var levels := Side(s.books[m], kind);
    var q := Queue(kind, levels);
    forall i | 0 <= i < |q| ensures Resting(q[i].order, kind, m) {
      SlotsComeFromLevels(kind, levels, i);
      assert WfLevel(levels[q[i].price], kind, m);
    }
  }

  /** An account that did not send the order has, after it, made exactly the trades of its orders that were taken. */
  lemma MakerAfterPlace(s: Store, row: Order, now: int, u: Uuid)
    requires WfStore(s) && row.qty > 0.0 && Admit(s, row).Admitted? && u in s.users && u != row.userId
    ensures var p := Place(s, row, now);
      && p.Placed? && u in p.store.users
      && p.store.users[u] == AfterTrades(s.users[u], MakerTrades(Taken(s, row), u))
      && TradesOf(MakerTrades(Taken(s, row), u), row.marketId, Opposite(row.positionType))
      && SumQty(MakerTrades(Taken(s, row), u)) == OwnQty(Taken(s, row), u)
  {
    hide MatchFrom, Ready, WfStore, Queue, Greedy, MakerTrades, AfterTrades, Execute;
    AdmittedKeepsIdentity(s, row);
    PlacedAsMatched(s, row, now);
    var o, reducing := Admit(s, row).order, Admit(s, row).reducing;
    var start := Start(s.books[o.marketId], LockFor(s.users, o, reducing), o);
    StartIsReady(s, o, reducing);
    MatchIsMakerTrades(start, o, u);
    var kind := Opposite(row.positionType);
    QueueRests(s, row.marketId, kind);
    MakerTradesAre(Queue(kind, Side(s.books[row.marketId], kind)), kind, o.price, row.qty, u, row.marketId);
  }

  ghost function HeldBy(s: Store, u: Uuid, m: Uuid): int
    requires u in s.users
  {
    FindPosition(s.users[u].positions, m)
  }

  /** The account stands on the other side of the order that came in: it was turned round. */
  ghost predicate TurnedBy(v: User, row: Order) {
    var j := FindPosition(v.positions, row.marketId);
    j >= 0 && v.positions[j].kind == Opposite(row.positionType)
  }

  /**
   * Resting does not help. An account holds a position and someone else's order comes in: the position
   * turns round if and only if what that order takes of the account's resting orders, known from the book
   * before, is more than it holds. What it turns into is unbacked if and only if the margins those orders
   * rest with leave nothing behind it, and exactly what nettings release is unlocked.
   */
  lemma RestingOrdersFlipIff(s: Store, row: Order, now: int, u: Uuid)
    requires WfStore(s) && row.qty > 0.0 && Admit(s, row).Admitted?
    requires u in s.users && u != row.userId
    requires HeldBy(s, u, row.marketId) >= 0 && s.users[u].positions[HeldBy(s, u, row.marketId)].kind == row.positionType
    ensures var p, held := Place(s, row, now), s.users[u].positions[HeldBy(s, u, row.marketId)];
      && p.Placed? && u in p.store.users && held.qty > 0.0
      && var v, ts := p.store.users[u], MakerTrades(Taken(s, row), u);
      && (TurnedBy(v, row) <==> OwnQty(Taken(s, row), u) > held.qty)
      && (TurnedBy(v, row) ==>
            (Unbacked(v.positions[FindPosition(v.positions, row.marketId)]) <==> MarginTurned(held.qty, ts) == 0.0))
      && v.locked == s.users[u].locked - Released(held.margin, held.qty, ts)
  {
    hide Place, WfStore, Taken, Admit, MakerTrades, AfterTrades, OwnQty, SumQty, MarginTurned, Released;
    MakerAfterPlace(s, row, now, u);
    KnownPositions(s, u);
    TradesNet(s.users[u], MakerTrades(Taken(s, row), u), row.marketId, Opposite(row.positionType), HeldBy(s, u, row.marketId));
  }

  /** The account's orders on the side have no margin. */
  ghost predicate RestsWithoutMargin(levels: Levels, u: Uuid) {
    forall p, r :: p in levels && r in levels[p].openOrders && r.userId == u ==> r.margin == 0.0
  }

  ghost predicate NoMargins(ts: seq<Trade>) {
    forall i :: 0 <= i < |ts| ==> ts[i].margin == 0.0
  }

  lemma {:induction false} NothingBehind(qty: real, ts: seq<Trade>)
    requires qty > 0.0 && NoMargins(ts)
    ensures MarginTurned(qty, ts) == 0.0 && SumMargin(ts) == 0.0
    ensures ts != [] && ts[0].qty > qty ==> forall margin :: Released(margin, qty, ts) == 0.0
    decreases |ts|
  {
    hide RelativeMargin;
    if ts != [] {
      assert NoMargins(ts[1..]);
      if 0.0 < ts[0].qty < qty {
        NothingBehind(qty - ts[0].qty, ts[1..]);
      }
      NothingBehind(qty, ts[1..]);
      if ts[0].qty > qty {
        NoMargin(ts[0].qty, ts[0].qty - qty);
      }
    }
  }

  lemma {:induction false} TradesWithoutMargin(q: seq<Slot>, kind: PositionType, limit: real, need: real, u: Uuid)
    requires forall i :: 0 <= i < |q| && q[i].order.userId == u ==> q[i].order.margin == 0.0
    ensures NoMargins(MakerTrades(Greedy(q, kind, limit, need), u))
  {
    hide RelativeMargin;
    if q != [] && need > 0.0 && Acceptable(kind, q[0].price, limit) {
      var r, take := q[0].order, Min(Unfilled(q[0].order), need);
      assert forall i :: 0 <= i < |q[1..]| ==> q[1..][i] == q[i + 1];
      TradesWithoutMargin(q[1..], kind, limit, need - take, u);
      MakerTradesCons(Execution(q[0], take), Greedy(q[1..], kind, limit, need - take), u);
      if r.userId == u && r.qty > 0.0 {
        NoMargin(r.qty, take);
      }
    }
  }

  /**
   * Orders let through without margin rest without it. Whatever they turn round is unbacked; and when the
   * first of them taken is more than is held, the margin of the old position stays locked.
   */
  lemma RestingWithoutMarginIsUnbacked(s: Store, row: Order, now: int, u: Uuid)
    requires WfStore(s) && row.qty > 0.0 && Admit(s, row).Admitted?
    requires u in s.users && u != row.userId && row.marketId in s.books && RestsWithoutMargin(Facing(s, row), u)
    requires HeldBy(s, u, row.marketId) >= 0 && s.users[u].positions[HeldBy(s, u, row.marketId)].kind == row.positionType
    ensures var p, held := Place(s, row, now), s.users[u].positions[HeldBy(s, u, row.marketId)];
      && p.Placed? && u in p.store.users
      && var v, ts := p.store.users[u], MakerTrades(Taken(s, row), u);
      && (TurnedBy(v, row) ==> Unbacked(v.positions[FindPosition(v.positions, row.marketId)]))
      && (ts != [] && ts[0].qty > held.qty ==> v.locked == s.users[u].locked)
  {
    hide Place, WfStore, Admit, MakerTrades, OwnQty, MarginTurned, Released, Queue, Greedy, TurnedBy, Unbacked;
    AdmittedKeepsIdentity(s, row);
    RestingOrdersFlipIff(s, row, now, u);
    var kind := Opposite(row.positionType);
    var q := Queue(kind, Facing(s, row));
    forall i | 0 <= i < |q| && q[i].order.userId == u ensures q[i].order.margin == 0.0 {
      SlotsComeFromLevels(kind, Facing(s, row), i);
    }
    TradesWithoutMargin(q, kind, Admit(s, row).order.price, row.qty, u);
    NothingBehind(s.users[u].positions[HeldBy(s, u, row.marketId)].qty, MakerTrades(Taken(s, row), u));
  }

  // ----- a store in which it happens

  /** The closing order of account 1, when there is nothing to trade against, rests without margin. */
  lemma CloseRests(now: int)
    ensures var s, m := TwoAccounts(map[], map[]), MarketOf(SOL);
      var row := Order(6, 1, m, SHORT, Limit, 80.0, 100.0, 0.0, 0.0);
      && WfStore(s)
      && Place(s, row, now).Placed?
      && Place(s, row, now).store == TwoAccounts(map[], LoneLevel(100.0, LoneOrder(6, 1, SHORT, 80.0, 0.0).(createdAt := now)))
  {
    hide WfStore, Queue;
    var s, m := TwoAccounts(map[], map[]), MarketOf(SOL);
    var row := Order(6, 1, m, SHORT, Limit, 80.0, 100.0, 0.0, 0.0);
    TwoAccountsIsWf(map[], map[]);
    assert Held(s, row) == 0;
    MarginFreeAdmission(s, row);
    var o := Admit(s, row).order;
    assert o == row;
    StartIsReady(s, o, true);
    var st := Start(s.books[m], s.users, o);
    assert Matched(s, o, true) == st;
    NoMargin(80.0, 80.0);
    var after := LoneLevel(100.0, LoneOrder(6, 1, SHORT, 80.0, 0.0).(createdAt := now));
    assert Append(map[], 100.0, RestingOrder(st, o, now)) == after;
    assert s.books[m := BookAfter(s.books[m], st, o, now)] == TwoAccounts(map[], after).books;
  }

  /**
   * As a maker. Account 1, long 40, offers 80 at 100 without margin and nobody takes it; then account 2
   * buys 80 there. Account 1 is short 40 with nothing behind it and the old margin still locked.
   */
  lemma RestingCloseTurnsThePositionRound(now: int, later: int)
    ensures var s, m := TwoAccounts(map[], map[]), MarketOf(SOL);
      var row, buy := Order(6, 1, m, SHORT, Limit, 80.0, 100.0, 0.0, 0.0), Order(7, 2, m, LONG, Limit, 80.0, 100.0, 0.0, 500.0);
      && WfStore(s) && Place(s, row, now).Placed?
      && var t := Place(s, row, now).store;
      && WfStore(t)
      && Place(t, buy, later).Placed? && 1 in Place(t, buy, later).store.users
      && var v := Place(t, buy, later).store.users[1];
      && FindPosition(v.positions, m) >= 0
      && v.positions[FindPosition(v.positions, m)].kind == SHORT && Unbacked(v.positions[FindPosition(v.positions, m)])
      && v.locked == 500.0
  {
    hide Queue, Place, WfStore, Unbacked, MakerTrades, OwnQty;
    var m, r := MarketOf(SOL), LoneOrder(6, 1, SHORT, 80.0, 0.0).(createdAt := now);
    var asks := LoneLevel(100.0, r);
    var t, buy := TwoAccounts(map[], asks), Order(7, 2, m, LONG, Limit, 80.0, 100.0, 0.0, 500.0);
    CloseRests(now);
    LoneLevelIsWf(100.0, r);
    TwoAccountsIsWf(map[], asks);
    assert t.users[1].positions[0].marketId == m;
    assert FindPosition(t.users[1].positions, m) == 0;
    GreedyOfOne(Slot(100.0, r), SHORT, 100.0, 80.0, 1);
    assert Taken(t, buy) == [Execution(Slot(100.0, r), 80.0)] by {
      assert Side(t.books[m], SHORT) == asks && Admit(t, buy).order.price == 100.0;
    }
    MakerTradesCons(Execution(Slot(100.0, r), 80.0), [], 1);
    assert [Execution(Slot(100.0, r), 80.0)] + [] == [Execution(Slot(100.0, r), 80.0)];
    RestingOrdersFlipIff(t, buy, later, 1);
    RestingWithoutMarginIsUnbacked(t, buy, later, 1);
  }
}
