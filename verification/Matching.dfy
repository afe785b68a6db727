/** One order against one side, fill by fill. */
module Matching {
  import opened Exchange
  import opened Sequences
  import opened Books
  import opened Positions

  /** PnL booked to an account by a netting; the source keeps only the running collateral. */
  datatype Booking = Booking(userId: Uuid, pnl: real)

  datatype Progress = Progress(
    levels: Levels,
    users: map<Uuid, User>,
    last: real,
    remaining: real,
    filled: real,
    total: real,
    status: Status,
    fills: seq<Fill>,
    updates: seq<OrderUpdate>,
    bookings: seq<Booking>)

  ghost predicate WfUsers(users: map<Uuid, User>) {
    forall u :: u in users ==> WfPositions(users[u].positions)
  }

  ghost predicate OwnersKnown(levels: Levels, users: map<Uuid, User>) {
    forall p, o :: p in levels && o in levels[p].openOrders ==> o.userId in users
  }

  ghost predicate Ready(st: Progress, o: Order) {
    && WfLevels(st.levels, Opposite(o.positionType), o.marketId)
    && OwnersKnown(st.levels, st.users)
    && WfUsers(st.users)
  }

  /** A price the taker accepts: at most its limit when buying, at least its limit when selling. */
  predicate Acceptable(kind: PositionType, p: real, limit: real) {
    Rank(kind, p) <= Rank(kind, limit)
  }

  ghost predicate Done(st: Progress, o: Order) {
    || st.remaining <= 0.0
    || st.levels == map[]
    || !Acceptable(Opposite(o.positionType), BestPrice(Opposite(o.positionType), st.levels), o.price)
  }

  function Notional(price: real, qty: real): real {
    price * qty
  }

  /** A resting order after `take` of it traded. */
  function Hit(r: OpenOrder, take: real): OpenOrder
    requires r.filledQty < r.qty
  {
    r.(filledQty := r.filledQty + take,
       status := if take < Unfilled(r) then PartiallyFilled else Filled,
       margin := RelativeMargin(r.margin, Unfilled(r), Unfilled(r) - take))
  }

  /** A side after `take` of order `i` at `p` traded: finished orders leave, emptied levels go. */
  function LevelsAfter(levels: Levels, p: real, i: nat, take: real): Levels
    requires p in levels && i < |levels[p].openOrders|
    requires levels[p].openOrders[i].filledQty < levels[p].openOrders[i].qty
  {
    var level := levels[p];
    var r := level.openOrders[i];
    var left := level.availableQty - take;
    if take < Unfilled(r) then levels[p := Level(left, level.openOrders[i := Hit(r, take)])]
    else if left <= 0.0 then levels - {p}
    else levels[p := Level(left, RemoveAt(level.openOrders, i))]
  }

  function MakerTrade(r: OpenOrder, take: real, p: real): Trade
    requires r.qty > 0.0
  {
    Trade(r.marketId, r.positionType, take, RelativeMargin(r.margin, r.qty, take), p)
  }

  ghost function HeadPrice(st: Progress, o: Order): real
    requires st.levels != map[]
  {
    BestPrice(Opposite(o.positionType), st.levels)
  }

  ghost function HeadIndex(st: Progress, o: Order): nat
    requires Ready(st, o) && st.levels != map[]
  {
    FirstCreated(st.levels[HeadPrice(st, o)].openOrders)
  }

  ghost function Head(st: Progress, o: Order): OpenOrder
    requires Ready(st, o) && st.levels != map[]
  {
    st.levels[HeadPrice(st, o)].openOrders[HeadIndex(st, o)]
  }

  /** The effect of one fill at `p` against order `i` of that level. */
  function FillAt(st: Progress, o: Order, p: real, i: nat): Progress
    requires p in st.levels && i < |st.levels[p].openOrders| && st.remaining > 0.0
    requires 0.0 <= st.levels[p].openOrders[i].filledQty < st.levels[p].openOrders[i].qty
    requires st.levels[p].openOrders[i].userId in st.users
    requires WfPositions(st.users[st.levels[p].openOrders[i].userId].positions)
  {
    var r := st.levels[p].openOrders[i];
    var take := Min(Unfilled(r), st.remaining);
    var maker := st.users[r.userId];
    var trade := MakerTrade(r, take, p);
    Progress(
      LevelsAfter(st.levels, p, i, take),
      st.users[r.userId := CreatePosition(maker, trade, p)],
      p,
      st.remaining - take,
      st.filled + take,
      st.total + Notional(p, take),
      if Unfilled(r) < st.remaining then PartiallyFilled else Filled,
      st.fills + [Fill(r.userId, o.userId, o.marketId, take, p, r.orderId, o.id)],
      st.updates + [OrderUpdate(r.orderId, r.userId, Hit(r, take).status, Hit(r, take).filledQty)],
      st.bookings + [Booking(r.userId, Booked(maker, trade, p))])
  }

  lemma HeadIsKnown(st: Progress, o: Order)
    requires Ready(st, o) && st.levels != map[]
    ensures HeadPrice(st, o) in st.levels && HeadPrice(st, o) > 0.0
    ensures Head(st, o) in st.levels[HeadPrice(st, o)].openOrders
    ensures Resting(Head(st, o), Opposite(o.positionType), o.marketId)
    ensures Head(st, o).userId in st.users && WfPositions(st.users[Head(st, o).userId].positions)
  {
    var p := HeadPrice(st, o);
    assert WfLevel(st.levels[p], Opposite(o.positionType), o.marketId);
  }

  ghost function FillHead(st: Progress, o: Order): Progress
    requires Ready(st, o) && !Done(st, o)
  {
    HeadIsKnown(st, o);
    FillAt(st, o, HeadPrice(st, o), HeadIndex(st, o))
  }

  lemma HeadLevelStaysWf(level: Level, i: nat, take: real, kind: PositionType, m: Uuid)
    requires WfLevel(level, kind, m) && i < |level.openOrders|
    requires 0.0 < take <= Unfilled(level.openOrders[i])
    ensures var os := level.openOrders;
      if take < Unfilled(os[i]) then WfLevel(Level(level.availableQty - take, os[i := Hit(os[i], take)]), kind, m)
      else if |os| == 1 then level.availableQty - take == 0.0
      else level.availableQty - take > 0.0 && WfLevel(Level(level.availableQty - take, RemoveAt(os, i)), kind, m)
  {
    var os := level.openOrders;
    assert Resting(os[i], kind, m);
    if take < Unfilled(os[i]) {
      RemainingUpdate(os, i, Hit(os[i], take));
    } else {
      RemainingRemove(os, i);
      var rest := RemoveAt(os, i);
      forall k | 0 <= k < |rest| ensures Resting(rest[k], kind, m) {
        assert rest[k] == os[if k < i then k else k + 1];
      }
      RemainingPositive(rest, kind, m);
    }
  }

  lemma LevelsAfterIsWf(levels: Levels, p: real, i: nat, take: real, kind: PositionType, m: Uuid)
    requires WfLevels(levels, kind, m) && p in levels && i < |levels[p].openOrders|
    requires 0.0 < take <= Unfilled(levels[p].openOrders[i])
    ensures Resting(levels[p].openOrders[i], kind, m)
    ensures WfLevels(LevelsAfter(levels, p, i, take), kind, m)
    ensures p in LevelsAfter(levels, p, i, take) <==> take < Unfilled(levels[p].openOrders[i]) || |levels[p].openOrders| > 1
  {
    assert WfLevel(levels[p], kind, m);
    assert Resting(levels[p].openOrders[i], kind, m);
    HeadLevelStaysWf(levels[p], i, take, kind, m);
  }

  lemma OwnersStayKnown(levels: Levels, p: real, i: nat, take: real, users: map<Uuid, User>)
    requires p in levels && i < |levels[p].openOrders| && OwnersKnown(levels, users)
    requires levels[p].openOrders[i].filledQty < levels[p].openOrders[i].qty
    ensures OwnersKnown(LevelsAfter(levels, p, i, take), users)
  {
    var after := LevelsAfter(levels, p, i, take);
    var os := levels[p].openOrders;
    forall q, o | q in after && o in after[q].openOrders ensures o.userId in users {
      if q == p {
        assert o in os || o == Hit(os[i], take);
        assert os[i] in os;
      }
    }
  }

  /** One fill leaves a side the next fill can work on. */
  lemma FillHeadReady(st: Progress, o: Order)
    requires Ready(st, o) && !Done(st, o)
    ensures Ready(FillHead(st, o), o)
    ensures FillHead(st, o).users.Keys == st.users.Keys
  {
    HeadIsKnown(st, o);
    var p, i, r := HeadPrice(st, o), HeadIndex(st, o), Head(st, o);
    var take := Min(Unfilled(r), st.remaining);
    LevelsAfterIsWf(st.levels, p, i, take, Opposite(o.positionType), o.marketId);
    OwnersStayKnown(st.levels, p, i, take, st.users);
    NettingAddsSignedQuantity(st.users[r.userId], MakerTrade(r, take, p), p, o.marketId);
  }

  // ----- the queue while it is being consumed

  lemma QueueUnfolds(kind: PositionType, levels: Levels, p: real)
    requires IsBest(kind, levels, p)
    ensures Queue(kind, levels) == TimeQueue(p, levels[p].openOrders) + Queue(kind, levels - {p})
  {
    assert BestPrice(kind, levels) == p;
  }

  /** Rewriting the best level rewrites the front of the queue only. */
  lemma QueueOfRewrittenLevel(kind: PositionType, levels: Levels, p: real, level: Level)
    requires IsBest(kind, levels, p)
    ensures IsBest(kind, levels[p := level], p)
    ensures Queue(kind, levels[p := level]) == TimeQueue(p, level.openOrders) + Queue(kind, levels - {p})
  {
    assert levels[p := level] - {p} == levels - {p};
    QueueUnfolds(kind, levels[p := level], p);
  }

  lemma ConsThenConcat(x: Slot, tail: seq<Slot>, rest: seq<Slot>)
    ensures ([x] + tail + rest)[0] == x
    ensures ([x] + tail + rest)[1..] == tail + rest
    ensures [x] + tail + rest == [x] + (tail + rest)
  {
  }

  lemma TimeQueueUnfolds(p: real, os: seq<OpenOrder>, rest: seq<Slot>)
    requires os != []
    ensures var i := FirstCreated(os);
      && (TimeQueue(p, os) + rest)[0] == Slot(p, os[i])
      && (TimeQueue(p, os) + rest)[1..] == TimeQueue(p, RemoveAt(os, i)) + rest
  {
    var i := FirstCreated(os);
    ConsThenConcat(Slot(p, os[i]), TimeQueue(p, RemoveAt(os, i)), rest);
  }

  lemma TimeQueueOfNewHead(p: real, os: seq<OpenOrder>, h: OpenOrder)
    requires os != [] && h.createdAt == os[FirstCreated(os)].createdAt
    ensures var i := FirstCreated(os);
      TimeQueue(p, os[i := h]) == [Slot(p, h)] + TimeQueue(p, RemoveAt(os, i))
  {
    var i := FirstCreated(os);
    var os' := os[i := h];
    assert forall j :: 0 <= j < |os| ==> os'[j].createdAt == os[j].createdAt;
    FirstCreatedIsUnique(os', i);
    assert RemoveAt(os', i) == RemoveAt(os, i);
  }

  lemma QueueWithoutHead(kind: PositionType, levels: Levels, p: real, left: real)
    requires IsBest(kind, levels, p) && levels[p].openOrders != []
    ensures var os := levels[p].openOrders;
      var i := FirstCreated(os);
      && Queue(kind, levels) != []
      && Queue(kind, levels)[0] == Slot(p, os[i])
      && (|os| == 1 ==> Queue(kind, levels - {p}) == Queue(kind, levels)[1..])
      && Queue(kind, levels[p := Level(left, RemoveAt(os, i))]) == Queue(kind, levels)[1..]
  {
    var os, rest := levels[p].openOrders, Queue(kind, levels - {p});
    QueueUnfolds(kind, levels, p);
    TimeQueueUnfolds(p, os, rest);
    QueueOfRewrittenLevel(kind, levels, p, Level(left, RemoveAt(os, FirstCreated(os))));
    if |os| == 1 {
      assert TimeQueue(p, RemoveAt(os, FirstCreated(os))) + rest == rest;
    }
  }

  lemma QueueWithNewHead(kind: PositionType, levels: Levels, p: real, left: real, h: OpenOrder)
    requires IsBest(kind, levels, p) && levels[p].openOrders != []
    requires h.createdAt == levels[p].openOrders[FirstCreated(levels[p].openOrders)].createdAt
    ensures var os := levels[p].openOrders;
      && Queue(kind, levels) != []
      && Queue(kind, levels[p := Level(left, os[FirstCreated(os) := h])]) == [Slot(p, h)] + Queue(kind, levels)[1..]
  {
    var os, rest := levels[p].openOrders, Queue(kind, levels - {p});
    var i := FirstCreated(os);
    QueueUnfolds(kind, levels, p);
    TimeQueueUnfolds(p, os, rest);
    TimeQueueOfNewHead(p, os, h);
    QueueOfRewrittenLevel(kind, levels, p, Level(left, os[i := h]));
    ConsThenConcat(Slot(p, h), TimeQueue(p, RemoveAt(os, i)), rest);
  }

  /** Removing the order at the head of the queue removes exactly that slot from the queue. */
  lemma QueueLosesItsHead(kind: PositionType, levels: Levels, m: Uuid, p: real)
    requires IsBest(kind, levels, p) && WfLevel(levels[p], kind, m)
    ensures var i := FirstCreated(levels[p].openOrders);
      var r := levels[p].openOrders[i];
      && Resting(r, kind, m)
      && Queue(kind, levels) != []
      && Queue(kind, levels)[0] == Slot(p, r)
      && Queue(kind, LevelsAfter(levels, p, i, Unfilled(r))) == Queue(kind, levels)[1..]
  {
    hide Queue, TimeQueue, Hit, Remaining;
    var os := levels[p].openOrders;
    var r := os[FirstCreated(os)];
    assert Resting(r, kind, m);
    HeadLevelStaysWf(levels[p], FirstCreated(os), Unfilled(r), kind, m);
    QueueWithoutHead(kind, levels, p, levels[p].availableQty - Unfilled(r));
  }

  /** A partial fill changes the head of the queue in place and nothing behind it. */
  lemma QueueKeepsItsHead(kind: PositionType, levels: Levels, m: Uuid, p: real, take: real)
    requires IsBest(kind, levels, p) && WfLevel(levels[p], kind, m)
    requires 0.0 < take < Unfilled(levels[p].openOrders[FirstCreated(levels[p].openOrders)])
    ensures var i := FirstCreated(levels[p].openOrders);
      var r := levels[p].openOrders[i];
      && Resting(r, kind, m)
      && Queue(kind, levels) != []
      && Queue(kind, LevelsAfter(levels, p, i, take)) == [Slot(p, Hit(r, take))] + Queue(kind, levels)[1..]
  {
    hide Queue, TimeQueue, Remaining;
    var os := levels[p].openOrders;
    var r := os[FirstCreated(os)];
    assert Resting(r, kind, m);
    QueueWithNewHead(kind, levels, p, levels[p].availableQty - take, Hit(r, take));
  }

  /** The head of the side is the front of the queue. */
  lemma HeadIsFrontOfQueue(st: Progress, o: Order)
    requires Ready(st, o) && st.levels != map[]
    ensures var q := Queue(Opposite(o.positionType), st.levels);
      q != [] && q[0] == Slot(HeadPrice(st, o), Head(st, o))
  {
    HeadIsKnown(st, o);
    QueueLosesItsHead(Opposite(o.positionType), st.levels, o.marketId, HeadPrice(st, o));
  }

  lemma FillHeadConsumesFront(st: Progress, o: Order)
    requires Ready(st, o) && !Done(st, o)
    ensures var kind := Opposite(o.positionType);
      var q, after := Queue(kind, st.levels), Queue(kind, FillHead(st, o).levels);
      && q != [] && q[0] == Slot(HeadPrice(st, o), Head(st, o))
      && after == if st.remaining < Unfilled(q[0].order)
                  then [Slot(q[0].price, Hit(q[0].order, st.remaining))] + q[1..] else q[1..]
  {
    HeadIsKnown(st, o);
    HeadIsFrontOfQueue(st, o);
    var kind, p := Opposite(o.positionType), HeadPrice(st, o);
    if st.remaining < Unfilled(Head(st, o)) {
      QueueKeepsItsHead(kind, st.levels, o.marketId, p, st.remaining);
    } else {
      QueueLosesItsHead(kind, st.levels, o.marketId, p);
    }
  }

  ghost function Measure(st: Progress, o: Order): nat {
    |Queue(Opposite(o.positionType), st.levels)| + if st.remaining > 0.0 then 1 else 0
  }

  lemma FillHeadProgresses(st: Progress, o: Order)
    requires Ready(st, o) && !Done(st, o)
    ensures Measure(FillHead(st, o), o) < Measure(st, o)
  {
    FillHeadConsumesFront(st, o);
  }

  /** Fill after fill, until the order is done, the side is empty or the next price is too bad. */
  ghost function MatchFrom(st: Progress, o: Order): Progress
    requires Ready(st, o)
    decreases Measure(st, o)
  {
    if Done(st, o) then st
    else
      FillHeadReady(st, o);
      FillHeadProgresses(st, o);
      MatchFrom(FillHead(st, o), o)
  }

  lemma {:induction false} MatchEndsDone(st: Progress, o: Order)
    requires Ready(st, o)
    ensures Ready(MatchFrom(st, o), o) && Done(MatchFrom(st, o), o)
    ensures MatchFrom(st, o).users.Keys == st.users.Keys
    decreases Measure(st, o)
  {
    if !Done(st, o) {
      FillHeadReady(st, o);
      FillHeadProgresses(st, o);
      MatchEndsDone(FillHead(st, o), o);
    }
  }

  // ----- price-time priority

  /** One execution of the greedy reference: how much of which slot. */
  datatype Execution = Execution(slot: Slot, qty: real)

  /** Walk the queue from the front, taking all there is until the price or the quantity runs out. */
  function Greedy(q: seq<Slot>, kind: PositionType, limit: real, need: real): seq<Execution> {
    if q == [] || need <= 0.0 || !Acceptable(kind, q[0].price, limit) then []
    else
      var take := Min(Unfilled(q[0].order), need);
      [Execution(q[0], take)] + Greedy(q[1..], kind, limit, need - take)
  }

  /** The queue the greedy walk leaves: the prefix gone, a half-eaten order still at the front. */
  ghost function Leftover(q: seq<Slot>, kind: PositionType, limit: real, need: real): seq<Slot> {
    if q == [] || need <= 0.0 || !Acceptable(kind, q[0].price, limit) || q[0].order.filledQty >= q[0].order.qty then q
    else if need < Unfilled(q[0].order) then [Slot(q[0].price, Hit(q[0].order, need))] + q[1..]
    else Leftover(q[1..], kind, limit, need - Unfilled(q[0].order))
  }

  function FillOf(e: Execution, o: Order): Fill {
    Fill(e.slot.order.userId, o.userId, o.marketId, e.qty, e.slot.price, e.slot.order.orderId, o.id)
  }

  function FillsOf(es: seq<Execution>, o: Order): seq<Fill> {
    if es == [] then [] else [FillOf(es[0], o)] + FillsOf(es[1..], o)
  }

  function TotalQty(es: seq<Execution>): real {
    if es == [] then 0.0 else es[0].qty + TotalQty(es[1..])
  }

  function TotalPrice(es: seq<Execution>): real {
    if es == [] then 0.0 else Notional(es[0].slot.price, es[0].qty) + TotalPrice(es[1..])
  }

  /** The greedy reference started on the state after one fill continues the walk it was on. */
  lemma GreedyContinues(q: seq<Slot>, after: seq<Slot>, kind: PositionType, limit: real, need: real)
    requires q != [] && need > 0.0 && Acceptable(kind, q[0].price, limit) && q[0].order.filledQty < q[0].order.qty
    requires after == if need < Unfilled(q[0].order)
                      then [Slot(q[0].price, Hit(q[0].order, need))] + q[1..] else q[1..]
    ensures var take := Min(Unfilled(q[0].order), need);
      && Greedy(q, kind, limit, need) == [Execution(q[0], take)] + Greedy(after, kind, limit, need - take)
      && Leftover(q, kind, limit, need) == Leftover(after, kind, limit, need - take)
  {
  }

  lemma DoneLeavesNothingToGreed(st: Progress, o: Order)
    requires Ready(st, o) && Done(st, o)
    ensures var kind := Opposite(o.positionType);
      var q := Queue(kind, st.levels);
      Greedy(q, kind, o.price, st.remaining) == [] && Leftover(q, kind, o.price, st.remaining) == q
  {
    if st.remaining > 0.0 && st.levels != map[] {
      HeadIsFrontOfQueue(st, o);
    }
  }

  lemma FillsAccumulate(fills: seq<Fill>, e: Execution, es: seq<Execution>, o: Order)
    ensures fills + FillsOf([e] + es, o) == (fills + [FillOf(e, o)]) + FillsOf(es, o)
    ensures TotalQty([e] + es) == e.qty + TotalQty(es)
    ensures TotalPrice([e] + es) == Notional(e.slot.price, e.qty) + TotalPrice(es)
  {
    assert ([e] + es)[1..] == es;
  }

  /** The executions `es` lead from `st` to `end`. */
  ghost predicate Executes(st: Progress, es: seq<Execution>, end: Progress, o: Order) {
    && end.fills == st.fills + FillsOf(es, o)
    && end.filled == st.filled + TotalQty(es)
    && end.total == st.total + TotalPrice(es)
    && end.remaining == st.remaining - TotalQty(es)
  }

  /** `end` is where the greedy walk over the queue of `st` leads. */
  ghost predicate FollowsGreedy(st: Progress, end: Progress, o: Order) {
    var kind := Opposite(o.positionType);
    var q := Queue(kind, st.levels);
    && Executes(st, Greedy(q, kind, o.price, st.remaining), end, o)
    && Queue(kind, end.levels) == Leftover(q, kind, o.price, st.remaining)
  }

  ghost predicate OneExecution(st: Progress, next: Progress, o: Order, e: Execution) {
    && next.fills == st.fills + [FillOf(e, o)]
    && next.filled == st.filled + e.qty
    && next.total == st.total + Notional(e.slot.price, e.qty)
    && next.remaining == st.remaining - e.qty
  }

  lemma FillHeadExecutes(st: Progress, o: Order)
    requires Ready(st, o) && !Done(st, o)
    ensures OneExecution(st, FillHead(st, o), o,
      Execution(Slot(HeadPrice(st, o), Head(st, o)), Min(Unfilled(Head(st, o)), st.remaining)))
  {
    HeadIsKnown(st, o);
  }

  lemma OneThenTheRest(st: Progress, e: Execution, next: Progress, es: seq<Execution>, end: Progress, o: Order)
    requires OneExecution(st, next, o, e) && Executes(next, es, end, o)
    ensures Executes(st, [e] + es, end, o)
  {
    FillsAccumulate(st.fills, e, es, o);
  }

  /** The maker's side of one fill. */
  lemma FillHeadTrades(st: Progress, o: Order)
    requires Ready(st, o) && !Done(st, o)
    ensures var p, r := HeadPrice(st, o), Head(st, o);
      var take := Min(Unfilled(r), st.remaining);
      && p in st.levels && r in st.levels[p].openOrders
      && Resting(r, Opposite(o.positionType), o.marketId)
      && take > 0.0
      && r.userId in st.users && WfPositions(st.users[r.userId].positions)
      && FillHead(st, o).users == st.users[r.userId := CreatePosition(st.users[r.userId], MakerTrade(r, take, p), p)]
  {
    HeadIsKnown(st, o);
  }

  /** One fill is one step of the greedy walk. */
  lemma FillHeadIsGreedyStep(st: Progress, o: Order) returns (e: Execution)
    requires Ready(st, o) && !Done(st, o)
    ensures var kind, next := Opposite(o.positionType), FillHead(st, o);
      var q, after := Queue(kind, st.levels), Queue(kind, next.levels);
      && OneExecution(st, next, o, e)
      && Greedy(q, kind, o.price, st.remaining) == [e] + Greedy(after, kind, o.price, next.remaining)
      && Leftover(q, kind, o.price, st.remaining) == Leftover(after, kind, o.price, next.remaining)
  {
    HeadIsKnown(st, o);
    FillHeadConsumesFront(st, o);
    FillHeadExecutes(st, o);
    var kind, next := Opposite(o.positionType), FillHead(st, o);
    var q := Queue(kind, st.levels);
    e := Execution(q[0], Min(Unfilled(q[0].order), st.remaining));
    GreedyContinues(q, Queue(kind, next.levels), kind, o.price, st.remaining);
  }

  /**
   * Matching is price-time priority: the fills are the greedy prefix of the sorted queue cut at the
   * limit price and at the quantity, the side left behind is the rest of that queue, and the
   * reported quantity, price total and remainder are the sums over those fills.
   */
  lemma {:induction false} MatchingIsPriceTimePriority(st: Progress, o: Order)
    requires Ready(st, o)
    ensures FollowsGreedy(st, MatchFrom(st, o), o)
    decreases Measure(st, o)
  {
    if Done(st, o) {
      DoneLeavesNothingToGreed(st, o);
    } else {
      FillHeadReady(st, o);
      FillHeadProgresses(st, o);
      var next := FillHead(st, o);
      var e := FillHeadIsGreedyStep(st, o);
      MatchingIsPriceTimePriority(next, o);
      var kind := Opposite(o.positionType);
      OneThenTheRest(st, e, next, Greedy(Queue(kind, next.levels), kind, o.price, next.remaining), MatchFrom(next, o), o);
    }
  }
}
