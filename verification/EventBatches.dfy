/** The order in which an account is told, and under what heading. */
module EventBatches {
  import opened Exchange
  import opened Engine
  import opened EngineSteps
  import opened EngineClose
  import opened OrderTerms
  import opened ClientSync

  /** New orders, then updates, then fills, then what the account is left with. */
  function Stage(e: UserEvent): nat {
    match e
    case OrderNew(_, _) => 0
    case OrderUpdated(_, _, _, _) => 1
    case FillSeen(_, _, _, _, _, _) => 2
    case PositionNow(_, _) => 3
    case BalanceNow(_, _) => 3
  }

  ghost predicate InOrder(log: seq<Addressed>) {
    forall i, j :: 0 <= i < j < |log| ==> Stage(log[i].event) <= Stage(log[j].event)
  }

  ghost predicate ToldInOrder(es: seq<UserEvent>) {
    forall i, j :: 0 <= i < j < |es| ==> Stage(es[i]) <= Stage(es[j])
  }

  lemma {:induction false} SharesStayInOrder(log: seq<Addressed>, u: Uuid)
    requires InOrder(log)
    ensures ToldInOrder(EventsFor(log, u))
    ensures forall e :: e in EventsFor(log, u) ==> Addressed(u, e) in log
  {
    if log != [] {
      var n := |log| - 1;
      var before := EventsFor(log[..n], u);
      SharesStayInOrder(log[..n], u);
      forall i | 0 <= i < |before| ensures Stage(before[i]) <= Stage(log[n].event) {
        assert before[i] in before && Addressed(u, before[i]) in log[..n];
        var k :| 0 <= k < n && log[k] == Addressed(u, before[i]);
      }
      assert log == log[..n] + [log[n]];
    }
  }

  ghost predicate AllAt(log: seq<Addressed>, k: nat) {
    forall i :: 0 <= i < |log| ==> Stage(log[i].event) == k
  }

  lemma FourParts(a: seq<Addressed>, b: seq<Addressed>, c: seq<Addressed>, d: seq<Addressed>)
    requires AllAt(a, 0) && AllAt(b, 1) && AllAt(c, 2) && AllAt(d, 3)
    ensures InOrder(a + b + c + d)
  {
    var all := a + b + c + d;
    forall i | 0 <= i < |all| ensures Stage(all[i].event)
      == if i < |a| then 0 else if i < |a| + |b| then 1 else if i < |a| + |b| + |c| then 2 else 3 {
    }
  }

  lemma {:induction false} OrdersFirst(ns: seq<NewOrder>)
    ensures AllAt(NewOrderEvents(ns), 0)
  {
    if ns != [] {
      OrdersFirst(ns[..|ns| - 1]);
    }
  }

  lemma {:induction false} UpdatesSecond(us: seq<OrderUpdate>, m: Uuid)
    ensures AllAt(UpdateEvents(us, m), 1)
  {
    if us != [] {
      UpdatesSecond(us[..|us| - 1], m);
    }
  }

  lemma {:induction false} FillsThird(fs: seq<Fill>, m: Uuid, side: PositionType)
    ensures AllAt(FillEvents(fs, m, side), 2)
  {
    if fs != [] {
      FillsThird(fs[..|fs| - 1], m, side);
    }
  }

  lemma {:induction false} StatesLast(us: seq<Uuid>, users: map<Uuid, User>, m: Uuid)
    ensures AllAt(AllStateEvents(us, users, m), 3)
  {
    if us != [] {
      StatesLast(us[..|us| - 1], users, m);
    }
  }

  /**
   * In each account's batch of a match new orders come before updates, updates before fills, and its position
   * and balance last: a client never patches a row it has not inserted, and ends on the truth.
   */
  lemma BatchesRunInOrder(users: map<Uuid, User>, m: Uuid, side: PositionType, fs: seq<Fill>, us: seq<OrderUpdate>, ns: seq<NewOrder>, u: Uuid)
    ensures ToldInOrder(EventsFor(MatchEvents(users, m, side, fs, us, ns), u))
  {
    hide NewOrderEvents, UpdateEvents, FillEvents, AllStateEvents, Touched, InOrder, ToldInOrder;
    OrdersFirst(ns);
    UpdatesSecond(us, m);
    FillsThird(fs, m, side);
    StatesLast(Touched(ns, us, fs), users, m);
    FourParts(NewOrderEvents(ns), UpdateEvents(us, m), FillEvents(fs, m, side), AllStateEvents(Touched(ns, us, fs), users, m));
    SharesStayInOrder(MatchEvents(users, m, side, fs, us, ns), u);
  }

  lemma {:induction false} FirstOfAll(log: seq<Addressed>, a: Addressed)
    ensures EventsFor([a] + log, a.userId) == [a.event] + EventsFor(log, a.userId)
  {
    var nothing: seq<Addressed>, silence: seq<UserEvent> := [], [];
    assert [a][..0] == nothing && EventsFor(nothing, a.userId) == silence;
    assert EventsFor([a], a.userId) == [a.event];
    EventsForConcat([a], log, a.userId);
  }

  /**
   * The first thing an account is told of its order is the order as it was let through: its own fields,
   * the margin it goes in with, the worst price it may trade at, and its status and filled quantity after
   * the match.
   */
  lemma OrderIsToldFirst(s: Store, row: Order, now: int, origin: Origin)
    requires WfStore(s) && LegalRow(row) && Admit(s, row).Admitted?
    ensures var p, o := Place(s, row, now), Admit(s, row).order;
      && p.Placed?
      && var es := EventsFor(PlacementEvents(p, origin), row.userId);
      && es != []
      && es[0] == OrderNew(
           UserOrder(row.id, row.marketId, row.positionType, row.orderType, p.status, row.qty, p.filled, o.price, row.slippage, o.initialMargin), origin)
      && row.marketId in s.books && WorstPrice(s.books[row.marketId], row, o.price)
      && row.userId in s.users && o.initialMargin == (if AtMostTwiceHeld(s, row) then 0.0 else row.initialMargin)
  {
    hide Execute, WfStore, UpdateEvents, FillEvents, AllStateEvents, Touched, WorstPrice, AtMostTwiceHeld;
    AdmittedKeepsIdentity(s, row);
    BoundIsTheWorstPrice(s, row);
    MarginOf(s, row);
    var o, p := Admit(s, row).order, Place(s, row, now);
    ExecutedOrder(s, o, Admit(s, row).reducing, now);
    var ns := [NewOrder(p.order, p.status, p.filled, origin)];
    assert ns[..0] == [] && NewOrderEvents([]) == [];
    var first := Addressed(o.userId, OrderNew(UserOrderFrom(ns[0]), origin));
    assert NewOrderEvents(ns) == [first];
    var rest := UpdateEvents(p.updates, o.marketId) + FillEvents(p.fills, o.marketId, o.positionType)
      + AllStateEvents(Touched(ns, p.updates, p.fills), p.store.users, o.marketId);
    assert PlacementEvents(p, origin) == [first] + rest;
    FirstOfAll(rest, first);
  }

  lemma ExecutedOrder(s: Store, o: Order, reducing: bool, now: int)
    requires WfStore(s) && o.marketId in s.books && o.userId in s.users && o.qty > 0.0
    ensures Execute(s, o, reducing, now).Placed? && Execute(s, o, reducing, now).order == o
  {
  }

  // ----- whose order it was

  ghost predicate Under(log: seq<Addressed>, origin: Origin) {
    forall a :: a in log && a.event.OrderNew? ==> a.event.origin == origin
  }

  lemma {:induction false} NewOrdersUnder(ns: seq<NewOrder>, origin: Origin)
    requires forall n :: n in ns ==> n.origin == origin
    ensures Under(NewOrderEvents(ns), origin)
  {
    if ns != [] {
      NewOrdersUnder(ns[..|ns| - 1], origin);
    }
  }

  lemma NoOrdersUnder(log: seq<Addressed>, k: nat, origin: Origin)
    requires AllAt(log, k) && k > 0
    ensures Under(log, origin)
  {
  }

  lemma PlacementUnder(p: Placement, origin: Origin)
    requires p.Placed?
    ensures Under(PlacementEvents(p, origin), origin)
  {
    hide NewOrderEvents, UpdateEvents, FillEvents, AllStateEvents, Touched, AllAt;
    var ns := [NewOrder(p.order, p.status, p.filled, origin)];
    NewOrdersUnder(ns, origin);
    UpdatesSecond(p.updates, p.order.marketId);
    FillsThird(p.fills, p.order.marketId, p.order.positionType);
    StatesLast(Touched(ns, p.updates, p.fills), p.store.users, p.order.marketId);
    NoOrdersUnder(UpdateEvents(p.updates, p.order.marketId), 1, origin);
    NoOrdersUnder(FillEvents(p.fills, p.order.marketId, p.order.positionType), 2, origin);
    NoOrdersUnder(AllStateEvents(Touched(ns, p.updates, p.fills), p.store.users, p.order.marketId), 3, origin);
  }

  lemma {:induction false} SweepUnder(s: Store, m: Uuid, price: real, ids: seq<Uuid>, now: int, k: nat)
    requires WfStore(s) && k <= |s.userIds| <= |ids|
    ensures Under(SweepTo(s, m, price, ids, now, k).events, ByLiquidation)
    decreases k
  {
    hide WfStore, Place, PlacementEvents;
    if k > 0 {
      SweepUnder(s, m, price, ids, now, k - 1);
      var sw := SweepTo(s, m, price, ids, now, k - 1);
      var row := ForcedClose(sw.store, s.userIds[k - 1], m, price, ids[k - 1]);
      if row.Some? {
        ForcedCloseIsLegal(sw.store, s.userIds[k - 1], m, price, ids[k - 1]);
        var p := Place(sw.store, row.value, now);
        if p.Placed? {
          PlacementUnder(p, ByLiquidation);
        }
      }
    }
  }

  /** An order told as the account's own came with its request; one told as a liquidation came with a price tick. */
  lemma OriginsAreTrue(s: Store, req: Request)
    requires WfStore(s) && LegalRequest(s, req)
    ensures forall a :: a in ToldBy(Step(s, req).reply) && a.event.OrderNew? ==>
      if a.event.origin == ByUser then req.CreateOrder? else req.SpotPriceUpdate?
  {
    hide WfStore, Place, PlacementEvents, SweepTo, Funded, DepthOf, InMarket, AfterCancel, Publish, CancelledOutcome;
    match req
    case CreateOrder(row, now) =>
      WithUserKeepsWf(s, row.userId);
      var p := Place(WithUser(s, row.userId), row, now);
      if p.Placed? {
        PlacementUnder(p, ByUser);
      }
    case CancelOrder(row) => CancelUnder(s, row);
    case SpotPriceUpdate(prices, ids, now) =>
      if TickedAsset(prices).Some? {
        var a := TickedAsset(prices).value;
        assert MarketOf(a) in s.books by { MarketIsThere(s, a); }
        WithIndexPriceKeepsWf(s, MarketOf(a), prices[a]);
        SweepUnder(WithIndexPrice(s, MarketOf(a), prices[a]), MarketOf(a), prices[a], ids, now, |s.userIds|);
      }
    case _ =>
  }

  lemma MarketIsThere(s: Store, a: Asset)
    requires WfStore(s)
    ensures MarketOf(a) in s.books
  {
  }

  lemma CancelUnder(s: Store, row: Order)
    ensures forall a :: a in ToldBy(CancelledOutcome(s, row).reply) ==> !a.event.OrderNew?
  {
    hide Touched, Publish;
    if CancelIndex(s, row) >= 0 {
      var t, us := AfterCancel(s, row), [OrderUpdate(row.id, row.userId, Cancelled, CancelledAt(s, row).filledQty)];
      UpdatesSecond(us, row.marketId);
      StatesLast(Touched([], us, []), t.users, row.marketId);
    }
  }

  // ----- what is written is what is told

  /** The updates told in a log, each of the account it is told to. */
  function ToldUpdates(log: seq<Addressed>): seq<OrderUpdate> {
    if log == [] then []
    else
      var a := log[|log| - 1];
      ToldUpdates(log[..|log| - 1])
        + if a.event.OrderUpdated? then [OrderUpdate(a.event.orderId, a.userId, a.event.status, a.event.filledQty)] else []
  }

  /** The orders told as liquidations. */
  function ToldCloses(log: seq<Addressed>): seq<Uuid> {
    if log == [] then []
    else
      var a := log[|log| - 1];
      ToldCloses(log[..|log| - 1]) + if a.event.OrderNew? && a.event.origin == ByLiquidation then [a.event.order.id] else []
  }

  /** The fills told to their takers: who, of which order, at what price, how much. */
  function ToldFills(log: seq<Addressed>): seq<(Uuid, Uuid, real, real)> {
    if log == [] then []
    else
      var a := log[|log| - 1];
      ToldFills(log[..|log| - 1])
        + if a.event.FillSeen? && a.event.role == Taker then [(a.userId, a.event.orderId, a.event.price, a.event.qty)] else []
  }

  function TakersOf(fs: seq<Fill>): seq<(Uuid, Uuid, real, real)> {
    if fs == [] then [] else TakersOf(fs[..|fs| - 1]) + [(fs[|fs| - 1].takerId, fs[|fs| - 1].takerOrderId, fs[|fs| - 1].price, fs[|fs| - 1].qty)]
  }

  function IdsOf(rows: seq<Order>): seq<Uuid> {
    if rows == [] then [] else IdsOf(rows[..|rows| - 1]) + [rows[|rows| - 1].id]
  }

  /** Updates and fills written are those told, in the same order, and orders inserted are those told as liquidations. */
  ghost predicate Written(log: seq<Addressed>, w: Writer) {
    ToldUpdates(log) == w.updates && ToldFills(log) == TakersOf(w.fills) && ToldCloses(log) == IdsOf(w.inserts)
  }

  lemma {:induction false} ToldTwice(a: seq<Addressed>, b: seq<Addressed>)
    ensures ToldUpdates(a + b) == ToldUpdates(a) + ToldUpdates(b)
    ensures ToldFills(a + b) == ToldFills(a) + ToldFills(b)
    ensures ToldCloses(a + b) == ToldCloses(a) + ToldCloses(b)
  {
    if b == [] {
      assert a + b == a;
    } else {
      assert (a + b)[..|a + b| - 1] == a + b[..|b| - 1];
      ToldTwice(a, b[..|b| - 1]);
    }
  }

  lemma {:induction false} TakersTwice(a: seq<Fill>, b: seq<Fill>)
    ensures TakersOf(a + b) == TakersOf(a) + TakersOf(b)
  {
    if b == [] {
      assert a + b == a;
    } else {
      assert (a + b)[..|a + b| - 1] == a + b[..|b| - 1];
      TakersTwice(a, b[..|b| - 1]);
    }
  }

  lemma IdsPush(rows: seq<Order>, row: Order)
    ensures IdsOf(rows + [row]) == IdsOf(rows) + [row.id]
  {
    assert (rows + [row])[..|rows|] == rows;
  }

  lemma {:induction false} UpdatesTold(us: seq<OrderUpdate>, m: Uuid)
    ensures ToldUpdates(UpdateEvents(us, m)) == us && ToldFills(UpdateEvents(us, m)) == [] && ToldCloses(UpdateEvents(us, m)) == []
  {
    hide ToldUpdates, ToldFills, ToldCloses;
    NothingTold();
    if us != [] {
      var n := |us| - 1;
      UpdatesTold(us[..n], m);
      ToldTwice(UpdateEvents(us[..n], m), [UpdateEvent(us[n], m)]);
      OneTold(UpdateEvent(us[n], m));
      assert us == us[..n] + [us[n]];
    }
  }

  lemma {:induction false} FillsTold(fs: seq<Fill>, m: Uuid, side: PositionType)
    ensures var log := FillEvents(fs, m, side);
      ToldUpdates(log) == [] && ToldFills(log) == TakersOf(fs) && ToldCloses(log) == []
  {
    hide ToldUpdates, ToldFills, ToldCloses;
    NothingTold();
    if fs != [] {
      var n := |fs| - 1;
      FillsTold(fs[..n], m, side);
      var pair := FillPair(fs[n], m, side);
      assert pair == [pair[0]] + [pair[1]];
      ToldTwice([pair[0]], [pair[1]]);
      ToldTwice(FillEvents(fs[..n], m, side), pair);
      OneTold(pair[0]);
      OneTold(pair[1]);
    }
  }

  lemma NothingTold()
    ensures ToldUpdates([]) == [] && ToldFills([]) == [] && ToldCloses([]) == []
  {
  }

  lemma OneTold(a: Addressed)
    ensures ToldUpdates([a]) == if a.event.OrderUpdated? then [OrderUpdate(a.event.orderId, a.userId, a.event.status, a.event.filledQty)] else []
    ensures ToldFills([a]) == if a.event.FillSeen? && a.event.role == Taker then [(a.userId, a.event.orderId, a.event.price, a.event.qty)] else []
    ensures ToldCloses([a]) == if a.event.OrderNew? && a.event.origin == ByLiquidation then [a.event.order.id] else []
  {
    assert [a][..0] == [];
    NothingTold();
  }

  lemma {:induction false} StatesTellNone(log: seq<Addressed>)
    requires AllAt(log, 3)
    ensures ToldUpdates(log) == [] && ToldFills(log) == [] && ToldCloses(log) == []
  {
    if log != [] {
      StatesTellNone(log[..|log| - 1]);
    }
  }

  lemma MatchTold(users: map<Uuid, User>, m: Uuid, side: PositionType, fs: seq<Fill>, us: seq<OrderUpdate>, ns: seq<NewOrder>)
    requires |ns| <= 1
    ensures var log := MatchEvents(users, m, side, fs, us, ns);
      && ToldUpdates(log) == us && ToldFills(log) == TakersOf(fs)
      && ToldCloses(log) == (if ns != [] && ns[0].origin == ByLiquidation then [ns[0].order.id] else [])
  {
    hide UpdateEvents, FillEvents, AllStateEvents, Touched, ToldUpdates, ToldFills, ToldCloses, AllAt;
    NothingTold();
    var news := NewOrderEvents(ns);
    if ns != [] {
      assert ns[..0] == [] && NewOrderEvents([]) == [];
      var first := Addressed(ns[0].order.userId, OrderNew(UserOrderFrom(ns[0]), ns[0].origin));
      assert news == [first];
      OneTold(first);
    }
    var a, b, c := UpdateEvents(us, m), FillEvents(fs, m, side), AllStateEvents(Touched(ns, us, fs), users, m);
    UpdatesTold(us, m);
    FillsTold(fs, m, side);
    StatesLast(Touched(ns, us, fs), users, m);
    StatesTellNone(c);
    ToldTwice(news, a);
    ToldTwice(news + a, b);
    ToldTwice(news + a + b, c);
  }

  lemma {:induction false} SweepWrites(s: Store, m: Uuid, price: real, ids: seq<Uuid>, now: int, k: nat)
    requires WfStore(s) && k <= |s.userIds| <= |ids|
    ensures var sw := SweepTo(s, m, price, ids, now, k); Written(sw.events, sw.writer)
    decreases k
  {
    hide WfStore, Place, MatchEvents, ToldUpdates, ToldFills, ToldCloses, TakersOf, IdsOf;
    if k == 0 {
      NothingTold();
      NobodyTook();
    } else {
      SweepWrites(s, m, price, ids, now, k - 1);
      var sw := SweepTo(s, m, price, ids, now, k - 1);
      var row := ForcedClose(sw.store, s.userIds[k - 1], m, price, ids[k - 1]);
      if row.Some? {
        ForcedCloseIsLegal(sw.store, s.userIds[k - 1], m, price, ids[k - 1]);
        var p := Place(sw.store, row.value, now);
        if p.Placed? {
          PlacedOrderIs(sw.store, row.value, now);
          MatchTold(p.store.users, p.order.marketId, p.order.positionType, p.fills, p.updates, [NewOrder(p.order, p.status, p.filled, ByLiquidation)]);
          ToldTwice(sw.events, PlacementEvents(p, ByLiquidation));
          TakersTwice(sw.writer.fills, p.fills);
          IdsPush(sw.writer.inserts, row.value);
        }
      }
    }
  }

  lemma NobodyTook()
    ensures TakersOf([]) == [] && IdsOf([]) == []
  {
  }

  lemma PlacedOrderIs(s: Store, row: Order, now: int)
    requires WfStore(s) && row.qty > 0.0 && Place(s, row, now).Placed?
    ensures Place(s, row, now).order.id == row.id
  {
    hide Execute, WfStore;
    AdmittedKeepsIdentity(s, row);
    ExecutedOrder(s, Admit(s, row).order, Admit(s, row).reducing, now);
  }

  /**
   * What a reply has written is what it has told: the same order updates of the same accounts in the same
   * order, a fill for each one told to a taker, and an inserted order for each one told as a liquidation.
   * A reply that writes nothing tells none of these.
   */
  lemma WrittenIsTold(s: Store, req: Request)
    requires WfStore(s) && LegalRequest(s, req)
    ensures var reply := Step(s, req).reply;
      Written(ToldBy(reply), if reply.Replied? && reply.writer.Some? then reply.writer.value else Writer([], [], []))
  {
    hide WfStore, Place, MatchEvents, SweepTo, Funded, DepthOf, InMarket, AfterCancel, Publish, ToldUpdates, ToldFills, ToldCloses, TakersOf, IdsOf;
    NothingTold();
    NobodyTook();
    match req
    case Onramp(u, amount) =>
      OneTold(Addressed(u, BalanceNow(Deposited(s, u, amount).users[u].available, Deposited(s, u, amount).users[u].locked)));
    case CreateOrder(row, now) =>
      WithUserKeepsWf(s, row.userId);
      var p := Place(WithUser(s, row.userId), row, now);
      if p.Placed? {
        MatchTold(p.store.users, p.order.marketId, p.order.positionType, p.fills, p.updates, [NewOrder(p.order, p.status, p.filled, ByUser)]);
      }
    case CancelOrder(row) =>
      if CancelIndex(s, row) >= 0 {
        var us := [OrderUpdate(row.id, row.userId, Cancelled, CancelledAt(s, row).filledQty)];
        MatchTold(AfterCancel(s, row).users, row.marketId, row.positionType, [], us, []);
      }
    case SpotPriceUpdate(prices, ids, now) =>
      if TickedAsset(prices).Some? {
        var a := TickedAsset(prices).value;
        assert MarketOf(a) in s.books by { MarketIsThere(s, a); }
        WithIndexPriceKeepsWf(s, MarketOf(a), prices[a]);
        SweepWrites(WithIndexPrice(s, MarketOf(a), prices[a]), MarketOf(a), prices[a], ids, now, |s.userIds|);
      }
    case _ =>
  }
}
