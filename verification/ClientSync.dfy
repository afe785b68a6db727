/** The client's open-orders table is the book. */
module ClientSync {
  import opened Exchange
  import opened Sequences
  import opened Books
  import opened Matching
  import opened Engine
  import opened EngineBooks
  import opened EngineSteps
  import opened RestingOrders
  import opened UserFeed

  // ----- the life of one order id

  datatype Life = Unseen | Live(slot: Slot) | Over(owner: Uuid)

  /** A table row that says of an order what the book says of it. */
  predicate Shows(h: UserOrder, x: Slot) {
    && h.id == x.order.orderId
    && h.marketId == x.order.marketId
    && h.positionType == x.order.positionType
    && h.price == x.price
    && h.qty == x.order.qty
    && h.filledQty == x.order.filledQty
    && h.status == StatusFor(x.order.filledQty)
  }

  predicate About(e: UserEvent, id: Uuid) {
    (e.OrderNew? && e.order.id == id) || (e.OrderUpdated? && e.orderId == id)
  }

  /** What an account's log must say of an order at this point of its life. */
  ghost predicate Says(es: seq<UserEvent>, u: Uuid, id: Uuid, life: Life) {
    WellTold(es, id) &&
    var row := RowAfter(None, es, id);
    match life
    case Unseen => row == None && !Introduced(es, id)
    case Live(x) => if u == x.order.userId then Introduced(es, id) && row.Some? && Shows(row.value, x) else row == None
    case Over(w) => row == None && (u == w ==> Introduced(es, id))
  }

  ghost predicate AllSay(log: seq<Addressed>, id: Uuid, life: Life) {
    forall u :: Says(EventsFor(log, u), u, id, life)
  }

  /** How one addressed event may turn the life of an order. */
  ghost predicate Turns(life: Life, a: Addressed, id: Uuid, next: Life) {
    if !About(a.event, id) then next == life
    else if a.event.OrderNew? then
      life == Unseen &&
      if IsResting(a.event.order.status)
      then next.Live? && next.slot.order.userId == a.userId && Shows(a.event.order, next.slot)
      else next == Over(a.userId)
    else if IsResting(a.event.status) then
      && life.Live? && life.slot.order.userId == a.userId
      && a.event.filledQty >= life.slot.order.filledQty && a.event.status == StatusFor(a.event.filledQty)
      && next.Live? && next.slot.order.userId == a.userId
      && forall h :: Shows(h, life.slot) ==> Shows(h.(status := a.event.status, filledQty := a.event.filledQty), next.slot)
    else
      && next == Over(a.userId)
      && (life == next || (life.Live? && life.slot.order.userId == a.userId && a.event.filledQty >= life.slot.order.filledQty))
  }

  lemma EventsForPush(log: seq<Addressed>, a: Addressed, u: Uuid)
    ensures EventsFor(log + [a], u) == if a.userId == u then EventsFor(log, u) + [a.event] else EventsFor(log, u)
  {
    assert (log + [a])[..|log|] == log;
  }

  lemma IntroducedPush(es: seq<UserEvent>, e: UserEvent, id: Uuid)
    ensures Introduced(es + [e], id) <==> Introduced(es, id) || (e.OrderNew? && e.order.id == id)
  {
    var after := es + [e];
    assert after[|es|] == e;
    if Introduced(es, id) {
      var k :| 0 <= k < |es| && es[k].OrderNew? && es[k].order.id == id;
      assert after[k] == es[k];
    }
    if Introduced(after, id) {
      var k :| 0 <= k < |after| && after[k].OrderNew? && after[k].order.id == id;
      assert k == |es| || es[k] == after[k];
    }
  }

  lemma LogPush(es: seq<UserEvent>, e: UserEvent, id: Uuid)
    ensures RowAfter(None, es + [e], id) == ReduceRow(RowAfter(None, es, id), e, id)
    ensures WellTold(es + [e], id) <==> WellTold(es, id) && Follows(RowAfter(None, es, id), Introduced(es, id), e, id)
  {
    assert (es + [e])[..|es|] == es;
  }

  /** A log that told one life truly tells the next one truly. */
  lemma OneMoreEvent(log: seq<Addressed>, a: Addressed, id: Uuid, life: Life, next: Life)
    requires AllSay(log, id, life) && Turns(life, a, id, next)
    ensures AllSay(log + [a], id, next)
  {
    forall u ensures Says(EventsFor(log + [a], u), u, id, next) {
      var es := EventsFor(log, u);
      assert Says(es, u, id, life);
      EventsForPush(log, a, u);
      IntroducedPush(es, a.event, id);
      LogPush(es, a.event, id);
    }
  }

  // ----- books and log together

  /** The order ids in use, each with the account it was issued to. */
  type Registry = map<Uuid, Uuid>

  ghost predicate Counted(books: map<Uuid, Book>, id: Uuid, life: Life) {
    && (life.Live? ==> life.slot.order.orderId == id)
    && forall x: Slot :: x.order.orderId == id ==> TimesResting(books, x) == if life == Live(x) then 1 else 0
  }

  predicate Known(reg: Registry, id: Uuid, life: Life) {
    && (life != Unseen ==> id in reg)
    && (life.Live? ==> reg[id] == life.slot.order.userId)
  }

  ghost predicate Agrees(books: map<Uuid, Book>, log: seq<Addressed>, reg: Registry, id: Uuid, life: Life) {
    Counted(books, id, life) && AllSay(log, id, life) && Known(reg, id, life)
  }

  ghost predicate Tracked(books: map<Uuid, Book>, log: seq<Addressed>, reg: Registry, id: Uuid) {
    exists life :: Agrees(books, log, reg, id, life)
  }

  ghost predicate Synced(books: map<Uuid, Book>, log: seq<Addressed>, reg: Registry) {
    && (forall id :: Tracked(books, log, reg, id))
    && (forall a :: a in log ==> NamesItsMarket(a.event))
  }

  ghost predicate SameCounts(books: map<Uuid, Book>, after: map<Uuid, Book>) {
    forall x :: TimesResting(after, x) == TimesResting(books, x)
  }

  predicate Extends(reg: Registry, wider: Registry) {
    forall id :: id in reg ==> id in wider && wider[id] == reg[id]
  }

  /** Nothing about resting orders changed: not on the books, not in the log. */
  lemma SyncedCarriesOver(books: map<Uuid, Book>, after: map<Uuid, Book>, log: seq<Addressed>, reg: Registry, wider: Registry)
    requires Synced(books, log, reg) && SameCounts(books, after) && Extends(reg, wider)
    ensures Synced(after, log, wider)
  {
    hide AllSay, TimesResting, IsResting;
    forall id ensures Tracked(after, log, wider, id) {
      assert Tracked(books, log, reg, id);
      var life :| Agrees(books, log, reg, id, life);
      assert Agrees(after, log, wider, id, life);
    }
  }

  predicate Inert(e: UserEvent) {
    !e.OrderNew? && !e.OrderUpdated? && NamesItsMarket(e)
  }

  lemma InertEvent(books: map<Uuid, Book>, log: seq<Addressed>, a: Addressed, reg: Registry)
    requires Synced(books, log, reg) && Inert(a.event)
    ensures Synced(books, log + [a], reg)
  {
    hide AllSay, Counted;
    forall id ensures Tracked(books, log + [a], reg, id) {
      assert Tracked(books, log, reg, id);
      var life :| Agrees(books, log, reg, id, life);
      OneMoreEvent(log, a, id, life, life);
      assert Agrees(books, log + [a], reg, id, life);
    }
  }

  lemma {:induction false} InertEvents(books: map<Uuid, Book>, log: seq<Addressed>, more: seq<Addressed>, reg: Registry)
    requires Synced(books, log, reg) && forall a :: a in more ==> Inert(a.event)
    ensures Synced(books, log + more, reg)
  {
    hide Synced, Inert;
    if more == [] {
      assert log + more == log;
    } else {
      var n := |more| - 1;
      InertEvents(books, log, more[..n], reg);
      assert log + more == log + more[..n] + [more[n]];
      InertEvent(books, log + more[..n], more[n], reg);
    }
  }

  /** The order that moved, and the order ids it could be confused with: none. */
  lemma OrderIsLive(books: map<Uuid, Book>, log: seq<Addressed>, reg: Registry, x: Slot)
    requires Tracked(books, log, reg, x.order.orderId) && TimesResting(books, x) > 0
    ensures Agrees(books, log, reg, x.order.orderId, Live(x))
  {
    hide AllSay, TimesResting;
    var life :| Agrees(books, log, reg, x.order.orderId, life);
    assert life == Live(x);
  }

  /** One order is updated: on the books it is replaced or gone, in the log one event says so. */
  lemma OrderTurns(books: map<Uuid, Book>, after: map<Uuid, Book>, log: seq<Addressed>, a: Addressed, reg: Registry,
                   x: Slot, come: Option<Slot>)
    requires Synced(books, log, reg) && TimesResting(books, x) > 0 && Moved(books, after, Some(x), come)
    requires a.event.OrderUpdated? && a.event.orderId == x.order.orderId
    requires come.Some? ==> come.value.order.orderId == x.order.orderId && come.value.order.userId == x.order.userId
    requires Turns(Live(x), a, x.order.orderId, if come.Some? then Live(come.value) else Over(x.order.userId))
    ensures Synced(after, log + [a], reg)
  {
    hide AllSay, TimesResting, Turns;
    var me := x.order.orderId;
    forall id ensures Tracked(after, log + [a], reg, id) {
      assert Tracked(books, log, reg, id);
      if id == me {
        OrderIsLive(books, log, reg, x);
        var next := if come.Some? then Live(come.value) else Over(x.order.userId);
        OneMoreEvent(log, a, id, Live(x), next);
        assert Agrees(after, log + [a], reg, id, next);
      } else {
        var life :| Agrees(books, log, reg, id, life);
        assert Turns(life, a, id, life) by { OthersDoNotTurn(life, a, id); }
        OneMoreEvent(log, a, id, life, life);
        assert Agrees(after, log + [a], reg, id, life);
      }
    }
  }

  lemma OthersDoNotTurn(life: Life, a: Addressed, id: Uuid)
    requires !About(a.event, id)
    ensures Turns(life, a, id, life)
  {
  }

  /** An event about another order leaves an order's life as it was. */
  lemma OtherOrderStays(books: map<Uuid, Book>, after: map<Uuid, Book>, log: seq<Addressed>, a: Addressed, reg: Registry,
                        gone: Slot, come: Option<Slot>, id: Uuid, life: Life)
    requires Agrees(books, log, reg, id, life) && !About(a.event, id)
    requires Moved(books, after, Some(gone), come) && gone.order.orderId != id
    requires come.Some? ==> come.value.order.orderId != id
    ensures Agrees(after, log + [a], reg, id, life)
  {
    hide AllSay, TimesResting;
    OneMoreEvent(log, a, id, life, life);
  }

  function Enrolled(reg: Registry, o: Order): Registry {
    reg[o.id := o.userId]
  }

  /** A new order is told: its life starts, on the book or already over. */
  lemma OrderAppears(books: map<Uuid, Book>, after: map<Uuid, Book>, log: seq<Addressed>, o: Order, h: UserOrder, origin: Origin,
                     reg: Registry, come: Option<Slot>)
    requires Synced(books, log, reg) && o.id !in reg && h.id == o.id
    requires Moved(books, after, None, come) && (come.Some? <==> IsResting(h.status))
    requires come.Some? ==> Shows(h, come.value) && come.value.order.userId == o.userId
    ensures var a := Addressed(o.userId, OrderNew(h, origin));
      var next := if come.Some? then Live(come.value) else Over(o.userId);
      Synced(after, log + [a], Enrolled(reg, o)) && Agrees(after, log + [a], Enrolled(reg, o), o.id, next)
  {
    hide AllSay, TimesResting, IsResting;
    var a := Addressed(o.userId, OrderNew(h, origin));
    var next := if come.Some? then Live(come.value) else Over(o.userId);
    assert Tracked(books, log, reg, o.id);
    var unseen :| Agrees(books, log, reg, o.id, unseen);
    OneMoreEvent(log, a, o.id, unseen, next);
    assert Agrees(after, log + [a], Enrolled(reg, o), o.id, next);
    forall id ensures Tracked(after, log + [a], Enrolled(reg, o), id) {
      if id != o.id {
        assert Tracked(books, log, reg, id);
        var life :| Agrees(books, log, reg, id, life);
        OneMoreEvent(log, a, id, life, life);
        assert Agrees(after, log + [a], Enrolled(reg, o), id, life);
      }
    }
  }

  /** The last word on a taker: its own update says again what its introduction already said. */
  lemma TakerUpdated(books: map<Uuid, Book>, log: seq<Addressed>, reg: Registry, o: Order, status: Status, filled: real, life: Life)
    requires Synced(books, log, reg) && Agrees(books, log, reg, o.id, life)
    requires if IsResting(status)
      then life.Live? && life.slot.order.userId == o.userId && life.slot.order.filledQty == filled && status == StatusFor(filled)
      else life == Over(o.userId)
    ensures Synced(books, log + [Addressed(o.userId, OrderUpdated(o.id, o.marketId, status, filled))], reg)
  {
    hide AllSay, Counted;
    var a := Addressed(o.userId, OrderUpdated(o.id, o.marketId, status, filled));
    assert Turns(life, a, o.id, life);
    forall id ensures Tracked(books, log + [a], reg, id) {
      assert Tracked(books, log, reg, id);
      var mine :| Agrees(books, log, reg, id, mine) && (id == o.id ==> mine == life);
      OneMoreEvent(log, a, id, mine, mine);
      assert Agrees(books, log + [a], reg, id, mine);
    }
  }

  // ----- one match

  lemma FillUpdates(st: Progress, o: Order)
    requires Ready(st, o) && !Done(st, o)
    ensures var r := Head(st, o);
      var take := Min(Unfilled(r), st.remaining);
      var next := FillHead(st, o);
      && Resting(r, Opposite(o.positionType), o.marketId)
      && 0.0 < take <= Unfilled(r)
      && HeadPrice(st, o) in st.levels && HeadIndex(st, o) < |st.levels[HeadPrice(st, o)].openOrders|
      && next.updates == st.updates + [OrderUpdate(r.orderId, r.userId, Hit(r, take).status, r.filledQty + take)]
      && next.levels == LevelsAfter(st.levels, HeadPrice(st, o), HeadIndex(st, o), take)
  {
    HeadIsKnown(st, o);
  }

  /** One fill keeps the maker's table and its book in step, and leaves the taker's own order alone. */
  lemma FillSyncs(st: Progress, o: Order, books: map<Uuid, Book>, log: seq<Addressed>, reg: Registry, life: Life)
    requires Ready(st, o) && !Done(st, o)
    requires o.marketId in books && Side(books[o.marketId], Opposite(o.positionType)) == st.levels
    requires Synced(books, log, reg) && Agrees(books, log, reg, o.id, life)
    requires life.Live? ==> life.slot.order.positionType == o.positionType
    ensures var next := FillHead(st, o);
      var after := WithLevels(books, o.marketId, Opposite(o.positionType), next.levels);
      && |next.updates| == |st.updates| + 1 && next.updates[..|st.updates|] == st.updates
      && Synced(after, log + [UpdateEvent(next.updates[|st.updates|], o.marketId)], reg)
      && Agrees(after, log + [UpdateEvent(next.updates[|st.updates|], o.marketId)], reg, o.id, life)
  {
    hide AllSay, TimesResting, Counted, Known, LevelsAfter, FillHead, Ready, Done, Synced;
    var kind := Opposite(o.positionType);
    FillUpdates(st, o);
    var p, i, r := HeadPrice(st, o), HeadIndex(st, o), Head(st, o);
    var take := Min(Unfilled(r), st.remaining);
    var a := Addressed(r.userId, OrderUpdated(r.orderId, o.marketId, Hit(r, take).status, r.filledQty + take));
    var come := if take < Unfilled(r) then Some(Slot(p, Hit(r, take))) else None;
    HeadRests(st, o, books);
    FillMoves(books, o.marketId, kind, p, i, take);
    var after := WithLevels(books, o.marketId, kind, LevelsAfter(st.levels, p, i, take));
    OrderTurns(books, after, log, a, reg, Slot(p, r), come);
    HeadIsNotTheTaker(books, log, reg, o, Slot(p, r), life);
    OtherOrderStays(books, after, log, a, reg, Slot(p, r), come, o.id, life);
  }

  lemma HeadRests(st: Progress, o: Order, books: map<Uuid, Book>)
    requires Ready(st, o) && !Done(st, o)
    requires o.marketId in books && Side(books[o.marketId], Opposite(o.positionType)) == st.levels
    ensures WfLevels(st.levels, Opposite(o.positionType), o.marketId)
    ensures TimesResting(books, Slot(HeadPrice(st, o), Head(st, o))) > 0
  {
    HeadIsKnown(st, o);
    OccursIffIn(st.levels[HeadPrice(st, o)].openOrders, Head(st, o));
  }

  lemma HeadIsNotTheTaker(books: map<Uuid, Book>, log: seq<Addressed>, reg: Registry, o: Order, x: Slot, life: Life)
    requires Agrees(books, log, reg, o.id, life) && TimesResting(books, x) > 0
    requires x.order.positionType == Opposite(o.positionType)
    requires life.Live? ==> life.slot.order.positionType == o.positionType
    ensures x.order.orderId != o.id
  {
    hide AllSay, TimesResting;
  }

  lemma UpdatesPush(base: seq<Addressed>, us: seq<OrderUpdate>, m: Uuid)
    requires us != []
    ensures base + UpdateEvents(us, m) == base + UpdateEvents(us[..|us| - 1], m) + [UpdateEvent(us[|us| - 1], m)]
  {
  }

  /** The whole match keeps every maker's table in step with the side it is served from. */
  lemma {:induction false} MatchSyncs(st: Progress, o: Order, books: map<Uuid, Book>, base: seq<Addressed>, reg: Registry, life: Life)
    requires Ready(st, o)
    requires o.marketId in books && Side(books[o.marketId], Opposite(o.positionType)) == st.levels
    requires Synced(books, base + UpdateEvents(st.updates, o.marketId), reg)
    requires Agrees(books, base + UpdateEvents(st.updates, o.marketId), reg, o.id, life)
    requires life.Live? ==> life.slot.order.positionType == o.positionType
    ensures var end := MatchFrom(st, o);
      var after := WithLevels(books, o.marketId, Opposite(o.positionType), end.levels);
      && Synced(after, base + UpdateEvents(end.updates, o.marketId), reg)
      && Agrees(after, base + UpdateEvents(end.updates, o.marketId), reg, o.id, life)
    decreases Measure(st, o)
  {
    hide Synced, Agrees, Ready, Done, FillHead, UpdateEvents;
    var kind := Opposite(o.positionType);
    if Done(st, o) {
      assert WithLevels(books, o.marketId, kind, st.levels) == books;
    } else {
      FillHeadReady(st, o);
      FillHeadProgresses(st, o);
      FillSyncs(st, o, books, base + UpdateEvents(st.updates, o.marketId), reg, life);
      var next := FillHead(st, o);
      UpdatesPush(base, next.updates, o.marketId);
      var after := WithLevels(books, o.marketId, kind, next.levels);
      MatchSyncs(next, o, after, base, reg, life);
      assert WithLevels(after, o.marketId, kind, MatchFrom(next, o).levels) == WithLevels(books, o.marketId, kind, MatchFrom(next, o).levels);
    }
  }

  // ----- what else a match tells

  ghost predicate AllInert(log: seq<Addressed>) {
    forall a :: a in log ==> Inert(a.event)
  }

  lemma {:induction false} FillEventsAreInert(fs: seq<Fill>, m: Uuid, takerSide: PositionType)
    ensures AllInert(FillEvents(fs, m, takerSide))
  {
    if fs != [] {
      FillEventsAreInert(fs[..|fs| - 1], m, takerSide);
      assert AllInert(FillPair(fs[|fs| - 1], m, takerSide));
    }
  }

  lemma {:induction false} StateEventsAreInert(us: seq<Uuid>, users: map<Uuid, User>, m: Uuid)
    ensures AllInert(AllStateEvents(us, users, m))
  {
    if us != [] {
      StateEventsAreInert(us[..|us| - 1], users, m);
      assert AllInert(StateEvents(us[|us| - 1], users, m));
    }
  }

  // ----- one order

  /** The status of a match so far is the one its two quantities call for. */
  ghost predicate StatusFits(st: Progress) {
    st.status ==
      if st.filled == 0.0 then Open else if st.remaining > 0.0 then PartiallyFilled else Filled
  }

  lemma {:induction false} MatchStatusFits(st: Progress, o: Order)
    requires Ready(st, o) && StatusFits(st) && st.filled >= 0.0
    ensures StatusFits(MatchFrom(st, o))
    decreases Measure(st, o)
  {
    if !Done(st, o) {
      FillHeadReady(st, o);
      FillHeadProgresses(st, o);
      FillHeadQuantities(st, o);
      HeadIsKnown(st, o);
      MatchStatusFits(FillHead(st, o), o);
    }
  }

  ghost predicate Rests(st: Progress, o: Order) {
    st.remaining > 0.0 && o.orderType == Limit
  }

  /** A limit order with something left is told as resting; every other order is told as finished. */
  lemma StatusTellsWhetherItRests(s: Store, o: Order, reducing: bool)
    requires WfStore(s) && o.marketId in s.books && o.userId in s.users && LegalRow(o)
    ensures var st := Matched(s, o, reducing);
      && st.filled >= 0.0 && st.filled + st.remaining == o.qty
      && (IsResting(StatusAfter(st, o)) <==> Rests(st, o))
      && (Rests(st, o) ==> StatusAfter(st, o) == StatusFor(st.filled))
  {
    StartIsReady(s, o, reducing);
    MatchedQuantities(s, o, reducing);
    MatchStatusFits(Start(s.books[o.marketId], LockFor(s.users, o, reducing), o), o);
  }

  ghost function RestingSlot(st: Progress, o: Order, now: int): Option<Slot>
    requires o.qty > 0.0
  {
    if Rests(st, o) then Some(Slot(o.price, RestingOrder(st, o, now))) else None
  }

  /** The books as soon as the rest of the taker has joined them and before its fills are taken off. */
  ghost function Joined(books: map<Uuid, Book>, st: Progress, o: Order, now: int): map<Uuid, Book>
    requires o.qty > 0.0 && o.marketId in books
  {
    if Rests(st, o)
    then WithLevels(books, o.marketId, o.positionType, Append(Side(books[o.marketId], o.positionType), o.price, RestingOrder(st, o, now)))
    else books
  }

  lemma JoinedMoves(books: map<Uuid, Book>, st: Progress, o: Order, now: int)
    requires o.qty > 0.0 && o.marketId in books
    ensures Moved(books, Joined(books, st, o, now), None, RestingSlot(st, o, now))
    ensures o.marketId in Joined(books, st, o, now)
    ensures Side(Joined(books, st, o, now)[o.marketId], Opposite(o.positionType)) == Side(books[o.marketId], Opposite(o.positionType))
  {
    if Rests(st, o) {
      AppendMoves(books, o.price, RestingOrder(st, o, now));
    }
  }

  lemma BookAfterCounts(books: map<Uuid, Book>, st: Progress, o: Order, now: int)
    requires o.qty > 0.0 && o.marketId in books
    ensures o.marketId in Joined(books, st, o, now)
    ensures SameCounts(WithLevels(Joined(books, st, o, now), o.marketId, Opposite(o.positionType), st.levels),
      books[o.marketId := BookAfter(books[o.marketId], st, o, now)])
  {
    hide Times, Append;
  }

  /** A new order is told, its makers are told, it is told again: books and log arrive together. */
  lemma OrderSyncs(s: Store, o: Order, reducing: bool, now: int, origin: Origin, log: seq<Addressed>, reg: Registry)
    requires WfStore(s) && o.marketId in s.books && o.userId in s.users && LegalRow(o)
    requires Synced(s.books, log, reg) && o.id !in reg
    ensures var st := Matched(s, o, reducing);
      var h := UserOrderFrom(NewOrder(o, StatusAfter(st, o), st.filled, origin));
      var told := log + [Addressed(o.userId, OrderNew(h, origin))] + UpdateEvents(st.updates, o.marketId)
        + [UpdateEvent(OrderUpdate(o.id, o.userId, StatusAfter(st, o), st.filled), o.marketId)];
      Synced(s.books[o.marketId := BookAfter(s.books[o.marketId], st, o, now)], told, Enrolled(reg, o))
  {
    hide Synced, Agrees, WfStore, Ready, Done, MatchFrom, BookAfter, Moved, Joined, StatusAfter, Append, SameCounts;
    var st, m := Matched(s, o, reducing), o.marketId;
    var start := Start(s.books[m], LockFor(s.users, o, reducing), o);
    var h := UserOrderFrom(NewOrder(o, StatusAfter(st, o), st.filled, origin));
    var base := log + [Addressed(o.userId, OrderNew(h, origin))];
    var joined, come := Joined(s.books, st, o, now), RestingSlot(st, o, now);
    var life := if come.Some? then Live(come.value) else Over(o.userId);
    StatusTellsWhetherItRests(s, o, reducing);
    JoinedMoves(s.books, st, o, now);
    OrderAppears(s.books, joined, log, o, h, origin, reg, come);
    StartIsReady(s, o, reducing);
    assert base + UpdateEvents(start.updates, m) == base;
    MatchSyncs(start, o, joined, base, Enrolled(reg, o), life);
    var after := WithLevels(joined, m, Opposite(o.positionType), st.levels);
    TakerUpdated(after, base + UpdateEvents(st.updates, m), Enrolled(reg, o), o, StatusAfter(st, o), st.filled, life);
    BookAfterCounts(s.books, st, o, now);
    SyncedCarriesOver(after, s.books[m := BookAfter(s.books[m], st, o, now)],
      base + UpdateEvents(st.updates, m) + [UpdateEvent(OrderUpdate(o.id, o.userId, StatusAfter(st, o), st.filled), m)],
      Enrolled(reg, o), Enrolled(reg, o));
  }

  lemma PlacementToldInOrder(s: Store, o: Order, reducing: bool, now: int, origin: Origin, log: seq<Addressed>)
    requires WfStore(s) && o.marketId in s.books && o.userId in s.users && LegalRow(o)
    ensures var st, m := Matched(s, o, reducing), o.marketId;
      var p := Execute(s, o, reducing, now);
      var n := NewOrder(o, StatusAfter(st, o), st.filled, origin);
      log + PlacementEvents(p, origin) ==
        log + [Addressed(o.userId, OrderNew(UserOrderFrom(n), origin))] + UpdateEvents(st.updates, m)
          + [UpdateEvent(OrderUpdate(o.id, o.userId, StatusAfter(st, o), st.filled), m)]
          + FillEvents(p.fills, m, o.positionType) + AllStateEvents(Touched([n], p.updates, p.fills), p.store.users, m)
  {
    hide MatchFrom, WfStore, Touched, UsersAfter, BookingsAfter, BookAfter;
    var st, m := Matched(s, o, reducing), o.marketId;
    var p := Execute(s, o, reducing, now);
    var n := NewOrder(o, StatusAfter(st, o), st.filled, origin);
    var u := OrderUpdate(o.id, o.userId, StatusAfter(st, o), st.filled);
    assert p.updates == st.updates + [u] && p.updates[..|p.updates| - 1] == st.updates;
    assert NewOrderEvents([n]) == [Addressed(o.userId, OrderNew(UserOrderFrom(n), origin))];
    var first, us, last := [Addressed(o.userId, OrderNew(UserOrderFrom(n), origin))], UpdateEvents(st.updates, m), [UpdateEvent(u, m)];
    var fs, facts := FillEvents(p.fills, m, o.positionType), AllStateEvents(Touched([n], p.updates, p.fills), p.store.users, m);
    Regroup(log, first + (us + last) + fs, facts);
    Regroup(log, first + (us + last), fs);
    Regroup(log, first, us + last);
    Regroup(log + first, us, last);
  }

  lemma ExecuteSyncs(s: Store, o: Order, reducing: bool, now: int, origin: Origin, log: seq<Addressed>, reg: Registry)
    requires WfStore(s) && o.marketId in s.books && o.userId in s.users && LegalRow(o)
    requires Synced(s.books, log, reg) && o.id !in reg
    ensures var p := Execute(s, o, reducing, now);
      Synced(p.store.books, log + PlacementEvents(p, origin), Enrolled(reg, o))
  {
    hide Synced, MatchFrom, WfStore, AllInert, BookAfter;
    var st, m := Matched(s, o, reducing), o.marketId;
    var p := Execute(s, o, reducing, now);
    var n := NewOrder(o, StatusAfter(st, o), st.filled, origin);
    var told := log + [Addressed(o.userId, OrderNew(UserOrderFrom(n), origin))] + UpdateEvents(st.updates, m)
      + [UpdateEvent(OrderUpdate(o.id, o.userId, StatusAfter(st, o), st.filled), m)];
    OrderSyncs(s, o, reducing, now, origin, log, reg);
    FillEventsAreInert(p.fills, m, o.positionType);
    InertLogs(p.store.books, told, FillEvents(p.fills, m, o.positionType), Enrolled(reg, o));
    StateEventsAreInert(Touched([n], p.updates, p.fills), p.store.users, m);
    InertLogs(p.store.books, told + FillEvents(p.fills, m, o.positionType),
      AllStateEvents(Touched([n], p.updates, p.fills), p.store.users, m), Enrolled(reg, o));
    PlacementToldInOrder(s, o, reducing, now, origin, log);
  }

  lemma InertLogs(books: map<Uuid, Book>, log: seq<Addressed>, more: seq<Addressed>, reg: Registry)
    requires Synced(books, log, reg) && AllInert(more)
    ensures Synced(books, log + more, reg)
  {
    hide Synced;
    InertEvents(books, log, more, reg);
  }

  /** Placing keeps books and log in step, whether the order is accepted or refused. */
  lemma PlaceSyncs(s: Store, row: Order, now: int, origin: Origin, log: seq<Addressed>, reg: Registry)
    requires WfStore(s) && LegalRow(row) && Synced(s.books, log, reg) && row.id !in reg
    ensures var p := Place(s, row, now);
      if p.Rejected? then Synced(s.books, log, Enrolled(reg, row))
      else Synced(p.store.books, log + PlacementEvents(p, origin), Enrolled(reg, row))
  {
    hide Synced, WfStore, Matched, PlacementEvents;
    if Admit(s, row).Admitted? {
      AdmittedKeepsIdentity(s, row);
      ExecuteSyncs(s, Admit(s, row).order, Admit(s, row).reducing, now, origin, log, reg);
    } else {
      SyncedCarriesOver(s.books, s.books, log, reg, Enrolled(reg, row));
    }
  }

  // ----- one request

  lemma CancelSyncs(s: Store, row: Order, log: seq<Addressed>, reg: Registry)
    requires WfStore(s) && Synced(s.books, log, reg) && CancelIndex(s, row) >= 0
    requires row.id in reg ==> reg[row.id] == row.userId
    ensures var out := CancelledOutcome(s, row); Synced(out.store.books, log + out.reply.wsUser, reg)
  {
    hide Synced, WfStore, TimesResting, AllInert, AllStateEvents, WithoutOrder;
    var b, m, kind, p, i := s.books[row.marketId], row.marketId, row.positionType, row.price, CancelIndex(s, row);
    var o := CancelledAt(s, row);
    CancelledRests(s, row);
    CancelMoves(s.books, m, kind, p, i);
    var t := AfterCancel(s, row);
    var us := [OrderUpdate(row.id, row.userId, Cancelled, o.filledQty)];
    var a := Addressed(row.userId, OrderUpdated(row.id, m, Cancelled, o.filledQty));
    OwnerCancels(s.books, log, reg, Slot(p, o), row.userId);
    OrderTurns(s.books, t.books, log, a, reg, Slot(p, o), None);
    StateEventsAreInert(Touched([], us, []), t.users, m);
    InertLogs(t.books, log + [a], AllStateEvents(Touched([], us, []), t.users, m), reg);
    assert UpdateEvents(us, m) == [a] by { assert us[..0] == []; }
    assert log + MatchEvents(t.users, m, kind, [], us, []) == log + [a] + AllStateEvents(Touched([], us, []), t.users, m);
  }

  lemma CancelledRests(s: Store, row: Order)
    requires WfStore(s) && CancelIndex(s, row) >= 0
    ensures var side := Side(s.books[row.marketId], row.positionType);
      && WfLevels(side, row.positionType, row.marketId) && row.price in side
      && CancelIndex(s, row) < |side[row.price].openOrders|
      && CancelledAt(s, row).orderId == row.id
      && TimesResting(s.books, Slot(row.price, CancelledAt(s, row))) > 0
  {
    assert WfBook(s.books[row.marketId], row.marketId, s.users);
    assert SideWf(s.books[row.marketId], row.positionType, row.marketId, s.users);
    var level := Side(s.books[row.marketId], row.positionType)[row.price];
    assert WfLevel(level, row.positionType, row.marketId);
    assert Resting(level.openOrders[CancelIndex(s, row)], row.positionType, row.marketId);
    OccursIffIn(level.openOrders, CancelledAt(s, row));
  }

  lemma OwnerCancels(books: map<Uuid, Book>, log: seq<Addressed>, reg: Registry, x: Slot, u: Uuid)
    requires Synced(books, log, reg) && TimesResting(books, x) > 0
    requires x.order.orderId in reg ==> reg[x.order.orderId] == u
    ensures u == x.order.userId
  {
    OrderIsLive(books, log, reg, x);
  }

  /** The ids minted for a sweep, issued to the accounts it visits. */
  function EnrolledSweep(reg: Registry, accounts: seq<Uuid>, ids: seq<Uuid>, k: nat): Registry
    requires k <= |accounts| <= |ids|
  {
    if k == 0 then reg else EnrolledSweep(reg, accounts, ids, k - 1)[ids[k - 1] := accounts[k - 1]]
  }

  lemma {:induction false} SweptIdsAreFresh(reg: Registry, accounts: seq<Uuid>, ids: seq<Uuid>, k: nat, j: nat)
    requires k <= |accounts| <= |ids| && k <= j < |ids| && Distinct(ids) && ids[j] !in reg
    ensures ids[j] !in EnrolledSweep(reg, accounts, ids, k)
    decreases k
  {
    if k != 0 {
      SweptIdsAreFresh(reg, accounts, ids, k - 1, j);
    }
  }

  lemma SweepOneSyncs(sw: Sweep, u: Uuid, m: Uuid, price: real, id: Uuid, now: int, base: seq<Addressed>, reg: Registry)
    requires WfStore(sw.store) && Synced(sw.store.books, base + sw.events, reg) && id !in reg
    ensures var next := SweepOne(sw, u, m, price, id, now); Synced(next.store.books, base + next.events, reg[id := u])
  {
    hide Synced, WfStore, Place, PlacementEvents, LegalRow;
    var row := ForcedClose(sw.store, u, m, price, id);
    if row.Some? {
      ForcedCloseIsLegal(sw.store, u, m, price, id);
      PlaceSyncs(sw.store, row.value, now, ByLiquidation, base + sw.events, reg);
      var p := Place(sw.store, row.value, now);
      if p.Placed? {
        assert base + sw.events + PlacementEvents(p, ByLiquidation) == base + (sw.events + PlacementEvents(p, ByLiquidation));
      }
    } else {
      SyncedCarriesOver(sw.store.books, sw.store.books, base + sw.events, reg, reg[id := u]);
    }
  }

  lemma {:induction false} SweepSyncs(s: Store, m: Uuid, price: real, ids: seq<Uuid>, now: int, k: nat, base: seq<Addressed>, reg: Registry)
    requires WfStore(s) && k <= |s.userIds| <= |ids|
    requires Synced(s.books, base, reg) && Distinct(ids) && forall id :: id in ids ==> id !in reg
    ensures var sw := SweepTo(s, m, price, ids, now, k);
      Synced(sw.store.books, base + sw.events, EnrolledSweep(reg, s.userIds, ids, k))
    decreases k
  {
    hide Synced, WfStore, SweepOne;
    if k == 0 {
      assert base + SweepTo(s, m, price, ids, now, 0).events == base;
    } else {
      SweepSyncs(s, m, price, ids, now, k - 1, base, reg);
      SweptIdsAreFresh(reg, s.userIds, ids, k - 1, k - 1);
      SweepOneSyncs(SweepTo(s, m, price, ids, now, k - 1), s.userIds[k - 1], m, price, ids[k - 1], now, base,
        EnrolledSweep(reg, s.userIds, ids, k - 1));
    }
  }

  lemma TickSyncs(s: Store, a: Asset, price: real, ids: seq<Uuid>, now: int, log: seq<Addressed>, reg: Registry)
    requires WfStore(s) && price != 0.0 && |s.userIds| <= |ids|
    requires Synced(s.books, log, reg) && Distinct(ids) && forall id :: id in ids ==> id !in reg
    ensures var out := SweptOutcome(s, a, price, ids, now);
      Synced(out.store.books, log + ToldBy(out.reply), EnrolledSweep(reg, s.userIds, ids, |s.userIds|))
  {
    hide Synced, Times, Publish, SweepOne;
    var t := WithIndexPrice(s, MarketOf(a), price);
    WithIndexPriceKeepsWf(s, MarketOf(a), price);
    SyncedCarriesOver(s.books, t.books, log, reg, reg);
    SweepSyncs(t, MarketOf(a), price, ids, now, |s.userIds|, log, reg);
  }

  /** Order ids are issued once; a cancel is sent by the account the order was issued to. */
  ghost predicate IdsAreIssuedOnce(reg: Registry, req: Request) {
    match req
    case CreateOrder(row, _) => row.id !in reg
    case CancelOrder(row) => row.id in reg ==> reg[row.id] == row.userId
    case SpotPriceUpdate(_, ids, _) => Distinct(ids) && forall id :: id in ids ==> id !in reg
    case _ => true
  }

  function RegistryAfter(s: Store, reg: Registry, req: Request): Registry
    requires LegalRequest(s, req)
  {
    match req
    case CreateOrder(row, _) => Enrolled(reg, row)
    case SpotPriceUpdate(_, ids, _) => EnrolledSweep(reg, s.userIds, ids, |s.userIds|)
    case _ => reg
  }

  lemma {:induction false} SweepExtends(reg: Registry, accounts: seq<Uuid>, ids: seq<Uuid>, k: nat)
    requires k <= |accounts| <= |ids| && forall id :: id in ids ==> id !in reg
    ensures Extends(reg, EnrolledSweep(reg, accounts, ids, k))
  {
    if k != 0 {
      SweepExtends(reg, accounts, ids, k - 1);
      assert ids[k - 1] in ids;
    }
  }

  /** What a request tells the accounts. */
  function ToldBy(reply: Reply<seq<Addressed>>): seq<Addressed> {
    if reply.Replied? then reply.wsUser else []
  }

  lemma CreateSyncs(s: Store, row: Order, now: int, log: seq<Addressed>, reg: Registry)
    requires WfStore(s) && LegalRow(row) && Synced(s.books, log, reg) && row.id !in reg
    ensures WfStore(WithUser(s, row.userId))
    ensures var out := Created(WithUser(s, row.userId), row, now);
      Synced(out.store.books, log + ToldBy(out.reply), Enrolled(reg, row))
  {
    hide Synced, WfStore, Place, PlacementEvents, Publish;
    WithUserKeepsWf(s, row.userId);
    PlaceSyncs(WithUser(s, row.userId), row, now, ByUser, log, reg);
    assert log + [] == log;
  }

  lemma CancelRequestSyncs(s: Store, row: Order, log: seq<Addressed>, reg: Registry)
    requires WfStore(s) && Synced(s.books, log, reg)
    requires row.id in reg ==> reg[row.id] == row.userId
    ensures var out := CancelledOutcome(s, row); Synced(out.store.books, log + ToldBy(out.reply), reg)
  {
    hide Synced, WfStore, MatchEvents, Publish, AfterCancel;
    if CancelIndex(s, row) >= 0 {
      CancelSyncs(s, row, log, reg);
    } else {
      assert log + [] == log;
    }
  }

  lemma FundingKeepsBooks(s: Store)
    requires WfStore(s)
    ensures Funded(s).books == s.books
  {
  }

  /** Every request keeps every account's table and the books in step. */
  lemma StepSyncs(s: Store, req: Request, log: seq<Addressed>, reg: Registry)
    requires WfStore(s) && LegalRequest(s, req) && IdsAreIssuedOnce(reg, req) && Synced(s.books, log, reg)
    ensures var out := Step(s, req);
      Synced(out.store.books, log + ToldBy(out.reply), RegistryAfter(s, reg, req))
  {
    hide Synced, WfStore, Created, CancelledOutcome, SweptOutcome, EnrolledSweep, Funded;
    assert log + [] == log;
    match req
    case CreateOrder(row, now) => CreateSyncs(s, row, now, log, reg);
    case CancelOrder(row) =>
      CancelRequestSyncs(s, row, log, reg);
    case Onramp(u, amount) =>
      var t := Deposited(s, u, amount);
      InertEvent(s.books, log, Addressed(u, BalanceNow(t.users[u].available, t.users[u].locked)), reg);
    case SpotPriceUpdate(prices, ids, now) =>
      var a := TickedAsset(prices);
      if a.Some? {
        TickSyncs(s, a.value, prices[a.value], ids, now, log, reg);
      } else {
        SweepExtends(reg, s.userIds, ids, |s.userIds|);
        SyncedCarriesOver(s.books, s.books, log, reg, EnrolledSweep(reg, s.userIds, ids, |s.userIds|));
      }
    case FundingRateDispersal => FundingKeepsBooks(s);
    case _ =>
  }

  // ----- runs

  /** A run in which no order id is issued twice and orders are cancelled by their owners. */
  ghost predicate HonestRun(s: Store, reg: Registry, reqs: seq<Request>)
    requires WfStore(s) && LegalRun(s, reqs)
    decreases |reqs|
  {
    reqs == [] ||
    (IdsAreIssuedOnce(reg, reqs[0]) &&
     (StepKeepsWf(s, reqs[0]); HonestRun(Step(s, reqs[0]).store, RegistryAfter(s, reg, reqs[0]), reqs[1..])))
  }

  /** Everything a run tells the accounts, in order. */
  ghost function RunLog(s: Store, reqs: seq<Request>): seq<Addressed>
    requires WfStore(s) && LegalRun(s, reqs)
    decreases |reqs|
  {
    if reqs == [] then []
    else
      StepKeepsWf(s, reqs[0]);
      ToldBy(Step(s, reqs[0]).reply) + RunLog(Step(s, reqs[0]).store, reqs[1..])
  }

  ghost function RunRegistry(s: Store, reg: Registry, reqs: seq<Request>): Registry
    requires WfStore(s) && LegalRun(s, reqs)
    decreases |reqs|
  {
    if reqs == [] then reg
    else
      StepKeepsWf(s, reqs[0]);
      RunRegistry(Step(s, reqs[0]).store, RegistryAfter(s, reg, reqs[0]), reqs[1..])
  }

  lemma {:induction false} RunSyncs(s: Store, reqs: seq<Request>, log: seq<Addressed>, reg: Registry)
    requires WfStore(s) && LegalRun(s, reqs) && HonestRun(s, reg, reqs) && Synced(s.books, log, reg)
    ensures Synced(Run(s, reqs).books, log + RunLog(s, reqs), RunRegistry(s, reg, reqs))
    decreases |reqs|
  {
    hide Synced, WfStore, Step, IdsAreIssuedOnce, LegalRequest, RegistryAfter;
    if reqs == [] {
      assert log + [] == log;
    } else {
      StepKeepsWf(s, reqs[0]);
      StepSyncs(s, reqs[0], log, reg);
      var out := Step(s, reqs[0]);
      RunSyncs(out.store, reqs[1..], log + ToldBy(out.reply), RegistryAfter(s, reg, reqs[0]));
      assert log + ToldBy(out.reply) + RunLog(out.store, reqs[1..]) == log + (ToldBy(out.reply) + RunLog(out.store, reqs[1..]));
    }
  }

  lemma EmptyBooksAreSynced()
    ensures Synced(InitialStore().books, [], map[])
  {
    var books := InitialStore().books;
    forall id ensures Tracked(books, [], map[], id) {
      forall u ensures Says(EventsFor([], u), u, id, Unseen) {
      }
      assert Agrees(books, [], map[], id, Unseen);
    }
  }

  ghost predicate HonestHistory(reqs: seq<Request>) {
    LegalHistory(reqs) && (InitialStoreIsWf(); HonestRun(InitialStore(), map[], reqs))
  }

  /** Everything one account was told over a history. */
  ghost function ToldTo(reqs: seq<Request>, u: Uuid): seq<UserEvent>
    requires LegalHistory(reqs)
  {
    InitialStoreIsWf();
    EventsFor(RunLog(InitialStore(), reqs), u)
  }

  /** The order rests on its market's book, on the side of its type, at that price. */
  ghost predicate RestsAt(books: map<Uuid, Book>, p: real, o: OpenOrder) {
    o.marketId in books &&
    var side := Side(books[o.marketId], o.positionType);
    p in side && o in side[p].openOrders
  }

  lemma RestsIffCounted(books: map<Uuid, Book>, p: real, o: OpenOrder)
    ensures RestsAt(books, p, o) <==> TimesResting(books, Slot(p, o)) > 0
  {
    if o.marketId in books && p in Side(books[o.marketId], o.positionType) {
      OccursIffIn(Side(books[o.marketId], o.positionType)[p].openOrders, o);
    }
  }

  lemma HistorySyncs(reqs: seq<Request>)
    requires HonestHistory(reqs)
    ensures WfStore(InitialStore()) && LegalRun(InitialStore(), reqs)
    ensures Synced(Reached(reqs).books, RunLog(InitialStore(), reqs), RunRegistry(InitialStore(), map[], reqs))
  {
    hide Synced, Run, LegalRun, RunLog, RunRegistry;
    InitialStoreIsWf();
    EmptyBooksAreSynced();
    RunSyncs(InitialStore(), reqs, [], map[]);
    assert [] + RunLog(InitialStore(), reqs) == RunLog(InitialStore(), reqs);
  }

  /**
   * The row of an id is the order of that id that rests for the account, with the same price, size and
   * filled quantity: there is one iff there is the other, and no id rests twice.
   */
  ghost predicate RowIsTheBook(row: Option<UserOrder>, books: map<Uuid, Book>, u: Uuid, id: Uuid) {
    && (row.Some? <==> exists p, o :: RestsAt(books, p, o) && o.orderId == id && o.userId == u)
    && (forall p, o :: RestsAt(books, p, o) && o.orderId == id && o.userId == u ==> row.Some? && Shows(row.value, Slot(p, o)))
    && (forall p, o, q, r :: RestsAt(books, p, o) && RestsAt(books, q, r) && o.orderId == id == r.orderId ==> p == q && o == r)
  }

  lemma SaysWhatRests(books: map<Uuid, Book>, log: seq<Addressed>, reg: Registry, u: Uuid, id: Uuid)
    requires Tracked(books, log, reg, id)
    ensures WellTold(EventsFor(log, u), id)
    ensures RowIsTheBook(RowAfter(None, EventsFor(log, u), id), books, u, id)
  {
    hide TimesResting, RestsAt, WellTold, Introduced;
    var life :| Agrees(books, log, reg, id, life);
    assert Says(EventsFor(log, u), u, id, life);
    forall p: real, o: OpenOrder | o.orderId == id ensures RestsAt(books, p, o) <==> life == Live(Slot(p, o)) {
      RestsIffCounted(books, p, o);
    }
    if life.Live? {
      assert RestsAt(books, life.slot.price, life.slot.order);
    }
  }

  lemma {:induction false} ToldToNamesMarkets(log: seq<Addressed>, u: Uuid)
    requires forall a :: a in log ==> NamesItsMarket(a.event)
    ensures forall e :: e in EventsFor(log, u) ==> NamesItsMarket(e)
  {
    if log != [] {
      ToldToNamesMarkets(log[..|log| - 1], u);
    }
  }

  /**
   * The client's open-orders table is the book. After any history of requests, folding everything an
   * account was told over an empty table gives exactly that account's resting orders: a row for each
   * and no other, with its price, size and filled quantity, partially filled iff something traded.
   */
  lemma TableIsTheBook(reqs: seq<Request>, u: Uuid, id: Uuid)
    requires HonestHistory(reqs)
    ensures var table := ReduceAll([], ToldTo(reqs, u));
      UniqueRows(table) && RowIsTheBook(Row(table, id), Reached(reqs).books, u, id)
  {
    hide Run, LegalRun, RunLog, RunRegistry, RowIsTheBook, Reached;
    HistorySyncs(reqs);
    InitialStoreIsWf();
    var log := RunLog(InitialStore(), reqs);
    SaysWhatRests(Reached(reqs).books, log, RunRegistry(InitialStore(), map[], reqs), u, id);
    TableWorksRowByRow([], ToldTo(reqs, u), id);
  }

  /** Every account's log is one the reducers can be replayed on, so snapshot-then-drain converges on it. */
  lemma EveryLogIsAnEngineLog(reqs: seq<Request>, u: Uuid)
    requires HonestHistory(reqs)
    ensures EngineLog(ToldTo(reqs, u))
  {
    hide Run, LegalRun, RunLog, RunRegistry, Reached;
    HistorySyncs(reqs);
    InitialStoreIsWf();
    var log := RunLog(InitialStore(), reqs);
    forall id ensures WellTold(ToldTo(reqs, u), id) {
      SaysWhatRests(Reached(reqs).books, log, RunRegistry(InitialStore(), map[], reqs), u, id);
    }
    ToldToNamesMarkets(log, u);
  }

  /** Two rows told at two points of a log, both of them what the book holds, are the same row. */
  lemma BookDeterminesRow(es: seq<UserEvent>, id: Uuid, k: nat, books: map<Uuid, Book>, u: Uuid)
    requires WellTold(es, id) && k <= |es|
    requires RowIsTheBook(RowAfter(None, es[..k], id), books, u, id) && RowIsTheBook(RowAfter(None, es, id), books, u, id)
    ensures RowAfter(None, es[..k], id) == RowAfter(None, es, id)
  {
    hide WellTold, RestsAt;
    assert es[..|es|] == es;
    if RowAfter(None, es, id).Some? {
      var p, o :| RestsAt(books, p, o) && o.orderId == id && o.userId == u;
      if !Introduced(es[..k], id) {
        RestsOnlyAfterIntroduction(es[..k], id);
      }
      RowsOnlyFill(es, id, k, |es|);
    }
  }

  /**
   * End to end. Take the open-orders table as of any point `s` of the account's log and drain the events
   * `i..k` of it over the table: the row of an order shows what rests on the book if and only if what the
   * drain shows is what the log ends with. With nothing dropped and a snapshot no older than the first
   * event drained that is always so; with an older snapshot it is so if and only if the gap is harmless.
   */
  lemma DrainedTableIsTheBook(reqs: seq<Request>, u: Uuid, id: Uuid, rows: seq<UserOrder>, s: nat, i: nat, k: nat)
    requires HonestHistory(reqs) && s <= |ToldTo(reqs, u)| && i <= k <= |ToldTo(reqs, u)|
    requires RowsAsOf(rows, ToldTo(reqs, u), s)
    ensures var es := ToldTo(reqs, u);
      var table := ReduceAll(rows, es[i..k]);
      && UniqueRows(table)
      && (RowIsTheBook(Row(table, id), Reached(reqs).books, u, id) <==> RowShown(es, id, s, i, k) == RowAfter(None, es, id))
      && (k == |es| && i <= s ==> RowIsTheBook(Row(table, id), Reached(reqs).books, u, id))
      && (k == |es| && s < i ==>
            (RowIsTheBook(Row(table, id), Reached(reqs).books, u, id) <==> GapIsHarmless(es, id, s, i, |es|)))
  {
    hide ToldTo, RowIsTheBook, Reached, ReduceAll, GapIsHarmless, WellTold, UniqueRows;
    var es := ToldTo(reqs, u);
    EveryLogIsAnEngineLog(reqs, u);
    assert WellTold(es, id);
    TableIsTheBook(reqs, u, id);
    TableWorksRowByRow([], es, id);
    NoRowsAreUnique();
    TableWorksRowByRow(rows, es[i..k], id);
    RowAfterReplay(es, id, s, i, k);
    assert es[..|es|] == es;
    if RowIsTheBook(RowShown(es, id, s, i, k), Reached(reqs).books, u, id) {
      BookDeterminesRow(es, id, if RowShown(es, id, s, i, k) == RowAfter(None, es[..k], id) then k else s, Reached(reqs).books, u);
    }
    if k == |es| && i <= s {
      ReplayedRowConverges(es, id, i, s, k);
    }
    if k == |es| && s < i {
      LaggingRowIff(es, id, s, i, k);
    }
  }

  lemma NoRowsAreUnique()
    ensures UniqueRows([])
  {
  }
}
