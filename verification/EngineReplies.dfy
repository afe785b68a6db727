/** What a reply says, against the state it leaves. */
module EngineReplies {
  import opened Exchange
  import opened Rounding
  import opened Books
  import opened Matching
  import opened Engine
  import opened EngineBooks
  import opened EngineSteps
  import opened EngineDepth
  import opened EngineClose
  import opened OrderTerms

  // ----- what is published

  /** The publication is of the market's book in that state: its top, its last and its index price. */
  ghost predicate PublishesBook(pub: Publication, t: Store, m: Uuid) {
    && m in t.books
    && pub.depth.market == m && pub.depth.lastUpdateId == t.lastUpdateId
    && TellsTheBook(pub.depth, t.books[m]) && ShownUncrossed(pub.depth)
    && pub.lastTradedPrice == t.books[m].lastTradedPrice && pub.indexPrice == t.books[m].indexPrice
  }

  /** The market a request is about, if replies to it are published: the price tick's is the first of the three that has a price. */
  function PublishedMarket(req: Request): Option<Uuid> {
    match req
    case CreateOrder(row, _) => Some(row.marketId)
    case CancelOrder(row) => Some(row.marketId)
    case SpotPriceUpdate(prices, _, _) =>
      if SOL in prices && prices[SOL] != 0.0 then Some(MarketOf(SOL))
      else if BTC in prices && prices[BTC] != 0.0 then Some(MarketOf(BTC))
      else if ETH in prices && prices[ETH] != 0.0 then Some(MarketOf(ETH))
      else None
    case _ => None
  }

  lemma PublishIsTheBook(t: Store, m: Uuid, trades: seq<Print>)
    requires WfStore(t) && m in t.books
    ensures PublishesBook(Publish(t, m, trades), t, m) && Publish(t, m, trades).trades == trades
  {
    hide IsTop, WfStore;
    DepthIsTheTopOfTheBook(t, m);
  }

  /** Every reply that publishes tells the book of its request's market as the request left it; no other reply publishes. */
  lemma RepliesPublishTheBook(s: Store, req: Request)
    requires WfStore(s) && LegalRequest(s, req)
    ensures var out := Step(s, req);
      && (out.reply.Replied? && out.reply.wsServer.Some? ==>
            PublishedMarket(req).Some? && PublishesBook(out.reply.wsServer.value, out.store, PublishedMarket(req).value))
      && (out.reply.Replied? && PublishedMarket(req).Some? ==> out.reply.wsServer.Some?)
  {
    hide WfStore, Place, SweepTo, PlacementEvents, MatchEvents, Publish, DepthOf, Funded, InMarket, AfterCancel, PublishesBook, Deposited;
    StepKeepsWf(s, req);
    var out := Step(s, req);
    if out.reply.Replied? && out.reply.wsServer.Some? {
      match req
      case CreateOrder(row, now) =>
        WithUserKeepsWf(s, row.userId);
        CreatedPublishes(WithUser(s, row.userId), row, now);
      case CancelOrder(row) =>
        CancelledPublishes(s, row);
      case SpotPriceUpdate(prices, ids, now) =>
        TickPublishes(s, TickedAsset(prices).value, prices[TickedAsset(prices).value], ids, now);
      case _ =>
    }
  }

  lemma CreatedPublishes(s: Store, row: Order, now: int)
    requires WfStore(s) && LegalRow(row)
    ensures var out := Created(s, row, now);
      out.reply.Replied? ==> out.reply.wsServer.Some? && PublishesBook(out.reply.wsServer.value, out.store, row.marketId)
  {
    hide WfStore, Place, PlacementEvents, Publish, PublishesBook;
    var p := Place(s, row, now);
    if p.Placed? {
      PlaceKeepsWf(s, row, now);
      PlacedMarket(s, row, now);
      BumpedIsWf(p.store);
      PublishIsTheBook(Bumped(p.store), row.marketId, TradesFromFills(p.fills, p.order.positionType));
    }
  }

  lemma PlacedMarket(s: Store, row: Order, now: int)
    requires WfStore(s) && row.qty > 0.0 && Place(s, row, now).Placed?
    ensures row.marketId in s.books
  {
    AdmittedKeepsIdentity(s, row);
  }

  lemma BumpedIsWf(s: Store)
    requires WfStore(s)
    ensures WfStore(Bumped(s))
  {
  }

  lemma CancelledPublishes(s: Store, row: Order)
    requires WfStore(s) && CancelIndex(s, row) >= 0
    ensures var out := CancelledOutcome(s, row);
      out.reply.Replied? && out.reply.wsServer.Some? && PublishesBook(out.reply.wsServer.value, out.store, row.marketId)
  {
    hide WfStore, MatchEvents, Publish, PublishesBook;
    CancelKeepsWf(s, row);
    PublishIsTheBook(AfterCancel(s, row), row.marketId, []);
  }

  lemma TickPublishes(s: Store, a: Asset, price: real, ids: seq<Uuid>, now: int)
    requires WfStore(s) && price != 0.0 && |s.userIds| <= |ids|
    ensures var out := SweptOutcome(s, a, price, ids, now);
      out.reply.Replied? && out.reply.wsServer.Some? && PublishesBook(out.reply.wsServer.value, out.store, MarketOf(a))
  {
    hide WfStore, SweepOne, Publish, PublishesBook;
    var m := MarketOf(a);
    assert m in s.books by { MarketKnown(s, a); }
    WithIndexPriceKeepsWf(s, m, price);
    var sw := SweepTo(WithIndexPrice(s, m, price), m, price, ids, now, |s.userIds|);
    BumpedIsWf(sw.store);
    PublishIsTheBook(Bumped(sw.store), m, sw.trades);
  }

  lemma MarketKnown(s: Store, a: Asset)
    requires WfStore(s)
    ensures MarketOf(a) in s.books
  {
  }

  // ----- what is printed and reported

  /** A print for each fill, at its price, of its size, bought or sold as the order was. */
  ghost predicate PrintsFills(prints: seq<Print>, fs: seq<Fill>, side: PositionType) {
    && |prints| == |fs|
    && forall i :: 0 <= i < |fs| ==> prints[i].price == fs[i].price && prints[i].qty == fs[i].qty && (prints[i].buy <==> side == LONG)
  }

  lemma {:induction false} FillsArePrinted(fs: seq<Fill>, side: PositionType)
    ensures PrintsFills(TradesFromFills(fs, side), fs, side)
  {
    if fs != [] {
      FillsArePrinted(fs[..|fs| - 1], side);
    }
  }

  function SumOfFills(fs: seq<Fill>): real {
    if fs == [] then 0.0 else fs[0].qty + SumOfFills(fs[1..])
  }

  function CostOfFills(fs: seq<Fill>): real {
    if fs == [] then 0.0 else fs[0].price * fs[0].qty + CostOfFills(fs[1..])
  }

  lemma {:induction false} ExecutionsAddUp(es: seq<Execution>, o: Order)
    ensures SumOfFills(FillsOf(es, o)) == TotalQty(es) && CostOfFills(FillsOf(es, o)) == TotalPrice(es)
    ensures forall i :: 0 <= i < |FillsOf(es, o)| ==> FillsOf(es, o)[i].takerId == o.userId && FillsOf(es, o)[i].takerOrderId == o.id
  {
    if es != [] {
      ExecutionsAddUp(es[1..], o);
      assert FillsOf(es, o)[1..] == FillsOf(es[1..], o);
    }
  }

  /**
   * What an order that is let through is answered: how much it filled and at what price in all, as the sums
   * over its fills, and the mean in cents. The same fills are written and printed.
   */
  lemma AnswersAddUp(s: Store, row: Order, now: int)
    requires WfStore(s) && LegalRow(row) && Admit(s, row).Admitted?
    ensures var out := Created(s, row, now);
      && out.reply.Replied? && out.reply.backend.MatchReport? && out.reply.writer.Some? && out.reply.wsServer.Some?
      && var b, fs := out.reply.backend, out.reply.backend.fills;
      && b.orderId == row.id && b.filledQty == SumOfFills(fs) && b.totalPrice == CostOfFills(fs)
      && b.averagePrice == (if b.filledQty > 0.0 then Round2(b.totalPrice / b.filledQty) else 0.0)
      && (forall i :: 0 <= i < |fs| ==> fs[i].takerId == row.userId && fs[i].takerOrderId == row.id)
      && out.reply.writer.value.fills == fs && out.reply.writer.value.inserts == []
      && PrintsFills(out.reply.wsServer.value.trades, fs, row.positionType)
  {
    hide WfStore, Execute, Greedy, Admit, PlacementEvents, DepthOf, Round2, PrintsFills;
    FillsAreTaken(s, row, now);
    AdmittedKeepsIdentity(s, row);
    ExecutionsAddUp(Taken(s, row), Admit(s, row).order);
    FillsArePrinted(Place(s, row, now).fills, row.positionType);
    PlacedAverage(s, row, now);
  }

  lemma PlacedAverage(s: Store, row: Order, now: int)
    requires WfStore(s) && row.qty > 0.0 && Place(s, row, now).Placed?
    ensures Admit(s, row).Admitted?
    ensures var p := Place(s, row, now);
      p.order == Admit(s, row).order && p.averagePrice == if p.filled > 0.0 then Round2(p.total / p.filled) else 0.0
  {
    hide Round2, WfStore, MatchFrom, UsersAfter, BookAfter, BookingsAfter, StatusAfter;
    AdmittedKeepsIdentity(s, row);
  }

  /** Each fill is with an order that rested on the side the order faces, at the fill's price and for no more than it wanted. */
  lemma MakersWereResting(s: Store, row: Order, now: int)
    requires WfStore(s) && LegalRow(row) && Admit(s, row).Admitted?
    ensures row.marketId in s.books && Place(s, row, now).Placed?
    ensures var b := s.books[row.marketId];
      var facing := if row.positionType == LONG then b.asks else b.bids;
      forall f :: f in Place(s, row, now).fills ==>
        && f.marketId == row.marketId && f.price in facing
        && exists r :: r in facing[f.price].openOrders && r.orderId == f.makerOrderId && r.userId == f.makerId && 0.0 < f.qty <= r.qty - r.filledQty
  {
    hide Place, WfStore, Queue, Greedy, Admit;
    AdmittedKeepsIdentity(s, row);
    FillsAreTaken(s, row, now);
    var kind, o := Opposite(row.positionType), Admit(s, row).order;
    var facing := Side(s.books[row.marketId], kind);
    FacingIsServed(s, row.marketId, kind);
    var q := Queue(kind, facing);
    forall i | 0 <= i < |q| ensures q[i].price in facing && q[i].order in facing[q[i].price].openOrders {
      SlotsComeFromLevels(kind, facing, i);
    }
    GreedyTakesSlots(q, kind, o.price, row.qty, o);
  }

  /** The fill is with an order of the queue. */
  ghost predicate FilledFrom(q: seq<Slot>, f: Fill) {
    exists i ::
      && 0 <= i < |q| && q[i].price == f.price && q[i].order.orderId == f.makerOrderId && q[i].order.userId == f.makerId
      && 0.0 < f.qty <= Unfilled(q[i].order)
  }

  lemma {:induction false} GreedyTakesSlots(q: seq<Slot>, kind: PositionType, limit: real, need: real, o: Order)
    requires Served(q, kind)
    ensures forall f :: f in FillsOf(Greedy(q, kind, limit, need), o) ==> f.marketId == o.marketId && FilledFrom(q, f)
  {
    if q != [] && need > 0.0 && Acceptable(kind, q[0].price, limit) {
      var take := Min(Unfilled(q[0].order), need);
      GreedyTakesSlots(q[1..], kind, limit, need - take, o);
      assert Greedy(q, kind, limit, need)[1..] == Greedy(q[1..], kind, limit, need - take);
      forall f | f in FillsOf(Greedy(q[1..], kind, limit, need - take), o) ensures FilledFrom(q, f) {
        assert FilledFrom(q[1..], f);
        assert forall i :: 0 <= i < |q[1..]| ==> q[1..][i] == q[i + 1];
      }
    }
  }

  // ----- the last price

  /** The last fill of a match sets the last price, and nothing else does. */
  lemma {:induction false} LastFillIsTheLastPrice(st: Progress, o: Order)
    requires Ready(st, o)
    ensures var end := MatchFrom(st, o);
      if |end.fills| > |st.fills| then end.last == end.fills[|end.fills| - 1].price else end.last == st.last && end.fills == st.fills
    ensures |MatchFrom(st, o).fills| >= |st.fills|
    decreases Measure(st, o)
  {
    hide FillHead, Ready, Done;
    if !Done(st, o) {
      FillHeadReady(st, o);
      FillHeadProgresses(st, o);
      OneFillSetsTheLast(st, o);
      LastFillIsTheLastPrice(FillHead(st, o), o);
    }
  }

  lemma OneFillSetsTheLast(st: Progress, o: Order)
    requires Ready(st, o) && !Done(st, o)
    ensures var next := FillHead(st, o);
      |next.fills| == |st.fills| + 1 && next.last == next.fills[|st.fills|].price
  {
    HeadIsKnown(st, o);
  }

  /** After an order the market's last price is that of its last fill, or what it was; index prices and other markets stay. */
  lemma LastPriceIsTheLastFill(s: Store, row: Order, now: int)
    requires WfStore(s) && LegalRow(row) && Admit(s, row).Admitted?
    ensures var p := Place(s, row, now);
      && p.Placed? && row.marketId in s.books && row.marketId in p.store.books
      && p.store.books[row.marketId].lastTradedPrice
           == (if p.fills == [] then s.books[row.marketId].lastTradedPrice else p.fills[|p.fills| - 1].price)
      && p.store.books[row.marketId].indexPrice == s.books[row.marketId].indexPrice
      && p.store.books[row.marketId].allowedLeverage == s.books[row.marketId].allowedLeverage
      && (forall m :: m in s.books && m != row.marketId ==> m in p.store.books && p.store.books[m] == s.books[m])
  {
    hide WfStore, MatchFrom, UsersAfter, BookingsAfter, AveragePrice, StatusAfter, Append, Admit;
    AdmittedKeepsIdentity(s, row);
    var o, reducing := Admit(s, row).order, Admit(s, row).reducing;
    StartIsReady(s, o, reducing);
    LastFillIsTheLastPrice(Start(s.books[o.marketId], LockFor(s.users, o, reducing), o), o);
  }

  // ----- a price tick

  /** Each print is of the fill at its place, bought when the closing order it was taken by is a buying one. */
  ghost predicate PrintsCloses(prints: seq<Print>, w: Writer) {
    && |prints| == |w.fills|
    && forall i :: 0 <= i < |prints| ==>
         && prints[i].price == w.fills[i].price && prints[i].qty == w.fills[i].qty
         && exists row :: row in w.inserts && row.id == w.fills[i].takerOrderId && (prints[i].buy <==> row.positionType == LONG)
  }

  lemma OneMoreClosePrinted(prints: seq<Print>, w: Writer, more: seq<Print>, row: Order, us: seq<OrderUpdate>, fs: seq<Fill>)
    requires PrintsCloses(prints, w) && PrintsFills(more, fs, row.positionType)
    requires forall i :: 0 <= i < |fs| ==> fs[i].takerOrderId == row.id
    ensures PrintsCloses(prints + more, Writer(w.inserts + [row], w.updates + us, w.fills + fs))
  {
    var rows := w.inserts + [row];
    assert row in rows && forall x :: x in w.inserts ==> x in rows;
    var all, fills := prints + more, w.fills + fs;
    forall i | 0 <= i < |all|
      ensures all[i].price == fills[i].price && all[i].qty == fills[i].qty
      ensures exists x :: x in rows && x.id == fills[i].takerOrderId && (all[i].buy <==> x.positionType == LONG) {
      if i < |prints| {
        var x :| x in w.inserts && x.id == w.fills[i].takerOrderId && (prints[i].buy <==> x.positionType == LONG);
        assert x in rows;
      } else {
        assert all[i] == more[i - |prints|] && fills[i] == fs[i - |prints|];
      }
    }
  }

  /** The sweep prints every fill of its forced closes, and leaves the index price where the tick put it. */
  ghost predicate SweptInOrder(sw: Sweep, m: Uuid, price: real) {
    PrintsCloses(sw.trades, sw.writer) && m in sw.store.books && sw.store.books[m].indexPrice == price
  }

  lemma {:induction false} SweepPrintsItsCloses(s: Store, m: Uuid, price: real, ids: seq<Uuid>, now: int, k: nat)
    requires WfStore(s) && k <= |s.userIds| <= |ids| && m in s.books && s.books[m].indexPrice == price
    ensures SweptInOrder(SweepTo(s, m, price, ids, now, k), m, price)
    decreases k
  {
    hide SweepOne, WfStore, SweptInOrder;
    if k == 0 {
      assert SweptInOrder(Sweep(s, Writer([], [], []), [], [], []), m, price) by { NothingSwept(s, m, price); }
    } else {
      SweepPrintsItsCloses(s, m, price, ids, now, k - 1);
      CloseIsPrinted(SweepTo(s, m, price, ids, now, k - 1), s.userIds[k - 1], m, price, ids[k - 1], now);
    }
  }

  lemma NothingSwept(s: Store, m: Uuid, price: real)
    requires m in s.books && s.books[m].indexPrice == price
    ensures SweptInOrder(Sweep(s, Writer([], [], []), [], [], []), m, price)
  {
  }

  lemma CloseIsPrinted(sw: Sweep, u: Uuid, m: Uuid, price: real, id: Uuid, now: int)
    requires WfStore(sw.store) && SweptInOrder(sw, m, price)
    ensures SweptInOrder(SweepOne(sw, u, m, price, id, now), m, price)
  {
    hide Place, WfStore, PrintsCloses, PlacementEvents, PrintsFills;
    var row := ForcedClose(sw.store, u, m, price, id);
    if row.Some? {
      ForcedCloseIsLegal(sw.store, u, m, price, id);
      var p := Place(sw.store, row.value, now);
      if p.Placed? {
        PlacedAverage(sw.store, row.value, now);
        FillsAreTaken(sw.store, row.value, now);
        AdmittedKeepsIdentity(sw.store, row.value);
        ExecutionsAddUp(Taken(sw.store, row.value), Admit(sw.store, row.value).order);
        FillsArePrinted(p.fills, row.value.positionType);
        LastPriceIsTheLastFill(sw.store, row.value, now);
        OneMoreClosePrinted(sw.trades, sw.writer, TradesFromFills(p.fills, row.value.positionType), row.value, p.updates, p.fills);
      }
    }
  }

  /**
   * A price tick is for the first of SOL, BTC and ETH that has a price; it becomes the index price of that
   * market, and every fill of the forced closes is written and printed.
   */
  lemma TickSetsTheIndex(s: Store, prices: map<Asset, real>, ids: seq<Uuid>, now: int)
    requires WfStore(s) && |s.userIds| <= |ids| && PublishedMarket(SpotPriceUpdate(prices, ids, now)).Some?
    ensures var m := PublishedMarket(SpotPriceUpdate(prices, ids, now)).value;
      var a := if m == MarketOf(SOL) then SOL else if m == MarketOf(BTC) then BTC else ETH;
      var out := Step(s, SpotPriceUpdate(prices, ids, now));
      && m == MarketOf(a) && a in prices && prices[a] != 0.0
      && m in out.store.books && out.store.books[m].indexPrice == prices[a]
      && out.reply.Replied? && out.reply.writer.Some? && out.reply.wsServer.Some?
      && PrintsCloses(out.reply.wsServer.value.trades, out.reply.writer.value)
  {
    hide SweepOne, WfStore, DepthOf, PrintsCloses;
    var a := TickedAsset(prices).value;
    var m := MarketOf(a);
    MarketKnown(s, a);
    WithIndexPriceKeepsWf(s, m, prices[a]);
    SweepPrintsItsCloses(WithIndexPrice(s, m, prices[a]), m, prices[a], ids, now, |s.userIds|);
  }

  // ----- cancelling

  /** The order rests on the row's side of its market, at the row's price, under the row's id. */
  ghost predicate RestsThere(s: Store, row: Order, r: OpenOrder) {
    && row.marketId in s.books
    && var b := s.books[row.marketId];
    var side := if row.positionType == LONG then b.bids else b.asks;
    row.price in side && r in side[row.price].openOrders && r.orderId == row.id
  }

  /**
   * A cancel fails, and changes nothing, exactly when the account is unknown or no such order rests there.
   * Otherwise it gives the order's margin back to the account and says so, with what was left of the order.
   */
  lemma CancelReleases(s: Store, row: Order)
    requires WfStore(s)
    ensures var out := CancelledOutcome(s, row);
      && (out.reply == Failed(OrderNotFound) <==> row.userId !in s.users || !exists r :: RestsThere(s, row, r))
      && (out.reply == Failed(OrderNotFound) ==> out.store == s)
      && (out.reply != Failed(OrderNotFound) ==> exists r ::
            && RestsThere(s, row, r)
            && var u := s.users[row.userId];
            && out.store.users == s.users[row.userId := u.(available := u.available + r.margin, locked := u.locked - r.margin)]
            && out.store.userIds == s.userIds && out.store.lastUpdateId == s.lastUpdateId + 1
            && out.reply.Replied?
            && out.reply.backend == CancelReport(row.id, r.qty - r.filledQty, r.margin, u.available + r.margin, u.locked - r.margin)
            && out.reply.writer == Some(Writer([], [OrderUpdate(row.id, row.userId, Cancelled, r.filledQty)], [])))
  {
    hide WithoutOrder, MatchEvents, Publish;
    if row.marketId in s.books {
      SideIsWf(s, row.marketId, row.positionType);
      var side := Side(s.books[row.marketId], row.positionType);
      if row.price in side {
        assert WfLevel(side[row.price], row.positionType, row.marketId);
        RemainingPositive(side[row.price].openOrders, row.positionType, row.marketId);
        forall r | r in side[row.price].openOrders && r.orderId == row.id ensures FindOrder(side[row.price].openOrders, row.id) >= 0 {
        }
      }
    }
    if CancelIndex(s, row) >= 0 {
      assert RestsThere(s, row, CancelledAt(s, row));
    }
  }
}
