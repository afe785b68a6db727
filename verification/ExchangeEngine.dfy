/**
 * The engine itself: users and order books updated in place, one request at a time. Each method is proved
 * equal to the function from old store to new store that the laws are about; the lemmas in front of the
 * class are the glue between its loops and those functions.
 */
module ExchangeEngineClass {
  import opened Exchange
  import opened Sequences
  import opened Rounding
  import opened Books
  import opened Positions
  import opened Matching
  import opened Engine
  import opened EngineBooks
  import opened EngineSteps
  import opened EngineDepth
  import opened UserEvents

  /** What placing an order reports back. */
  datatype Report =
    | Refusal(error: Error)
    | Report(order: Order, status: Status, filled: real, total: real, averagePrice: real,
             fills: seq<Fill>, updates: seq<OrderUpdate>)

  function ReportOf(p: Placement): Report {
    match p
    case Rejected(e) => Refusal(e)
    case Placed(_, o, status, filled, total, average, fills, updates, _) =>
      Report(o, status, filled, total, average, fills, updates)
  }

  /** The reply on the wire is the specified one, its private events sorted into batches. */
  ghost predicate Conveys(r: Reply<Batches>, spec: Reply<seq<Addressed>>) {
    match spec
    case Failed(e) => r == Failed(e)
    case Silent => r == Silent
    case Replied(backend, writer, wsServer, log) =>
      r.Replied? && r.backend == backend && r.writer == writer && r.wsServer == wsServer && Delivers(r.wsUser, log)
  }

  lemma BestIsNext(kind: PositionType, levels: Levels, m: Uuid, from: Option<real>, best: Option<real>)
    requires WfLevels(levels, kind, m)
    requires from.Some? ==> forall q :: q in levels ==> Rank(kind, from.value) < Rank(kind, q)
    requires best == None ==> forall q :: q in levels && levels[q].availableQty > 0.0 ==> !Past(kind, from, q)
    requires best.Some? ==> best.value in levels && forall q :: q in levels && levels[q].availableQty > 0.0 && Past(kind, from, q) ==>
      Rank(kind, best.value) <= Rank(kind, q)
    ensures if levels == map[] then best == None else best == Some(BestPrice(kind, levels))
  {
    forall q | q in levels ensures levels[q].availableQty > 0.0 {
      assert WfLevel(levels[q], kind, m);
      RemainingPositive(levels[q].openOrders, kind, m);
    }
    if levels != map[] {
      var b := BestPrice(kind, levels);
      assert b in levels && levels[b].availableQty > 0.0 && Past(kind, from, b);
    }
  }

  /** The state of the book's side after the level at `p` has been worked on. */
  ghost predicate LevelWorked(kind: PositionType, levels: Levels, p: real) {
    if p in levels then BestPrice(kind, levels) == p && levels[p].openOrders != []
    else forall q :: q in levels ==> Rank(kind, p) < Rank(kind, q)
  }

  lemma LevelAfterFill(st: Progress, o: Order)
    requires Ready(st, o) && !Done(st, o)
    ensures LevelWorked(Opposite(o.positionType), FillHead(st, o).levels, HeadPrice(st, o))
  {
    HeadIsKnown(st, o);
    FillHeadReady(st, o);
    FillHeadQuantities(st, o);
    var p, next := HeadPrice(st, o), FillHead(st, o);
    if p in next.levels {
      assert WfLevel(next.levels[p], Opposite(o.positionType), o.marketId);
      assert IsBest(Opposite(o.positionType), next.levels, p);
    }
  }

  /** The arithmetic of one fill. */
  ghost predicate FillCounts(st: Progress, next: Progress, p: real, r: OpenOrder) {
    var take := Min(Unfilled(r), st.remaining);
    && next.last == p
    && next.remaining == st.remaining - take >= 0.0
    && next.filled == st.filled + take
    && next.total == st.total + Notional(p, take)
  }

  /** What filling needs to know about the order it is about to hit. */
  ghost predicate Hittable(st: Progress, o: Order, p: real, i: int) {
    && p in st.levels && 0 <= i < |st.levels[p].openOrders|
    && Resting(st.levels[p].openOrders[i], Opposite(o.positionType), o.marketId)
    && st.levels[p].openOrders[i].userId in st.users
    && WfPositions(st.users[st.levels[p].openOrders[i].userId].positions)
  }

  lemma HeadIsHittable(st: Progress, o: Order)
    requires Ready(st, o) && !Done(st, o)
    ensures Hittable(st, o, HeadPrice(st, o), HeadIndex(st, o))
    ensures FillAt(st, o, HeadPrice(st, o), HeadIndex(st, o)) == FillHead(st, o)
    ensures FillCounts(st, FillHead(st, o), HeadPrice(st, o), Head(st, o))
  {
    hide CreatePosition, Hit, Booked;
    HeadIsKnown(st, o);
  }

  /** What the matching loop needs to know about one fill. */
  lemma OneMoreFill(st: Progress, o: Order)
    requires Ready(st, o) && !Done(st, o)
    ensures Hittable(st, o, HeadPrice(st, o), HeadIndex(st, o))
    ensures var p, i, next := HeadPrice(st, o), HeadIndex(st, o), FillHead(st, o);
      && FillAt(st, o, p, i) == next
      && FillCounts(st, next, p, st.levels[p].openOrders[i])
      && Ready(next, o) && Measure(next, o) < Measure(st, o)
      && MatchFrom(st, o) == MatchFrom(next, o)
      && LevelWorked(Opposite(o.positionType), next.levels, p)
  {
    hide FillHead, FillAt, LevelWorked, FillCounts, Measure;
    HeadIsHittable(st, o);
    FillHeadReady(st, o);
    FillHeadProgresses(st, o);
    LevelAfterFill(st, o);
  }

  predicate NothingBetween(kind: PositionType, levels: Levels, from: Option<real>, best: real)
    requires best in levels
  {
    forall q :: q in levels && levels[q].availableQty > 0.0 && Past(kind, from, q) ==> Rank(kind, best) <= Rank(kind, q)
  }

  lemma NextPriceIsBest(st: Progress, o: Order, from: Option<real>, best: Option<real>)
    requires Ready(st, o)
    requires from.Some? ==> forall q :: q in st.levels ==> Rank(Opposite(o.positionType), from.value) < Rank(Opposite(o.positionType), q)
    requires best == None ==> forall q :: q in st.levels && st.levels[q].availableQty > 0.0 ==> !Past(Opposite(o.positionType), from, q)
    requires best.Some? ==> best.value in st.levels && NothingBetween(Opposite(o.positionType), st.levels, from, best.value)
    ensures if st.levels == map[] then best == None else best == Some(HeadPrice(st, o))
    ensures st.levels != map[] ==> HeadPrice(st, o) in st.levels && st.levels[HeadPrice(st, o)].openOrders != []
  {
    BestIsNext(Opposite(o.positionType), st.levels, o.marketId, from, best);
    if st.levels != map[] {
      HeadIsKnown(st, o);
    }
  }

  lemma MatchStops(st: Progress, o: Order)
    requires Ready(st, o) && Done(st, o)
    ensures MatchFrom(st, o) == st
  {
  }

  lemma MatchedUsersAreWf(s: Store, o: Order, reducing: bool)
    requires WfStore(s) && o.marketId in s.books && o.userId in s.users
    ensures var st := Matched(s, o, reducing);
      o.userId in st.users && WfUsers(st.users)
  {
    MatchedIsReady(s, o, reducing);
  }

  lemma PlacedInItsMarket(s: Store, row: Order, now: int)
    requires WfStore(s) && LegalRow(row)
    ensures Place(s, row, now).Placed? ==> row.marketId in s.books
  {
  }

  lemma MarketIsKnown(s: Store, a: Asset)
    requires WfStore(s)
    ensures MarketOf(a) in s.books
  {
  }

  lemma AccountIsKnown(s: Store, k: nat)
    requires WfStore(s) && k < |s.userIds|
    ensures s.userIds[k] in s.users
  {
    assert s.userIds[k] in s.userIds;
  }

  lemma EveryAccountFunded(s: Store, users: map<Uuid, User>)
    requires WfStore(s) && users.Keys == s.users.Keys
    requires (WfStoreIsFundable(s); forall j :: 0 <= j < |s.userIds| ==>
      users[s.userIds[j]] == FundUser(s.users[s.userIds[j]], s.books))
    ensures users == Funded(s).users
  {
    WfStoreIsFundable(s);
    forall u | u in users ensures users[u] == Funded(s).users[u] {
      assert u in s.userIds;
    }
  }

  lemma BumpKeepsWf(s: Store)
    requires WfStore(s)
    ensures WfStore(Bumped(s))
  {
  }

  lemma NothingDelivered()
    ensures Delivers(map[], [])
  {
  }

  lemma OneDelivered(u: Uuid, e: UserEvent)
    ensures Delivers(map[u := [e]], [Addressed(u, e)])
  {
    forall w ensures Batch(map[u := [e]], w) == EventsFor([Addressed(u, e)], w) {
      assert EventsFor([Addressed(u, e)][..0], w) == [];
    }
  }

  lemma MergedDelivers(a: Batches, log: seq<Addressed>, b: Batches, more: seq<Addressed>, merged: Batches)
    requires Delivers(a, log) && Delivers(b, more)
    requires forall u :: Batch(merged, u) == Batch(a, u) + Batch(b, u)
    ensures Delivers(merged, log + more)
  {
    forall u ensures Batch(merged, u) == EventsFor(log + more, u) {
      EventsForConcat(log, more, u);
      assert Batch(a, u) == EventsFor(log, u) && Batch(b, u) == EventsFor(more, u);
    }
  }

  lemma SweepStart(s: Store, m: Uuid, price: real, ids: seq<Uuid>, now: int)
    requires WfStore(s) && |s.userIds| <= |ids|
    ensures SweepTo(s, m, price, ids, now, 0) == Sweep(s, Writer([], [], []), [], [], [])
  {
  }

  lemma SweepNext(s: Store, m: Uuid, price: real, ids: seq<Uuid>, now: int, k: nat)
    requires WfStore(s) && k < |s.userIds| <= |ids|
    ensures SweepTo(s, m, price, ids, now, k + 1)
      == SweepOne(SweepTo(s, m, price, ids, now, k), s.userIds[k], m, price, ids[k], now)
  {
    hide SweepOne;
  }

  /** Locking margin changes no book and no position. */
  lemma LockingKeepsWf(s: Store, o: Order, reducing: bool)
    requires WfStore(s) && o.marketId in s.books && o.userId in s.users
    ensures var t := s.(users := LockFor(s.users, o, reducing));
      WfStore(t) && Matched(t, o, true) == Matched(s, o, reducing)
  {
    var t := s.(users := LockFor(s.users, o, reducing));
    WfBooksKnowMoreUsers(s.books, s.users, t.users);
  }

  class ExchangeEngine {
    var userIds: seq<Uuid>
    var users: map<Uuid, User>
    var orderbooks: map<Uuid, Book>
    var lastUpdateId: nat
    /** Every PnL booking so far; the running code keeps only the balances. */
    ghost var booked: seq<Booking>

    ghost function State(): Store
      reads this
    {
      Store(userIds, users, orderbooks, lastUpdateId)
    }

    ghost predicate Valid()
      reads this
    {
      WfStore(State())
    }

    constructor ()
      ensures Valid() && State() == InitialStore() && booked == []
    {
      var s := InitialStore();
      userIds := s.userIds;
      users := s.users;
      orderbooks := s.books;
      lastUpdateId := s.lastUpdateId;
      booked := [];
      new;
      InitialStoreIsWf();
    }

    /** One-way netting of one execution into an account. */
    method CreatePositionFor(u: Uuid, t: Trade, lastTradedPrice: real)
      requires u in users && WfPositions(users[u].positions) && t.qty > 0.0
      modifies `users, `booked
      ensures users == old(users)[u := CreatePosition(old(users)[u], t, lastTradedPrice)]
      ensures booked == old(booked) + [Booking(u, Booked(old(users)[u], t, lastTradedPrice))]
    {
      hide RelativeMargin, WeightedAverage, LiquidationPrice;
      booked := booked + [Booking(u, Booked(users[u], t, lastTradedPrice))];
      var user := users[u];
      var i := FindPosition(user.positions, t.marketId);
      if i < 0 {
        var liquidationPrice := LiquidationPrice(t.margin, t.qty, t.kind, t.averagePrice);
        var newPosition := Position(t.marketId, t.kind, t.qty, t.margin, t.averagePrice, liquidationPrice);
        user := user.(positions := user.positions + [newPosition]);
      } else {
        var e := user.positions[i];
        ghost var was := e;
        if e.kind != t.kind {
          var updatedQty := e.qty - t.qty;
          var absQty := Abs(updatedQty);
          var average := WeightedAverage(e.qty, e.averagePrice, absQty, t.averagePrice);
          var currentTotal, newTotal := lastTradedPrice * t.qty, average * t.qty;
          var pnl := if e.kind == LONG then currentTotal - newTotal else newTotal - currentTotal;
          var margin, kind := e.margin, e.kind;
          if updatedQty > 0.0 {
            margin := RelativeMargin(e.margin, e.qty, absQty);
          } else if updatedQty < 0.0 {
            kind := t.kind;
            margin := RelativeMargin(t.margin, t.qty, absQty);
          }
          assert margin == NettedMargin(was, t);
          assert average == NettedAverage(was, t);
          assert pnl == RealisedPnl(was, t, lastTradedPrice);
          user := user.(available := user.available + (pnl + margin), locked := user.locked - margin);
          if updatedQty == 0.0 {
            user := user.(closedPositions := user.closedPositions + [e], positions := RemoveAt(user.positions, i));
          } else {
            e := e.(kind := kind, margin := margin, averagePrice := average, qty := absQty,
                    liquidationPrice := LiquidationPrice(margin, absQty, t.kind, average));
            assert e == Reduced(was, t);
            user := user.(positions := user.positions[i := e]);
          }
          assert user == Net(users[u], i, t, lastTradedPrice);
        } else {
          var updatedQty := e.qty + t.qty;
          var average := WeightedAverage(e.qty, e.averagePrice, updatedQty, t.averagePrice);
          var margin := e.margin + t.margin;
          e := e.(averagePrice := average, qty := updatedQty, margin := margin,
                  liquidationPrice := LiquidationPrice(margin, updatedQty, t.kind, average));
          user := user.(positions := user.positions[i := e]);
        }
      }
      users := users[u := user];
    }

    /** The match in progress: what the fields and the loop's accumulators hold is `st`. */
    ghost predicate Holds(st: Progress, o: Order, books: map<Uuid, Book>, before: seq<Booking>)
      requires o.marketId in books
      reads this
    {
      && users == st.users
      && booked == before + st.bookings
      && orderbooks == books[o.marketId :=
           WithSide(books[o.marketId], Opposite(o.positionType), st.levels).(lastTradedPrice := st.last)]
    }

    /** Trades the taker against order `i` of the level at `p`: whole, exactly, or in part. */
    method FillRestingOrder(o: Order, p: real, i: nat, remainingQty: real,
                            ghost st: Progress, ghost books: map<Uuid, Book>, ghost before: seq<Booking>)
      returns (qty: real, status: Status, fill: Fill, update: OrderUpdate)
      requires o.marketId in books && Holds(st, o, books, before)
      requires Hittable(st, o, p, i) && st.remaining == remainingQty > 0.0
      modifies `users, `orderbooks, `booked
      ensures var next := FillAt(st, o, p, i);
        && Holds(next, o, books, before)
        && qty == Min(Unfilled(st.levels[p].openOrders[i]), remainingQty)
        && status == next.status
        && next.fills == st.fills + [fill]
        && next.updates == st.updates + [update]
    {
      hide CreatePosition, Booked, WfPositions;
      var kind := Opposite(o.positionType);
      var side := Side(orderbooks[o.marketId], kind);
      var level := side[p];
      var r := level.openOrders[i];
      var availableQty := r.qty - r.filledQty;
      var restingStatus;
      if availableQty > remainingQty {
        qty, status, restingStatus := remainingQty, Filled, PartiallyFilled;
        var margin := RelativeMargin(r.margin, availableQty, availableQty - qty);
        var hit := r.(filledQty := r.filledQty + qty, status := restingStatus, margin := margin);
        side := side[p := Level(level.availableQty - qty, level.openOrders[i := hit])];
      } else {
        if availableQty == remainingQty {
          qty, status, restingStatus := remainingQty, Filled, Filled;
        } else {
          qty, status, restingStatus := availableQty, PartiallyFilled, Filled;
        }
        if level.availableQty - qty <= 0.0 {
          side := side - {p};
        } else {
          side := side[p := Level(level.availableQty - qty, RemoveAt(level.openOrders, i))];
        }
      }
      orderbooks := orderbooks[o.marketId := WithSide(orderbooks[o.marketId], kind, side).(lastTradedPrice := p)];
      fill := Fill(r.userId, o.userId, o.marketId, qty, p, r.orderId, o.id);
      CreatePositionFor(r.userId, Trade(r.marketId, r.positionType, qty, RelativeMargin(r.margin, r.qty, qty), p), p);
      update := OrderUpdate(r.orderId, r.userId, restingStatus, r.filledQty + qty);
    }

    /** The two nested matching loops: best price first, oldest order first within a price. */
    method MatchOrder(o: Order)
      returns (remainingQty: real, filledQty: real, totalPrice: real, status: Status, fills: seq<Fill>, updates: seq<OrderUpdate>)
      requires Valid() && o.marketId in orderbooks && o.userId in users && o.qty > 0.0
      modifies `users, `orderbooks, `booked
      ensures var st := Matched(old(State()), o, true);
        && Holds(st, o, old(orderbooks), old(booked))
        && remainingQty == st.remaining && filledQty == st.filled && totalPrice == st.total
        && status == st.status && fills == st.fills && updates == st.updates
    {
      hide WfStore, Ready, MatchFrom, FillHead, FillAt, Measure;
      var kind := Opposite(o.positionType);
      ghost var end := Matched(State(), o, true);
      ghost var st := Start(orderbooks[o.marketId], users, o);
      ghost var books, before := orderbooks, booked;
      StartIsReady(State(), o, true);
      remainingQty, filledQty, totalPrice, status, fills, updates := o.qty, 0.0, 0.0, Open, [], [];
      var bestNextPrice := NextBestPrice(kind, Side(orderbooks[o.marketId], kind), None);
      NextPriceIsBest(st, o, None, bestNextPrice);
      assert MatchFrom(st, o) == end;
      hide Matched, Start, LevelsAfter, Hit, WfPositions, Notional;
      while remainingQty > 0.0 && bestNextPrice.Some? && Acceptable(kind, bestNextPrice.value, o.price)
        invariant Ready(st, o) && MatchFrom(st, o) == end && st.remaining >= 0.0
        invariant Holds(st, o, books, before)
        invariant remainingQty == st.remaining && filledQty == st.filled && totalPrice == st.total
        invariant status == st.status && fills == st.fills && updates == st.updates
        invariant st.remaining > 0.0 ==> if st.levels == map[] then bestNextPrice == None
          else bestNextPrice == Some(HeadPrice(st, o)) && st.levels[HeadPrice(st, o)].openOrders != []
        decreases Measure(st, o)
      {
        var p := bestNextPrice.value;
        ghost var atStart := Measure(st, o);
        var index := FirstCreatedOrder(Side(orderbooks[o.marketId], kind)[p].openOrders);
        while index >= 0
          invariant Ready(st, o) && MatchFrom(st, o) == end && st.remaining >= 0.0
          invariant Holds(st, o, books, before)
          invariant remainingQty == st.remaining && filledQty == st.filled && totalPrice == st.total
          invariant status == st.status && fills == st.fills && updates == st.updates
          invariant index >= 0 ==> !Done(st, o)
          invariant index >= 0 ==> p == HeadPrice(st, o) && index == HeadIndex(st, o)
          invariant index < 0 ==> Measure(st, o) < atStart
          invariant index < 0 ==> forall q :: q in st.levels ==> Rank(kind, p) < Rank(kind, q)
          invariant Measure(st, o) <= atStart
          decreases Measure(st, o)
        {
          OneMoreFill(st, o);
          var qty, fill, update;
          qty, status, fill, update := FillRestingOrder(o, p, index, remainingQty, st, books, before);
          remainingQty := remainingQty - qty;
          filledQty := filledQty + qty;
          totalPrice := totalPrice + Notional(p, qty);
          fills := fills + [fill];
          updates := updates + [update];
          st := FillHead(st, o);
          if remainingQty <= 0.0 {
            break;
          }
          if p in Side(orderbooks[o.marketId], kind) {
            index := FirstCreatedOrder(Side(orderbooks[o.marketId], kind)[p].openOrders);
          } else {
            index := -1;
          }
        }
        bestNextPrice := NextBestPrice(kind, Side(orderbooks[o.marketId], kind), Some(p));
        if st.remaining > 0.0 {
          NextPriceIsBest(st, o, Some(p), bestNextPrice);
        }
      }
      MatchStops(st, o);
    }

    /** Gives the taker the position its fills add up to, at their rounded average price. */
    method SettleTaker(o: Order, filledQty: real, totalPrice: real, ghost st: Progress, ghost before: seq<Booking>)
      returns (averagePrice: real)
      requires o.marketId in orderbooks && orderbooks[o.marketId].lastTradedPrice == st.last
      requires users == st.users && o.userId in users && WfUsers(users) && o.qty > 0.0
      requires filledQty == st.filled && totalPrice == st.total && booked == before + st.bookings
      modifies `users, `booked
      ensures averagePrice == AveragePrice(st)
      ensures users == UsersAfter(st, o)
      ensures booked == before + BookingsAfter(st, o)
    {
      averagePrice := if filledQty > 0.0 then Round2(totalPrice / filledQty) else 0.0;
      var margin := RelativeMargin(o.initialMargin, o.qty, filledQty);
      if filledQty > 0.0 {
        CreatePositionFor(o.userId, Trade(o.marketId, o.positionType, filledQty, margin, averagePrice),
          orderbooks[o.marketId].lastTradedPrice);
      }
    }

    /** What did not trade rests if it is a limit order and is cancelled if it is a market order. */
    method RestOrCancel(o: Order, remainingQty: real, filledQty: real, matched: Status, now: int,
                        ghost st: Progress, ghost b: Book)
      returns (status: Status)
      requires o.marketId in orderbooks && o.qty > 0.0
      requires orderbooks[o.marketId] == WithSide(b, Opposite(o.positionType), st.levels).(lastTradedPrice := st.last)
      requires remainingQty == st.remaining && filledQty == st.filled && matched == st.status
      modifies `orderbooks
      ensures status == StatusAfter(st, o)
      ensures orderbooks == old(orderbooks)[o.marketId := BookAfter(b, st, o, now)]
    {
      status := matched;
      if remainingQty > 0.0 {
        if o.orderType == Limit {
          var margin := RelativeMargin(o.initialMargin, o.qty, remainingQty);
          var newOpenOrder := OpenOrder(o.id, o.userId, o.marketId, o.positionType, o.qty, filledQty, margin, Open, now);
          var own := Side(orderbooks[o.marketId], o.positionType);
          var additionalQty := o.qty - filledQty;
          if o.price !in own {
            own := own[o.price := Level(additionalQty, [newOpenOrder])];
          } else {
            var level := own[o.price];
            own := own[o.price := Level(level.availableQty + additionalQty, level.openOrders + [newOpenOrder])];
          }
          orderbooks := orderbooks[o.marketId := WithSide(orderbooks[o.marketId], o.positionType, own)];
        } else {
          status := Cancelled;
        }
      }
    }

    /** Turns a market order into a limit order at the worst price it accepts. */
    method BoundPrice(o: Order) returns (bounded: Option<Order>)
      requires Valid() && o.marketId in orderbooks
      ensures bounded == Bounded(orderbooks[o.marketId], o)
    {
      if o.orderType == Limit {
        return Some(o);
      }
      var kind := Opposite(o.positionType);
      var facing := Side(orderbooks[o.marketId], kind);
      var entryPrice := NextBestPrice(kind, facing, None);
      assert SideWf(orderbooks[o.marketId], kind, o.marketId, users) by {
        assert WfBook(orderbooks[o.marketId], o.marketId, users);
      }
      BestIsNext(kind, facing, o.marketId, None, entryPrice);
      if entryPrice == None {
        return None;
      }
      bounded := Some(WithSlippage(o, entryPrice.value));
    }

    /** Margin rules, price bound and leverage cap; nothing is changed before all three are passed. */
    method AdmitOrder(row: Order) returns (admission: Admission)
      requires Valid() && LegalRow(row)
      ensures admission == Admit(State(), row)
    {
      if row.marketId !in orderbooks {
        return Refused(UnsupportedMarket);
      }
      if row.userId !in users {
        return Refused(UnknownUser);
      }
      admission := CheckMargin(users[row.userId], row);
      if admission.Refused? {
        return;
      }
      var bounded := BoundPrice(admission.order);
      if bounded == None {
        return Refused(NoMatches);
      }
      if !LeverageAllowed(orderbooks[row.marketId], bounded.value, admission.reducing) {
        return Refused(LeverageNotSupported);
      }
      admission := Admitted(bounded.value, admission.reducing);
    }

    /** Locks the margin, matches, settles the taker and rests or cancels what is left. */
    method ExecuteOrder(o: Order, reducing: bool, now: int, origin: Origin) returns (report: Report, events: Batches)
      requires Valid() && o.marketId in orderbooks && o.userId in users && LegalRow(o)
      modifies `users, `orderbooks, `booked
      ensures var p := Execute(old(State()), o, reducing, now);
        && report == ReportOf(p)
        && State() == p.store
        && booked == old(booked) + p.bookings
        && Delivers(events, PlacementEvents(p, origin))
    {
      hide Ready, Matched, UsersAfter, BookAfter, BookingsAfter, StatusAfter, AveragePrice, MatchEvents, WfBooks, WfUsers;
      ghost var before, b, bookings := State(), orderbooks[o.marketId], booked;
      ExecuteKeepsWf(before, o, reducing, now);
      if !reducing && o.initialMargin > 0.0 {
        users := users[o.userId := Lock(users[o.userId], o.initialMargin)];
      }
      LockingKeepsWf(before, o, reducing);
      ghost var st := Matched(before, o, reducing);
      assert st == Matched(State(), o, true);
      MatchedUsersAreWf(before, o, reducing);
      var remainingQty, filledQty, totalPrice, status, fills, updates := MatchOrder(o);
      var averagePrice := SettleTaker(o, filledQty, totalPrice, st, bookings);
      status := RestOrCancel(o, remainingQty, filledQty, status, now, st, b);
      updates := updates + [OrderUpdate(o.id, o.userId, status, filledQty)];
      report := Report(o, status, filledQty, totalPrice, averagePrice, fills, updates);
      events := UserEventsForMatch(users, o.marketId, o.positionType, fills, updates,
        [NewOrder(o, status, filledQty, origin)]);
    }

    /** Places an order: refused with nothing changed, or executed whole. */
    method PlaceOrder(row: Order, now: int, origin: Origin) returns (report: Report, events: Batches)
      requires Valid() && LegalRow(row)
      modifies `users, `orderbooks, `booked
      ensures var p := Place(old(State()), row, now);
        && report == ReportOf(p)
        && (p.Rejected? ==> State() == old(State()) && booked == old(booked))
        && (p.Placed? ==>
              && State() == p.store && booked == old(booked) + p.bookings
              && Delivers(events, PlacementEvents(p, origin)))
      ensures Valid()
    {
      PlaceKeepsWf(State(), row, now);
      var admission := AdmitOrder(row);
      if admission.Refused? {
        return Refusal(admission.error), map[];
      }
      AdmittedKeepsIdentity(State(), row);
      report, events := ExecuteOrder(admission.order, admission.reducing, now, origin);
    }

    /** The published depth of a market: the top of both sides. */
    method GetMarketDepth(m: Uuid) returns (depth: Depth)
      requires Valid() && m in orderbooks
      ensures depth == DepthOf(State(), m)
      ensures depth.market == m && depth.lastUpdateId == lastUpdateId && TellsTheBook(depth, orderbooks[m]) && ShownUncrossed(depth)
    {
      DepthIsTheTopOfTheBook(State(), m);
      assert SideWf(orderbooks[m], LONG, m, users) && SideWf(orderbooks[m], SHORT, m, users) by {
        assert WfBook(orderbooks[m], m, users);
      }
      var bids := TopOfSide(LONG, orderbooks[m].bids, m, MAX_DEPTH);
      var asks := TopOfSide(SHORT, orderbooks[m].asks, m, MAX_DEPTH);
      depth := Depth(m, lastUpdateId, bids, asks);
    }

    /** What a reply publishes about a market, after the counter moved. */
    method PublishMarket(m: Uuid, trades: seq<Print>) returns (publication: Publication)
      requires Valid() && m in orderbooks
      ensures publication == Publish(State(), m, trades)
    {
      var depth := GetMarketDepth(m);
      publication := Publication(depth, orderbooks[m].lastTradedPrice, orderbooks[m].indexPrice, trades);
    }

    /** The prints of a match: the taker's side, and no identity. */
    method PrintTrades(fills: seq<Fill>, takerSide: PositionType) returns (trades: seq<Print>)
      ensures trades == TradesFromFills(fills, takerSide)
    {
      trades := [];
      for i := 0 to |fills|
        invariant trades == TradesFromFills(fills[..i], takerSide)
      {
        TakeSucc(fills, i);
        trades := trades + [Print(fills[i].price, fills[i].qty, takerSide == LONG)];
      }
      assert fills[..|fills|] == fills;
    }

    /** An account the engine has not seen is created empty. */
    method EnsureUser(u: Uuid)
      requires Valid()
      modifies `users, `userIds
      ensures Valid() && State() == WithUser(old(State()), u)
    {
      WithUserKeepsWf(State(), u);
      if u !in users {
        userIds := userIds + [u];
        users := users[u := NewUser];
      }
    }

    method Onramp(u: Uuid, amount: real)
      requires Valid()
      modifies `users, `userIds
      ensures Valid() && State() == Deposited(old(State()), u, amount)
    {
      hide WfStore;
      DepositedKeepsWf(State(), u, amount);
      if u !in users {
        userIds := userIds + [u];
        users := users[u := User(0.0 + amount, 0.0, [], [])];
      } else {
        users := users[u := users[u].(available := users[u].available + amount)];
      }
      assert State() == Deposited(old(State()), u, amount);
    }

    /** A new order from an account, and everything it makes the engine say. */
    method CreateOrder(row: Order, now: int) returns (reply: Reply<Batches>)
      requires Valid() && LegalRow(row)
      modifies this
      ensures var out := Created(old(State()), row, now);
        State() == out.store && Conveys(reply, out.reply) && booked == old(booked) + out.bookings
      ensures Valid()
    {
      hide Place;
      PlaceKeepsWf(State(), row, now);
      PlacedInItsMarket(State(), row, now);
      var report, events := PlaceOrder(row, now, ByUser);
      if report.Refusal? {
        return Failed(report.error);
      }
      lastUpdateId := lastUpdateId + 1;
      var trades := PrintTrades(report.fills, report.order.positionType);
      var publication := PublishMarket(row.marketId, trades);
      reply := Replied(
        MatchReport(report.order.id, report.status, report.filled, report.total, report.averagePrice, report.fills),
        Some(Writer([], report.updates, report.fills)), Some(publication), events);
    }

    /** Takes one resting order off its level and releases the margin the order still holds. */
    method CancelOrder(row: Order) returns (reply: Reply<Batches>)
      requires Valid()
      modifies this
      ensures var out := CancelledOutcome(old(State()), row);
        State() == out.store && Conveys(reply, out.reply) && booked == old(booked) + out.bookings
      ensures Valid()
    {
      hide WfStore, MatchEvents, Publish;
      if CancelIndex(State(), row) >= 0 {
        CancelKeepsWf(State(), row);
      }
      if row.marketId !in orderbooks || row.userId !in users {
        return Failed(OrderNotFound);
      }
      var side := Side(orderbooks[row.marketId], row.positionType);
      if row.price !in side || side[row.price].availableQty <= 0.0 {
        return Failed(OrderNotFound);
      }
      var level := side[row.price];
      var index := FindOrder(level.openOrders, row.id);
      if index < 0 {
        return Failed(OrderNotFound);
      }
      var openOrder := level.openOrders[index];
      users := users[row.userId := Release(users[row.userId], openOrder.margin)];
      var remainingQty := openOrder.qty - openOrder.filledQty;
      level := Level(level.availableQty - remainingQty, RemoveAt(level.openOrders, index));
      side := if level.availableQty <= 0.0 || level.openOrders == [] then side - {row.price} else side[row.price := level];
      orderbooks := orderbooks[row.marketId := WithSide(orderbooks[row.marketId], row.positionType, side)];
      lastUpdateId := lastUpdateId + 1;
      assert State() == AfterCancel(old(State()), row);
      var publication := PublishMarket(row.marketId, []);
      var updates := [OrderUpdate(row.id, row.userId, Cancelled, openOrder.filledQty)];
      var events := UserEventsForMatch(users, row.marketId, row.positionType, [], updates, []);
      reply := Replied(
        CancelReport(row.id, remainingQty, openOrder.margin, users[row.userId].available, users[row.userId].locked),
        Some(Writer([], updates, [])), Some(publication), events);
    }

    /** Closes one account's position by force if the price has put it under water. */
    method LiquidateAccount(u: Uuid, m: Uuid, price: real, mintedId: Uuid, now: int,
                            before: Writer, tape: seq<Print>, told: Batches, ghost sw: Sweep)
      returns (writer: Writer, trades: seq<Print>, events: Batches)
      requires Valid() && State() == sw.store && u in users
      requires before == sw.writer && tape == sw.trades && Delivers(told, sw.events)
      modifies `users, `orderbooks, `booked
      ensures var next := SweepOne(sw, u, m, price, mintedId, now);
        && State() == next.store && writer == next.writer && trades == next.trades && Delivers(events, next.events)
        && exists bs :: next.bookings == sw.bookings + bs && booked == old(booked) + bs
      ensures Valid()
    {
      hide WfStore, Place, Delivers, PlacementEvents;
      writer, trades, events := before, tape, told;
      ghost var bs: seq<Booking> := [];
      var i := FindPosition(users[u].positions, m);
      if i >= 0 && Liquidatable(users[u].positions[i], price) {
        var row := LiquidationRow(u, users[u].positions[i], mintedId);
        assert ForcedClose(sw.store, u, m, price, mintedId) == Some(row);
        ForcedCloseIsLegal(sw.store, u, m, price, mintedId);
        var report, batch := PlaceOrder(row, now, ByLiquidation);
        ghost var p := Place(sw.store, row, now);
        if report.Report? {
          var prints := PrintTrades(report.fills, row.positionType);
          trades := trades + prints;
          events := MergeUserEvents(told, batch);
          MergedDelivers(told, sw.events, batch, PlacementEvents(p, ByLiquidation), events);
          writer := Writer(writer.inserts + [row], writer.updates + report.updates, writer.fills + report.fills);
          bs := p.bookings;
        }
      }
      assert SweepOne(sw, u, m, price, mintedId, now).bookings == sw.bookings + bs;
    }

    /**
     * A price tick: records the index price, then force-closes every position it puts under water,
     * account by account. A close that finds nothing to trade against leaves its position for the next tick.
     */
    method LiquidationChecks(a: Asset, price: real, mintedIds: seq<Uuid>, now: int) returns (reply: Reply<Batches>)
      requires Valid() && price != 0.0 && |userIds| <= |mintedIds|
      modifies this
      ensures var out := SweptOutcome(old(State()), a, price, mintedIds, now);
        State() == out.store && Conveys(reply, out.reply) && booked == old(booked) + out.bookings
      ensures Valid()
    {
      hide WfStore, SweepOne, SweepTo, Publish, Delivers;
      var m := MarketOf(a);
      MarketIsKnown(State(), a);
      ghost var start, before := WithIndexPrice(State(), m, price), booked;
      WithIndexPriceKeepsWf(State(), m, price);
      orderbooks := orderbooks[m := orderbooks[m].(indexPrice := price)];
      var accounts := userIds;
      var writer, trades, events := Writer([], [], []), [], map[];
      ghost var sw := SweepTo(start, m, price, mintedIds, now, 0);
      NothingDelivered();
      SweepStart(start, m, price, mintedIds, now);
      for k := 0 to |accounts|
        invariant sw == SweepTo(start, m, price, mintedIds, now, k)
        invariant Valid() && State() == sw.store
        invariant writer == sw.writer && trades == sw.trades && Delivers(events, sw.events)
        invariant booked == before + sw.bookings
      {
        SweepNext(start, m, price, mintedIds, now, k);
        AccountIsKnown(sw.store, k);
        writer, trades, events := LiquidateAccount(accounts[k], m, price, mintedIds[k], now, writer, trades, events, sw);
        sw := SweepOne(sw, accounts[k], m, price, mintedIds[k], now);
      }
      lastUpdateId := lastUpdateId + 1;
      BumpKeepsWf(sw.store);
      var publication := PublishMarket(m, trades);
      reply := Replied(Nothing, Some(writer), Some(publication), events);
    }

    /** Every position of one account pays or receives funding at its own market's rate. */
    method FundAccount(u: Uuid)
      requires u in users && Fundable(users[u].positions, orderbooks)
      modifies `users
      ensures users == old(users)[u := FundUser(old(users)[u], orderbooks)]
    {
      hide FundPosition;
      ghost var before := users[u].positions;
      var positions := users[u].positions;
      for i := 0 to |positions|
        invariant |positions| == |before|
        invariant forall j :: 0 <= j < i ==> positions[j] == FundPosition(before[j], orderbooks)
        invariant forall j :: i <= j < |positions| ==> positions[j] == before[j]
      {
        positions := positions[i := FundPosition(positions[i], orderbooks)];
      }
      assert positions == FundPositions(before, orderbooks);
      users := users[u := users[u].(positions := positions)];
    }

    /** Every open position pays or receives funding. */
    method DisperseFundingRate()
      requires Valid()
      modifies `users
      ensures Valid() && State() == Funded(old(State()))
    {
      hide WfBooks, FundUser, WfPositions;
      ghost var s := State();
      WfStoreIsFundable(s);
      FundingKeepsWf(s);
      for k := 0 to |userIds|
        invariant users.Keys == s.users.Keys
        invariant forall j :: 0 <= j < k ==> users[userIds[j]] == FundUser(s.users[userIds[j]], s.books)
        invariant forall j :: k <= j < |userIds| ==> users[userIds[j]] == s.users[userIds[j]]
      {
        AccountIsKnown(s, k);
        FundAccount(userIds[k]);
      }
      EveryAccountFunded(s, users);
    }

    /** Carries out one request; the new state and the reply are those of the specification. */
    method Handle(req: Request) returns (reply: Reply<Batches>)
      requires Valid() && LegalRequest(State(), req)
      modifies this
      ensures var out := Step(old(State()), req);
        State() == out.store && Conveys(reply, out.reply) && booked == old(booked) + out.bookings
      ensures Valid()
    {
      hide WfStore, Created, CancelledOutcome, SweptOutcome, Funded, Delivers;
      NothingDelivered();
      match req
      case InitBalance(u) =>
        EnsureUser(u);
        reply := Replied(Balance(u, users[u].available), None, None, map[]);
      case Onramp(u, amount) =>
        Onramp(u, amount);
        var balance := BalanceNow(users[u].available, users[u].locked);
        OneDelivered(u, balance);
        reply := Replied(Balance(u, users[u].available), None, None, map[u := [balance]]);
      case CreateOrder(row, now) =>
        EnsureUser(row.userId);
        reply := CreateOrder(row, now);
      case CancelOrder(row) =>
        reply := CancelOrder(row);
      case GetBalances(u) =>
        EnsureUser(u);
        reply := Replied(Balances(users[u].available, users[u].locked), None, None, map[]);
      case GetOpenPositions(u, m) =>
        reply := Replied(PositionList(if u in users then InMarket(users[u].positions, m) else []), None, None, map[]);
      case GetClosedPositions(u, m) =>
        reply := Replied(PositionList(if u in users then InMarket(users[u].closedPositions, m) else []), None, None, map[]);
      case SpotPriceUpdate(prices, mintedIds, now) =>
        var a := TickedAsset(prices);
        if a == None {
          return Failed(UnsupportedRequest);
        }
        reply := LiquidationChecks(a.value, prices[a.value], mintedIds, now);
      case BackupStore =>
        reply := Silent;
      case FundingRateDispersal =>
        DisperseFundingRate();
        reply := Silent;
      case GetDepth(m) =>
        if m !in orderbooks {
          return Failed(UnsupportedMarket);
        }
        var depth := GetMarketDepth(m);
        reply := Replied(DepthReport(depth), None, None, map[]);
    }
  }
}
