/** The fills an account is told add up to what it holds. */
module FillSync {
  import opened Exchange
  import opened Books
  import opened Positions
  import opened Matching
  import opened Engine
  import opened EngineBooks
  import opened EngineSteps
  import opened EngineLaws
  import opened ClientSync

  /** What the fills told of a market come to: bought less sold. */
  function Bought(es: seq<UserEvent>, m: Uuid): real {
    if es == [] then 0.0
    else
      var e := es[|es| - 1];
      Bought(es[..|es| - 1], m) + if e.FillSeen? && e.marketId == m then Signed(e.side, e.qty) else 0.0
  }

  lemma {:induction false} BoughtConcat(a: seq<UserEvent>, b: seq<UserEvent>, m: Uuid)
    ensures Bought(a + b, m) == Bought(a, m) + Bought(b, m)
  {
    if b == [] {
      assert a + b == a;
    } else {
      assert (a + b)[..|a + b| - 1] == a + b[..|b| - 1];
      BoughtConcat(a, b[..|b| - 1], m);
    }
  }

  function ToldOf(log: seq<Addressed>, u: Uuid, m: Uuid): real {
    Bought(EventsFor(log, u), m)
  }

  lemma ToldConcat(a: seq<Addressed>, b: seq<Addressed>, u: Uuid, m: Uuid)
    ensures ToldOf(a + b, u, m) == ToldOf(a, u, m) + ToldOf(b, u, m)
  {
    EventsForConcat(a, b, u);
    BoughtConcat(EventsFor(a, u), EventsFor(b, u), m);
  }

  lemma ToldOne(a: Addressed, u: Uuid, m: Uuid)
    ensures ToldOf([a], u, m)
      == if a.userId == u && a.event.FillSeen? && a.event.marketId == m then Signed(a.event.side, a.event.qty) else 0.0
  {
    var nothing: seq<Addressed>, silence: seq<UserEvent> := [], [];
    assert [a][..0] == nothing && [a.event][..0] == silence;
    assert EventsFor(nothing, u) == silence && Bought(silence, m) == 0.0;
  }

  lemma {:induction false} NoFillsTold(log: seq<Addressed>, u: Uuid, m: Uuid)
    requires forall a :: a in log ==> !a.event.FillSeen?
    ensures ToldOf(log, u, m) == 0.0
  {
    if log != [] {
      var n := |log| - 1;
      NoFillsTold(log[..n], u, m);
      assert log == log[..n] + [log[n]];
      ToldConcat(log[..n], [log[n]], u, m);
      ToldOne(log[n], u, m);
    }
  }

  // ----- one match

  /** What a list of fills moves in an account's holding, as taker on `side` and as maker on the other. */
  function Traded(fs: seq<Fill>, u: Uuid, side: PositionType): real {
    if fs == [] then 0.0
    else
      var f := fs[|fs| - 1];
      Traded(fs[..|fs| - 1], u, side)
        + (if f.takerId == u then Signed(side, f.qty) else 0.0) + (if f.makerId == u then Signed(Opposite(side), f.qty) else 0.0)
  }

  lemma TradedPush(fs: seq<Fill>, f: Fill, u: Uuid, side: PositionType)
    ensures Traded(fs + [f], u, side) == Traded(fs, u, side)
      + (if f.takerId == u then Signed(side, f.qty) else 0.0) + (if f.makerId == u then Signed(Opposite(side), f.qty) else 0.0)
  {
    assert (fs + [f])[..|fs|] == fs;
  }

  /** The events of a match tell each account exactly its fills. */
  lemma {:induction false} FillEventsTell(fs: seq<Fill>, n: Uuid, side: PositionType, u: Uuid, m: Uuid)
    ensures ToldOf(FillEvents(fs, n, side), u, m) == if m == n then Traded(fs, u, side) else 0.0
  {
    hide ToldOf;
    if fs == [] {
      NoFillsTold([], u, m);
    } else {
      var k := |fs| - 1;
      FillEventsTell(fs[..k], n, side, u, m);
      var pair := FillPair(fs[k], n, side);
      ToldConcat(FillEvents(fs[..k], n, side), pair, u, m);
      assert pair == [pair[0]] + [pair[1]];
      ToldConcat([pair[0]], [pair[1]], u, m);
      ToldOne(pair[0], u, m);
      ToldOne(pair[1], u, m);
    }
  }

  /** An account's holding in a market; none before there is an account. */
  function Holding(users: map<Uuid, User>, u: Uuid, m: Uuid): real {
    if u in users then Exposure(users[u].positions, m) else 0.0
  }

  /** From `st` to `next` the accounts' holdings moved by the fills in between, but for the taker's own leg. */
  ghost predicate MakersHold(st: Progress, next: Progress, o: Order, u: Uuid, m: Uuid) {
    Holding(next.users, u, m) - Holding(st.users, u, m)
      == if m != o.marketId then 0.0
         else Traded(next.fills, u, o.positionType) - Traded(st.fills, u, o.positionType)
              - (if u == o.userId then Signed(o.positionType, next.filled - st.filled) else 0.0)
  }

  lemma FillMovesHolding(st: Progress, o: Order, u: Uuid, m: Uuid)
    requires Ready(st, o) && !Done(st, o)
    ensures MakersHold(st, FillHead(st, o), o, u, m)
  {
    hide CreatePosition, LevelsAfter, Exposure, Traded;
    HeadIsKnown(st, o);
    var p, r, next := HeadPrice(st, o), Head(st, o), FillHead(st, o);
    var take := Min(Unfilled(r), st.remaining);
    TradedPush(st.fills, Fill(r.userId, o.userId, o.marketId, take, p, r.orderId, o.id), u, o.positionType);
    NettingAddsSignedQuantity(st.users[r.userId], MakerTrade(r, take, p), p, m);
  }

  lemma HoldsThen(st: Progress, next: Progress, end: Progress, o: Order, u: Uuid, m: Uuid)
    requires MakersHold(st, next, o, u, m) && MakersHold(next, end, o, u, m)
    ensures MakersHold(st, end, o, u, m)
  {
  }

  lemma {:induction false} MatchMovesHolding(st: Progress, o: Order, u: Uuid, m: Uuid)
    requires Ready(st, o)
    ensures MakersHold(st, MatchFrom(st, o), o, u, m)
    decreases Measure(st, o)
  {
    hide FillHead, Done, Ready, MakersHold;
    if Done(st, o) {
      assert MakersHold(st, st, o, u, m) by { HoldsAtOnce(st, o, u, m); }
    } else {
      FillHeadReady(st, o);
      FillHeadProgresses(st, o);
      FillMovesHolding(st, o, u, m);
      MatchMovesHolding(FillHead(st, o), o, u, m);
      HoldsThen(st, FillHead(st, o), MatchFrom(FillHead(st, o), o), o, u, m);
    }
  }

  lemma HoldsAtOnce(st: Progress, o: Order, u: Uuid, m: Uuid)
    ensures MakersHold(st, st, o, u, m)
  {
  }

  lemma ExecuteMovesHolding(s: Store, o: Order, reducing: bool, now: int, u: Uuid, m: Uuid)
    requires WfStore(s) && o.marketId in s.books && o.userId in s.users && LegalRow(o)
    ensures var p := Execute(s, o, reducing, now);
      Holding(p.store.users, u, m) == Holding(s.users, u, m) + if m == o.marketId then Traded(p.fills, u, o.positionType) else 0.0
  {
    hide MatchFrom, CreatePosition, Exposure, BookAfter, BookingsAfter, AveragePrice, StatusAfter, Ready, Traded;
    StartIsReady(s, o, reducing);
    MatchedIsReady(s, o, reducing);
    MatchedQuantities(s, o, reducing);
    var start, st := Start(s.books[o.marketId], LockFor(s.users, o, reducing), o), Matched(s, o, reducing);
    MatchMovesHolding(start, o, u, m);
    NothingTraded(u, o.positionType);
    if st.filled > 0.0 {
      ReadyIsWf(st, o);
      NettingAddsSignedQuantity(st.users[o.userId], TakerTrade(st, o), st.last, m);
    }
  }

  lemma NothingTraded(u: Uuid, side: PositionType)
    ensures Traded([], u, side) == 0.0
  {
  }

  lemma ReadyIsWf(st: Progress, o: Order)
    requires Ready(st, o) && o.userId in st.users
    ensures WfPositions(st.users[o.userId].positions)
  {
  }

  // ----- what all accounts were told

  /** Everyone holds what the fills it was told come to. */
  ghost predicate AddsUp(users: map<Uuid, User>, log: seq<Addressed>) {
    forall u, m :: Holding(users, u, m) == ToldOf(log, u, m)
  }

  lemma {:induction false} StatesTellNoFills(us: seq<Uuid>, users: map<Uuid, User>, m: Uuid)
    ensures forall a :: a in AllStateEvents(us, users, m) ==> !a.event.FillSeen?
  {
    if us != [] {
      StatesTellNoFills(us[..|us| - 1], users, m);
      assert forall a :: a in StateEvents(us[|us| - 1], users, m) ==> !a.event.FillSeen?;
    }
  }

  lemma {:induction false} OrdersTellNoFills(ns: seq<NewOrder>)
    ensures forall a :: a in NewOrderEvents(ns) ==> !a.event.FillSeen?
  {
    if ns != [] {
      OrdersTellNoFills(ns[..|ns| - 1]);
    }
  }

  lemma {:induction false} UpdatesTellNoFills(us: seq<OrderUpdate>, m: Uuid)
    ensures forall a :: a in UpdateEvents(us, m) ==> !a.event.FillSeen?
  {
    if us != [] {
      UpdatesTellNoFills(us[..|us| - 1], m);
    }
  }

  lemma MatchEventsTell(users: map<Uuid, User>, n: Uuid, side: PositionType, fs: seq<Fill>, us: seq<OrderUpdate>, ns: seq<NewOrder>, u: Uuid, m: Uuid)
    ensures ToldOf(MatchEvents(users, n, side, fs, us, ns), u, m) == if m == n then Traded(fs, u, side) else 0.0
  {
    hide ToldOf, NewOrderEvents, UpdateEvents, FillEvents, AllStateEvents, Touched, Traded;
    var a, b, c, d := NewOrderEvents(ns), UpdateEvents(us, n), FillEvents(fs, n, side), AllStateEvents(Touched(ns, us, fs), users, n);
    OrdersTellNoFills(ns);
    UpdatesTellNoFills(us, n);
    StatesTellNoFills(Touched(ns, us, fs), users, n);
    NoFillsTold(a, u, m);
    NoFillsTold(b, u, m);
    NoFillsTold(d, u, m);
    FillEventsTell(fs, n, side, u, m);
    ToldConcat(a + b + c, d, u, m);
    ToldConcat(a + b, c, u, m);
    ToldConcat(a, b, u, m);
  }

  lemma PlaceAddsUp(s: Store, row: Order, now: int, origin: Origin, log: seq<Addressed>)
    requires WfStore(s) && LegalRow(row) && AddsUp(s.users, log)
    ensures var p := Place(s, row, now); p.Placed? ==> AddsUp(p.store.users, log + PlacementEvents(p, origin))
  {
    hide MatchEvents, WfStore, Execute, ToldOf, Holding, Traded;
    var p := Place(s, row, now);
    if p.Placed? {
      AdmittedKeepsIdentity(s, row);
      var o, reducing := Admit(s, row).order, Admit(s, row).reducing;
      ExecutesItsOrder(s, o, reducing, now);
      forall u, m ensures Holding(p.store.users, u, m) == ToldOf(log + PlacementEvents(p, origin), u, m) {
        ExecuteMovesHolding(s, o, reducing, now, u, m);
        ToldConcat(log, PlacementEvents(p, origin), u, m);
        MatchEventsTell(p.store.users, o.marketId, o.positionType, p.fills, p.updates, [NewOrder(o, p.status, p.filled, origin)], u, m);
      }
    }
  }

  lemma ExecutesItsOrder(s: Store, o: Order, reducing: bool, now: int)
    requires WfStore(s) && o.marketId in s.books && o.userId in s.users && o.qty > 0.0
    ensures Execute(s, o, reducing, now).Placed? && Execute(s, o, reducing, now).order == o
  {
  }

  lemma {:induction false} SweepAddsUp(s: Store, m: Uuid, price: real, ids: seq<Uuid>, now: int, k: nat, log: seq<Addressed>)
    requires WfStore(s) && k <= |s.userIds| <= |ids| && AddsUp(s.users, log)
    ensures var sw := SweepTo(s, m, price, ids, now, k); AddsUp(sw.store.users, log + sw.events)
    decreases k
  {
    hide AddsUp, WfStore, Place, PlacementEvents;
    if k == 0 {
      assert log + [] == log;
    } else {
      SweepAddsUp(s, m, price, ids, now, k - 1, log);
      var sw := SweepTo(s, m, price, ids, now, k - 1);
      var row := ForcedClose(sw.store, s.userIds[k - 1], m, price, ids[k - 1]);
      if row.Some? {
        ForcedCloseIsLegal(sw.store, s.userIds[k - 1], m, price, ids[k - 1]);
        PlaceAddsUp(sw.store, row.value, now, ByLiquidation, log + sw.events);
        var p := Place(sw.store, row.value, now);
        if p.Placed? {
          assert log + sw.events + PlacementEvents(p, ByLiquidation) == log + (sw.events + PlacementEvents(p, ByLiquidation));
        }
      }
    }
  }

  lemma QuietAddsUp(users: map<Uuid, User>, after: map<Uuid, User>, log: seq<Addressed>, more: seq<Addressed>)
    requires AddsUp(users, log) && forall a :: a in more ==> !a.event.FillSeen?
    requires forall u, m :: Holding(after, u, m) == Holding(users, u, m)
    ensures AddsUp(after, log + more)
  {
    hide ToldOf, Holding;
    forall u, m ensures Holding(after, u, m) == ToldOf(log + more, u, m) {
      ToldConcat(log, more, u, m);
      NoFillsTold(more, u, m);
    }
  }

  lemma CancelAddsUp(s: Store, row: Order, log: seq<Addressed>)
    requires AddsUp(s.users, log)
    ensures var out := CancelledOutcome(s, row); AddsUp(out.store.users, log + ToldBy(out.reply))
  {
    hide ToldOf, AddsUp, MatchEvents, Publish, Exposure;
    assert log + [] == log;
    if CancelIndex(s, row) >= 0 {
      var t, us := AfterCancel(s, row), [OrderUpdate(row.id, row.userId, Cancelled, CancelledAt(s, row).filledQty)];
      CancelEvents(t.users, row, us);
      QuietAddsUp(s.users, t.users, log, MatchEvents(t.users, row.marketId, row.positionType, [], us, []));
    }
  }

  lemma CancelEvents(users: map<Uuid, User>, row: Order, us: seq<OrderUpdate>)
    ensures forall a :: a in MatchEvents(users, row.marketId, row.positionType, [], us, []) ==> !a.event.FillSeen?
  {
    UpdatesTellNoFills(us, row.marketId);
    StatesTellNoFills(Touched([], us, []), users, row.marketId);
  }

  lemma FundingAddsUp(s: Store, log: seq<Addressed>)
    requires WfStore(s) && AddsUp(s.users, log)
    ensures AddsUp(Funded(s).users, log + [])
  {
    hide ToldOf, Exposure, Funded, Fundable, FundPositions;
    forall u, m ensures Holding(Funded(s).users, u, m) == Holding(s.users, u, m) {
      if u in s.users {
        FundedPositions(s, u);
        FundingKeepsExposure(s.users[u].positions, s.books, m);
      } else {
        FundedAccounts(s);
      }
    }
    QuietAddsUp(s.users, Funded(s).users, log, []);
  }

  lemma FundedAccounts(s: Store)
    requires WfStore(s)
    ensures Funded(s).users.Keys == s.users.Keys
  {
  }

  lemma NewUserHoldsNothing(s: Store, u: Uuid, log: seq<Addressed>)
    requires WfStore(s) && AddsUp(s.users, log)
    ensures WfStore(WithUser(s, u)) && AddsUp(WithUser(s, u).users, log)
  {
    hide ToldOf;
    WithUserKeepsWf(s, u);
    forall v, m ensures Holding(WithUser(s, u).users, v, m) == Holding(s.users, v, m) {
    }
    assert log + [] == log;
    QuietAddsUp(s.users, WithUser(s, u).users, log, []);
  }

  lemma DepositAddsUp(s: Store, u: Uuid, amount: real, log: seq<Addressed>)
    requires WfStore(s) && AddsUp(s.users, log)
    ensures var t := Deposited(s, u, amount);
      AddsUp(t.users, log + [Addressed(u, BalanceNow(t.users[u].available, t.users[u].locked))])
  {
    hide ToldOf;
    var t := Deposited(s, u, amount);
    NewUserHoldsNothing(s, u, log);
    forall v, m ensures Holding(t.users, v, m) == Holding(WithUser(s, u).users, v, m) {
    }
    QuietAddsUp(WithUser(s, u).users, t.users, log, [Addressed(u, BalanceNow(t.users[u].available, t.users[u].locked))]);
  }

  lemma CreateAddsUp(s: Store, row: Order, now: int, log: seq<Addressed>)
    requires WfStore(s) && LegalRow(row) && AddsUp(s.users, log)
    ensures WfStore(WithUser(s, row.userId))
    ensures var out := Created(WithUser(s, row.userId), row, now); AddsUp(out.store.users, log + ToldBy(out.reply))
  {
    hide AddsUp, WfStore, Place, PlacementEvents, Publish;
    NewUserHoldsNothing(s, row.userId, log);
    PlaceAddsUp(WithUser(s, row.userId), row, now, ByUser, log);
    assert log + [] == log;
  }

  lemma TickAddsUp(s: Store, a: Asset, price: real, ids: seq<Uuid>, now: int, log: seq<Addressed>)
    requires WfStore(s) && price != 0.0 && |s.userIds| <= |ids| && AddsUp(s.users, log)
    ensures var out := SweptOutcome(s, a, price, ids, now); AddsUp(out.store.users, log + ToldBy(out.reply))
  {
    hide AddsUp, SweepOne, Publish;
    WithIndexPriceKeepsWf(s, MarketOf(a), price);
    SweepAddsUp(WithIndexPrice(s, MarketOf(a), price), MarketOf(a), price, ids, now, |s.userIds|, log);
  }

  /** Every request moves holdings by the fills it tells, and tells no other. */
  lemma StepAddsUp(s: Store, req: Request, log: seq<Addressed>)
    requires WfStore(s) && LegalRequest(s, req) && AddsUp(s.users, log)
    ensures var out := Step(s, req); AddsUp(out.store.users, log + ToldBy(out.reply))
  {
    hide AddsUp, WfStore, Created, CancelledOutcome, SweptOutcome, Funded, WithUser, Deposited, DepthOf, InMarket;
    assert log + [] == log;
    match req
    case InitBalance(u) => NewUserHoldsNothing(s, u, log);
    case Onramp(u, amount) => DepositAddsUp(s, u, amount, log);
    case CreateOrder(row, now) => CreateAddsUp(s, row, now, log);
    case CancelOrder(row) => CancelAddsUp(s, row, log);
    case GetBalances(u) => NewUserHoldsNothing(s, u, log);
    case SpotPriceUpdate(prices, ids, now) =>
      if TickedAsset(prices).Some? {
        TickAddsUp(s, TickedAsset(prices).value, prices[TickedAsset(prices).value], ids, now, log);
      }
    case FundingRateDispersal => FundingAddsUp(s, log);
    case _ =>
  }

  // ----- runs

  lemma {:induction false} RunAddsUp(s: Store, reqs: seq<Request>, log: seq<Addressed>)
    requires WfStore(s) && LegalRun(s, reqs) && AddsUp(s.users, log)
    ensures AddsUp(Run(s, reqs).users, log + RunLog(s, reqs))
    decreases |reqs|
  {
    hide AddsUp, WfStore, Step, LegalRequest;
    if reqs == [] {
      assert log + [] == log;
    } else {
      StepKeepsWf(s, reqs[0]);
      StepAddsUp(s, reqs[0], log);
      var out := Step(s, reqs[0]);
      RunAddsUp(out.store, reqs[1..], log + ToldBy(out.reply));
      assert log + ToldBy(out.reply) + RunLog(out.store, reqs[1..]) == log + (ToldBy(out.reply) + RunLog(out.store, reqs[1..]));
    }
  }

  /**
   * The fills an account is told are its position. After any history, what it was told it bought in a
   * market less what it was told it sold there, as taker and as maker, in trades of its own and in forced
   * closes, is what it holds: positive when long, negative when short.
   */
  lemma FillsAreThePosition(reqs: seq<Request>, u: Uuid, m: Uuid)
    requires LegalHistory(reqs) && u in Reached(reqs).users
    ensures Bought(ToldTo(reqs, u), m) == Exposure(Reached(reqs).users[u].positions, m)
  {
    hide Run, LegalRun, RunLog;
    InitialStoreIsWf();
    NothingToldAddsUp();
    RunAddsUp(InitialStore(), reqs, []);
    assert [] + RunLog(InitialStore(), reqs) == RunLog(InitialStore(), reqs);
    assert Holding(Reached(reqs).users, u, m) == ToldOf(RunLog(InitialStore(), reqs), u, m);
  }

  lemma NothingToldAddsUp()
    ensures AddsUp(InitialStore().users, [])
  {
  }

  // ----- what one placement tells of its fills

  /** The event tells the account its side of one of the fills, the taker's on `side`. */
  ghost predicate TellsAFill(e: UserEvent, u: Uuid, fs: seq<Fill>, m: Uuid, side: PositionType) {
    exists f :: f in fs &&
      (|| (u == f.takerId && e == FillSeen(f.takerOrderId, m, side, Taker, f.price, f.qty))
       || (u == f.makerId && e == FillSeen(f.makerOrderId, m, if side == LONG then SHORT else LONG, Maker, f.price, f.qty)))
  }

  lemma {:induction false} FillEventsAre(fs: seq<Fill>, m: Uuid, side: PositionType, a: Addressed)
    ensures a in FillEvents(fs, m, side) <==> TellsAFill(a.event, a.userId, fs, m, side)
  {
    if fs != [] {
      var n := |fs| - 1;
      FillEventsAre(fs[..n], m, side, a);
      assert fs == fs[..n] + [fs[n]];
      assert a in FillEvents(fs, m, side) <==> a in FillEvents(fs[..n], m, side) || a in FillPair(fs[n], m, side);
      if TellsAFill(a.event, a.userId, fs[..n], m, side) {
        assert forall f :: f in fs[..n] ==> f in fs;
      }
    }
  }

  lemma {:induction false} EventsForIff(log: seq<Addressed>, u: Uuid, e: UserEvent)
    ensures e in EventsFor(log, u) <==> Addressed(u, e) in log
  {
    if log != [] {
      var n := |log| - 1;
      EventsForIff(log[..n], u, e);
      assert log == log[..n] + [log[n]];
    }
  }

  /**
   * Of its fills an order that is placed tells each account, as fills, its own side of each one it took
   * part in and nothing else: the taker that it took on the order's side, the maker that it made on the
   * other, both at the price and for the quantity of the fill.
   */
  lemma PlacementTellsItsFills(s: Store, row: Order, now: int, origin: Origin, u: Uuid, e: UserEvent)
    requires WfStore(s) && LegalRow(row) && Place(s, row, now).Placed? && e.FillSeen?
    ensures var p := Place(s, row, now);
      e in EventsFor(PlacementEvents(p, origin), u) <==> TellsAFill(e, u, p.fills, row.marketId, row.positionType)
  {
    hide Execute, WfStore, NewOrderEvents, UpdateEvents, FillEvents, AllStateEvents, Touched, TellsAFill;
    AdmittedKeepsIdentity(s, row);
    var o, p := Admit(s, row).order, Place(s, row, now);
    ExecutesItsOrder(s, o, Admit(s, row).reducing, now);
    var ns := [NewOrder(p.order, p.status, p.filled, origin)];
    var touched := Touched(ns, p.updates, p.fills);
    OrdersTellNoFills(ns);
    UpdatesTellNoFills(p.updates, o.marketId);
    StatesTellNoFills(touched, p.store.users, o.marketId);
    FillEventsAre(p.fills, o.marketId, o.positionType, Addressed(u, e));
    EventsForIff(PlacementEvents(p, origin), u, e);
  }
}
