/** The client's positions table and balance are the account. */
module PositionSync {
  import opened Exchange
  import opened Sequences
  import opened Books
  import opened Positions
  import opened Matching
  import opened Engine
  import opened EngineSteps
  import opened UserFeed
  import opened ClientSync

  // ----- what an account was told

  datatype Purse = Purse(available: real, locked: real)

  /** The balance an account was told last. */
  function BalanceAfter(es: seq<UserEvent>): Option<Purse> {
    if es == [] then None
    else
      var e := es[|es| - 1];
      if e.BalanceNow? then Some(Purse(e.available, e.locked)) else BalanceAfter(es[..|es| - 1])
  }

  /** What was told of a position is what is held: side, size and entry price, and if `exact` all of it. */
  predicate Like(told: Option<Position>, held: Option<Position>, exact: bool) {
    if held == None then told == None
    else
      && told.Some?
      && told.value.marketId == held.value.marketId && told.value.kind == held.value.kind
      && told.value.qty == held.value.qty && told.value.averagePrice == held.value.averagePrice
      && (exact ==> told == held)
  }

  /** The balance told last is the collateral; of an account that never had any nothing need be told. */
  predicate ShowsPurse(told: Option<Purse>, u: User) {
    told == Some(Purse(u.available, u.locked)) || (told == None && u.available == 0.0 && u.locked == 0.0)
  }

  ghost predicate AccountTold(users: map<Uuid, User>, es: seq<UserEvent>, u: Uuid, exact: bool) {
    if u in users then
      && (forall m :: Like(EntryAfter(None, es, m), Entry(users[u].positions, m), exact))
      && ShowsPurse(BalanceAfter(es), users[u])
    else (forall m :: EntryAfter(None, es, m) == None) && BalanceAfter(es) == None
  }

  ghost predicate AllTold(users: map<Uuid, User>, log: seq<Addressed>, exact: bool) {
    && (forall u :: AccountTold(users, EventsFor(log, u), u, exact))
    && (forall a :: a in log ==> NamesItsMarket(a.event))
  }

  /** Positions and balance of an account have been said again. */
  ghost predicate SameTold(es: seq<UserEvent>, after: seq<UserEvent>) {
    (forall m :: EntryAfter(None, after, m) == EntryAfter(None, es, m)) && BalanceAfter(after) == BalanceAfter(es)
  }

  predicate SaysNothing(e: UserEvent) {
    !e.PositionNow? && !e.BalanceNow?
  }

  lemma ToldOneMore(es: seq<UserEvent>, e: UserEvent, m: Uuid)
    ensures EntryAfter(None, es + [e], m) == ReduceEntry(EntryAfter(None, es, m), e, m)
    ensures BalanceAfter(es + [e]) == if e.BalanceNow? then Some(Purse(e.available, e.locked)) else BalanceAfter(es)
  {
    assert (es + [e])[..|es|] == es;
  }

  lemma {:induction false} NothingSaid(log: seq<Addressed>, more: seq<Addressed>, u: Uuid)
    requires forall a :: a in more ==> SaysNothing(a.event)
    ensures SameTold(EventsFor(log, u), EventsFor(log + more, u))
  {
    if more == [] {
      assert log + more == log;
    } else {
      var n := |more| - 1;
      NothingSaid(log, more[..n], u);
      assert log + more == log + more[..n] + [more[n]];
      EventsForPush(log + more[..n], more[n], u);
      forall m ensures EntryAfter(None, EventsFor(log + more, u), m) == EntryAfter(None, EventsFor(log, u), m) {
        ToldOneMore(EventsFor(log + more[..n], u), more[n].event, m);
      }
      ToldOneMore(EventsFor(log + more[..n], u), more[n].event, 0);
    }
  }

  /** After the two absolute facts the account has been told its position in the market and its collateral. */
  lemma StateToldOnce(log: seq<Addressed>, v: Uuid, users: map<Uuid, User>, m: Uuid, u: Uuid, n: Uuid)
    requires u in users
    ensures var before, after := EventsFor(log, u), EventsFor(log + StateEvents(v, users, m), u);
      if u == v then
        && EntryAfter(None, after, n) == (if n == m then Entry(users[u].positions, m) else EntryAfter(None, before, n))
        && BalanceAfter(after) == Some(Purse(users[u].available, users[u].locked))
      else after == before
  {
    if v in users {
      var said := StateEvents(v, users, m);
      assert log + said == log + [said[0]] + [said[1]];
      EventsForPush(log, said[0], u);
      EventsForPush(log + [said[0]], said[1], u);
      ToldOneMore(EventsFor(log, u), said[0].event, n);
      ToldOneMore(EventsFor(log + [said[0]], u), said[1].event, n);
    } else {
      assert log + [] == log;
    }
  }

  lemma {:induction false} StateTold(log: seq<Addressed>, us: seq<Uuid>, users: map<Uuid, User>, m: Uuid, u: Uuid, n: Uuid)
    requires u in users
    ensures var before, after := EventsFor(log, u), EventsFor(log + AllStateEvents(us, users, m), u);
      if u in us then
        && EntryAfter(None, after, n) == (if n == m then Entry(users[u].positions, m) else EntryAfter(None, before, n))
        && BalanceAfter(after) == Some(Purse(users[u].available, users[u].locked))
      else after == before
  {
    hide Entry, StateEvents, EntryAfter, BalanceAfter, EventsFor;
    if us == [] {
      assert log + [] == log;
    } else {
      var k := |us| - 1;
      StateTold(log, us[..k], users, m, u, n);
      var so := log + AllStateEvents(us[..k], users, m);
      assert log + AllStateEvents(us, users, m) == so + StateEvents(us[k], users, m);
      StateToldOnce(so, us[k], users, m, u, n);
      assert us == us[..k] + [us[k]];
    }
  }

  lemma StrangerIsToldNothing(log: seq<Addressed>, v: Uuid, users: map<Uuid, User>, m: Uuid, u: Uuid)
    requires u !in users
    ensures EventsFor(log + StateEvents(v, users, m), u) == EventsFor(log, u)
  {
    if v in users {
      var said := StateEvents(v, users, m);
      assert log + said == log + [said[0]] + [said[1]];
      EventsForPush(log, said[0], u);
      EventsForPush(log + [said[0]], said[1], u);
    } else {
      assert log + [] == log;
    }
  }

  lemma {:induction false} StrangersAreToldNothing(log: seq<Addressed>, us: seq<Uuid>, users: map<Uuid, User>, m: Uuid, u: Uuid)
    requires u !in users
    ensures EventsFor(log + AllStateEvents(us, users, m), u) == EventsFor(log, u)
  {
    hide StateEvents, EventsFor;
    if us == [] {
      assert log + [] == log;
    } else {
      var k := |us| - 1;
      StrangersAreToldNothing(log, us[..k], users, m, u);
      var so := log + AllStateEvents(us[..k], users, m);
      assert log + AllStateEvents(us, users, m) == so + StateEvents(us[k], users, m);
      StrangerIsToldNothing(so, us[k], users, m, u);
    }
  }

  lemma {:induction false} StateNamesMarkets(us: seq<Uuid>, users: map<Uuid, User>, m: Uuid)
    ensures forall a :: a in AllStateEvents(us, users, m) ==> NamesItsMarket(a.event)
  {
    if us != [] {
      StateNamesMarkets(us[..|us| - 1], users, m);
    }
  }

  // ----- who is told

  lemma {:induction false} UpdatesTouch(seen: seq<Uuid>, us: seq<OrderUpdate>, u: Uuid)
    requires u in seen
    ensures u in TouchedByUpdates(seen, us)
  {
    if us != [] {
      UpdatesTouch(seen, us[..|us| - 1], u);
    }
  }

  ghost predicate Made(fs: seq<Fill>, u: Uuid) {
    exists k :: 0 <= k < |fs| && fs[k].makerId == u
  }

  lemma MadeByTheLast(fs: seq<Fill>, u: Uuid)
    requires Made(fs, u)
    ensures Made(fs[..|fs| - 1], u) || fs[|fs| - 1].makerId == u
  {
    var k :| 0 <= k < |fs| && fs[k].makerId == u;
    if k < |fs| - 1 {
      assert fs[..|fs| - 1][k] == fs[k];
    }
  }

  lemma {:induction false} FillsTouch(seen: seq<Uuid>, fs: seq<Fill>, u: Uuid)
    requires u in seen || Made(fs, u)
    ensures u in TouchedByFills(seen, fs)
  {
    if fs != [] {
      var n := |fs| - 1;
      if Made(fs, u) {
        MadeByTheLast(fs, u);
      }
      if u in seen || Made(fs[..n], u) {
        FillsTouch(seen, fs[..n], u);
      }
    }
  }

  // ----- what a match changes

  lemma EntryAfterDrop(ps: seq<Position>, i: nat, n: Uuid)
    requires WfPositions(ps) && i < |ps| && ps[i].marketId != n
    ensures Entry(RemoveAt(ps, i), n) == Entry(ps, n)
  {
    var qs := RemoveAt(ps, i);
    var k := FindPosition(ps, n);
    if k >= 0 {
      var j := if k < i then k else k - 1;
      assert qs[j] == ps[k];
      DropKeepsWf(ps, i);
      EntryIsUnique(qs, j);
    } else {
      forall j | 0 <= j < |qs| ensures qs[j].marketId != n {
        assert qs[j] == ps[if j < i then j else j + 1];
      }
    }
  }

  /** A trade leaves the positions of every other market as they are. */
  lemma TradeStaysInItsMarket(u: User, t: Trade, last: real, n: Uuid)
    requires WfPositions(u.positions) && t.qty > 0.0 && n != t.marketId
    ensures Entry(CreatePosition(u, t, last).positions, n) == Entry(u.positions, n)
  {
    hide LiquidationPrice, WeightedAverage, RelativeMargin, Entry;
    var i := FindPosition(u.positions, t.marketId);
    if i < 0 {
      PositionUpsert(u.positions, Opened(t), n);
    } else if u.positions[i].kind == t.kind {
      PositionUpsert(u.positions, Added(u.positions[i], t), n);
    } else if u.positions[i].qty == t.qty {
      EntryAfterDrop(u.positions, i, n);
    } else {
      PositionUpsert(u.positions, Reduced(u.positions[i], t), n);
    }
  }

  /** From `users` to `after` only makers of `fs` changed, and those only in market `m`. */
  ghost predicate OnlyMakersChanged(users: map<Uuid, User>, after: map<Uuid, User>, fs: seq<Fill>, m: Uuid) {
    && after.Keys == users.Keys
    && (forall u :: u in users && !Made(fs, u) ==> after[u] == users[u])
    && (forall u, n :: u in users && n != m ==> Entry(after[u].positions, n) == Entry(users[u].positions, n))
  }

  lemma FillChangesItsMaker(st: Progress, o: Order)
    requires Ready(st, o) && !Done(st, o)
    ensures OnlyMakersChanged(st.users, FillHead(st, o).users, FillHead(st, o).fills, o.marketId)
    ensures st.fills <= FillHead(st, o).fills
  {
    hide LevelsAfter, CreatePosition, Entry;
    FillHeadTrades(st, o);
    FillHeadReady(st, o);
    var p, r, next := HeadPrice(st, o), Head(st, o), FillHead(st, o);
    assert next.fills[|st.fills|].makerId == r.userId;
    forall n | n != o.marketId ensures Entry(next.users[r.userId].positions, n) == Entry(st.users[r.userId].positions, n) {
      TradeStaysInItsMarket(st.users[r.userId], MakerTrade(r, Min(Unfilled(r), st.remaining), p), p, n);
    }
  }

  lemma MakersAddUp(a: map<Uuid, User>, b: map<Uuid, User>, c: map<Uuid, User>, fs: seq<Fill>, gs: seq<Fill>, m: Uuid)
    requires OnlyMakersChanged(a, b, fs, m) && OnlyMakersChanged(b, c, gs, m) && fs <= gs
    ensures OnlyMakersChanged(a, c, gs, m)
  {
    hide Entry;
    forall u | Made(fs, u) ensures Made(gs, u) {
      var k :| 0 <= k < |fs| && fs[k].makerId == u;
      assert gs[k] == fs[k];
    }
  }

  lemma {:induction false} MatchChangesItsMakers(st: Progress, o: Order)
    requires Ready(st, o)
    ensures OnlyMakersChanged(st.users, MatchFrom(st, o).users, MatchFrom(st, o).fills, o.marketId)
    ensures st.fills <= MatchFrom(st, o).fills
    decreases Measure(st, o)
  {
    hide FillHead, Entry;
    if !Done(st, o) {
      FillHeadReady(st, o);
      FillHeadProgresses(st, o);
      FillChangesItsMaker(st, o);
      var next := FillHead(st, o);
      MatchChangesItsMakers(next, o);
      MakersAddUp(st.users, next.users, MatchFrom(next, o).users, next.fills, MatchFrom(next, o).fills, o.marketId);
    }
  }

  /** Executing an order changes its account and its makers, and no position outside its market. */
  ghost predicate OnlyTouchedChanged(users: map<Uuid, User>, after: map<Uuid, User>, touched: seq<Uuid>, m: Uuid) {
    && after.Keys == users.Keys
    && (forall u :: u in users && u !in touched ==> after[u] == users[u])
    && (forall u, n :: u in users && n != m ==> Entry(after[u].positions, n) == Entry(users[u].positions, n))
  }

  lemma ExecuteChangesTheTouched(s: Store, o: Order, reducing: bool, now: int, origin: Origin)
    requires WfStore(s) && o.marketId in s.books && o.userId in s.users && o.qty > 0.0
    ensures var p := Execute(s, o, reducing, now);
      OnlyTouchedChanged(s.users, p.store.users, Touched([NewOrder(o, p.status, p.filled, origin)], p.updates, p.fills), o.marketId)
  {
    hide MatchFrom, CreatePosition, BookAfter, BookingsAfter, AveragePrice, StatusAfter, Entry, WfStore, TouchedByFills, TouchedByUpdates, Ready;
    StartIsReady(s, o, reducing);
    MatchedIsReady(s, o, reducing);
    var start, st := Start(s.books[o.marketId], LockFor(s.users, o, reducing), o), Matched(s, o, reducing);
    MatchChangesItsMakers(start, o);
    var p := Execute(s, o, reducing, now);
    var ns := [NewOrder(o, p.status, p.filled, origin)];
    var seen := TouchedByUpdates(TouchedByNew([], ns), p.updates);
    assert ns[..0] == [] && TouchedByNew([], ns) == [o.userId];
    UpdatesTouch([o.userId], p.updates, o.userId);
    forall u | u == o.userId || Made(p.fills, u) ensures u in TouchedByFills(seen, p.fills) {
      FillsTouch(seen, p.fills, u);
    }
    ReadyUser(st, o);
    forall n | n != o.marketId ensures Entry(p.store.users[o.userId].positions, n) == Entry(st.users[o.userId].positions, n) {
      if st.filled > 0.0 {
        TradeStaysInItsMarket(st.users[o.userId], TakerTrade(st, o), st.last, n);
      }
    }
  }

  lemma ReadyUser(st: Progress, o: Order)
    requires Ready(st, o) && o.userId in st.users
    ensures WfPositions(st.users[o.userId].positions)
  {
  }

  // ----- one change of the accounts, told

  /** Accounts changed and exactly the touched ones were told: what all accounts were told is true again. */
  lemma TellingTheTouched(users: map<Uuid, User>, after: map<Uuid, User>, touched: seq<Uuid>, m: Uuid,
                          log: seq<Addressed>, quiet: seq<Addressed>, exact: bool)
    requires AllTold(users, log, exact) && OnlyTouchedChanged(users, after, touched, m)
    requires forall a :: a in quiet ==> SaysNothing(a.event)
    ensures AllTold(after, log + quiet + AllStateEvents(touched, after, m), exact)
  {
    hide Entry, AllStateEvents, EntryAfter, BalanceAfter, EventsFor;
    var so := log + quiet;
    var told := so + AllStateEvents(touched, after, m);
    forall u ensures AccountTold(after, EventsFor(told, u), u, exact) {
      assert AccountTold(users, EventsFor(log, u), u, exact);
      NothingSaid(log, quiet, u);
      if u in after {
        forall n ensures Like(EntryAfter(None, EventsFor(told, u), n), Entry(after[u].positions, n), exact) {
          StateTold(so, touched, after, m, u, n);
          if u !in touched || n != m {
            assert Like(EntryAfter(None, EventsFor(log, u), n), Entry(users[u].positions, n), exact);
          } else {
            EntryNames(after[u].positions, m);
          }
        }
        StateTold(so, touched, after, m, u, m);
      } else {
        StrangersAreToldNothing(so, touched, after, m, u);
      }
    }
    StateNamesMarkets(touched, after, m);
    forall a | a in told ensures NamesItsMarket(a.event) {
      assert a in log || a in quiet || a in AllStateEvents(touched, after, m);
    }
  }

  lemma EntryNames(ps: seq<Position>, m: Uuid)
    ensures Like(Entry(ps, m), Entry(ps, m), true)
  {
  }

  lemma {:induction false} UpdatesSayNothing(us: seq<OrderUpdate>, m: Uuid)
    ensures forall a :: a in UpdateEvents(us, m) ==> SaysNothing(a.event)
  {
    if us != [] {
      UpdatesSayNothing(us[..|us| - 1], m);
    }
  }

  lemma {:induction false} FillsSayNothing(fs: seq<Fill>, m: Uuid, side: PositionType)
    ensures forall a :: a in FillEvents(fs, m, side) ==> SaysNothing(a.event)
  {
    if fs != [] {
      FillsSayNothing(fs[..|fs| - 1], m, side);
      assert forall a :: a in FillPair(fs[|fs| - 1], m, side) ==> SaysNothing(a.event);
    }
  }

  lemma {:induction false} OrdersSayNothing(ns: seq<NewOrder>)
    ensures forall a :: a in NewOrderEvents(ns) ==> SaysNothing(a.event)
  {
    if ns != [] {
      OrdersSayNothing(ns[..|ns| - 1]);
    }
  }

  lemma MatchTells(users: map<Uuid, User>, after: map<Uuid, User>, m: Uuid, side: PositionType, fs: seq<Fill>, us: seq<OrderUpdate>,
                   ns: seq<NewOrder>, log: seq<Addressed>, exact: bool)
    requires AllTold(users, log, exact) && OnlyTouchedChanged(users, after, Touched(ns, us, fs), m)
    ensures AllTold(after, log + MatchEvents(after, m, side, fs, us, ns), exact)
  {
    hide AllTold, OnlyTouchedChanged, AllStateEvents, NewOrderEvents, UpdateEvents, FillEvents, Touched;
    var quiet := NewOrderEvents(ns) + UpdateEvents(us, m) + FillEvents(fs, m, side);
    OrdersSayNothing(ns);
    UpdatesSayNothing(us, m);
    FillsSayNothing(fs, m, side);
    TellingTheTouched(users, after, Touched(ns, us, fs), m, log, quiet, exact);
    assert log + MatchEvents(after, m, side, fs, us, ns) == log + quiet + AllStateEvents(Touched(ns, us, fs), after, m);
  }

  lemma PlaceTells(s: Store, row: Order, now: int, origin: Origin, log: seq<Addressed>, exact: bool)
    requires WfStore(s) && row.qty > 0.0 && AllTold(s.users, log, exact)
    ensures var p := Place(s, row, now);
      p.Placed? ==> AllTold(p.store.users, log + PlacementEvents(p, origin), exact)
  {
    hide AllTold, OnlyTouchedChanged, MatchEvents, Touched, WfStore, Matched, UsersAfter, BookAfter;
    if Admit(s, row).Admitted? {
      AdmittedKeepsIdentity(s, row);
      var o, reducing := Admit(s, row).order, Admit(s, row).reducing;
      ExecuteChangesTheTouched(s, o, reducing, now, origin);
      var p := Execute(s, o, reducing, now);
      MatchTells(s.users, p.store.users, o.marketId, o.positionType, p.fills, p.updates, [NewOrder(o, p.status, p.filled, origin)], log, exact);
    }
  }

  lemma {:induction false} SweepTells(s: Store, m: Uuid, price: real, ids: seq<Uuid>, now: int, k: nat, log: seq<Addressed>, exact: bool)
    requires WfStore(s) && k <= |s.userIds| <= |ids| && AllTold(s.users, log, exact)
    ensures var sw := SweepTo(s, m, price, ids, now, k); AllTold(sw.store.users, log + sw.events, exact)
    decreases k
  {
    hide AllTold, WfStore, Place, PlacementEvents;
    if k == 0 {
      assert log + [] == log;
    } else {
      SweepTells(s, m, price, ids, now, k - 1, log, exact);
      var sw := SweepTo(s, m, price, ids, now, k - 1);
      var row := ForcedClose(sw.store, s.userIds[k - 1], m, price, ids[k - 1]);
      if row.Some? {
        ForcedCloseIsLegal(sw.store, s.userIds[k - 1], m, price, ids[k - 1]);
        PlaceTells(sw.store, row.value, now, ByLiquidation, log + sw.events, exact);
        var p := Place(sw.store, row.value, now);
        if p.Placed? {
          assert log + sw.events + PlacementEvents(p, ByLiquidation) == log + (sw.events + PlacementEvents(p, ByLiquidation));
        }
      }
    }
  }

  // ----- one request

  lemma WithUserTells(s: Store, u: Uuid, log: seq<Addressed>, exact: bool)
    requires WfStore(s) && AllTold(s.users, log, exact)
    ensures WfStore(WithUser(s, u)) && AllTold(WithUser(s, u).users, log, exact)
  {
    hide EntryAfter, BalanceAfter, EventsFor;
    WithUserKeepsWf(s, u);
    var after := WithUser(s, u).users;
    forall v ensures AccountTold(after, EventsFor(log, v), v, exact) {
      assert AccountTold(s.users, EventsFor(log, v), v, exact);
    }
  }

  lemma DepositTells(s: Store, u: Uuid, amount: real, log: seq<Addressed>, exact: bool)
    requires WfStore(s) && AllTold(s.users, log, exact)
    ensures var t := Deposited(s, u, amount);
      AllTold(t.users, log + [Addressed(u, BalanceNow(t.users[u].available, t.users[u].locked))], exact)
  {
    hide EventsFor, EntryAfter, BalanceAfter;
    WithUserTells(s, u, log, exact);
    var w, t := WithUser(s, u), Deposited(s, u, amount);
    var said := Addressed(u, BalanceNow(t.users[u].available, t.users[u].locked));
    forall v ensures AccountTold(t.users, EventsFor(log + [said], v), v, exact) {
      assert AccountTold(w.users, EventsFor(log, v), v, exact);
      EventsForPush(log, said, v);
      forall m ensures v == u ==> EntryAfter(None, EventsFor(log, v) + [said.event], m) == EntryAfter(None, EventsFor(log, v), m) {
        ToldOneMore(EventsFor(log, v), said.event, m);
      }
      ToldOneMore(EventsFor(log, v), said.event, 0);
    }
  }

  lemma OneUpdateTouches(us: seq<OrderUpdate>)
    requires |us| == 1
    ensures Touched([], us, []) == [us[0].userId]
  {
    assert us[..0] == [];
    assert TouchedByUpdates([], []) == [] && TouchedByUpdates([], us) == Touch([], us[0].userId);
    assert TouchedByNew([], []) == [];
  }

  lemma CancelTells(s: Store, row: Order, log: seq<Addressed>, exact: bool)
    requires WfStore(s) && AllTold(s.users, log, exact)
    ensures var out := CancelledOutcome(s, row); AllTold(out.store.users, log + ToldBy(out.reply), exact)
  {
    hide AllTold, MatchEvents, Publish, Entry;
    if CancelIndex(s, row) < 0 {
      assert log + [] == log;
    } else {
      var t, us := AfterCancel(s, row), [OrderUpdate(row.id, row.userId, Cancelled, CancelledAt(s, row).filledQty)];
      OneUpdateTouches(us);
      MatchTells(s.users, t.users, row.marketId, row.positionType, [], us, [], log, exact);
    }
  }

  lemma CreateTells(s: Store, row: Order, now: int, log: seq<Addressed>, exact: bool)
    requires WfStore(s) && LegalRow(row) && AllTold(s.users, log, exact)
    ensures WfStore(WithUser(s, row.userId))
    ensures var out := Created(WithUser(s, row.userId), row, now); AllTold(out.store.users, log + ToldBy(out.reply), exact)
  {
    hide AllTold, WfStore, Place, PlacementEvents, Publish;
    WithUserTells(s, row.userId, log, exact);
    PlaceTells(WithUser(s, row.userId), row, now, ByUser, log, exact);
    assert log + [] == log;
  }

  lemma TickTells(s: Store, a: Asset, price: real, ids: seq<Uuid>, now: int, log: seq<Addressed>, exact: bool)
    requires WfStore(s) && price != 0.0 && |s.userIds| <= |ids| && AllTold(s.users, log, exact)
    ensures var out := SweptOutcome(s, a, price, ids, now); AllTold(out.store.users, log + ToldBy(out.reply), exact)
  {
    hide AllTold, SweepOne, Publish;
    WithIndexPriceKeepsWf(s, MarketOf(a), price);
    SweepTells(WithIndexPrice(s, MarketOf(a), price), MarketOf(a), price, ids, now, |s.userIds|, log, exact);
  }

  /** Funding tells nobody: from then on margins and liquidation prices may differ from what was told. */
  lemma FundingTells(s: Store, log: seq<Addressed>, exact: bool)
    requires WfStore(s) && AllTold(s.users, log, exact)
    ensures AllTold(Funded(s).users, log, false)
  {
    hide EntryAfter, BalanceAfter, EventsFor, FundPosition, Entry;
    WfStoreIsFundable(s);
    forall u ensures AccountTold(Funded(s).users, EventsFor(log, u), u, false) {
      assert AccountTold(s.users, EventsFor(log, u), u, exact);
      if u in s.users {
        forall m ensures Like(EntryAfter(None, EventsFor(log, u), m), Entry(Funded(s).users[u].positions, m), false) {
          assert Like(EntryAfter(None, EventsFor(log, u), m), Entry(s.users[u].positions, m), exact);
          FundedEntry(s.users[u].positions, s.books, m);
        }
      }
    }
  }

  lemma FundedEntry(ps: seq<Position>, books: map<Uuid, Book>, m: Uuid)
    requires Fundable(ps, books)
    ensures Like(Entry(ps, m), Entry(FundPositions(ps, books), m), false)
  {
    hide LiquidationPrice;
    var qs := FundPositions(ps, books);
    forall i | 0 <= i < |ps| ensures Like(Some(ps[i]), Some(qs[i]), false) {
      assert qs[i] == FundPosition(ps[i], books);
    }
    var k := FindPosition(ps, m);
    if k >= 0 {
      assert WfPositions(qs);
      EntryIsUnique(qs, k);
    }
  }

  /** Every request keeps what the accounts were told true; only a funding dispersal blurs the margins. */
  lemma StepTells(s: Store, req: Request, log: seq<Addressed>, exact: bool)
    requires WfStore(s) && LegalRequest(s, req) && AllTold(s.users, log, exact)
    ensures var out := Step(s, req);
      AllTold(out.store.users, log + ToldBy(out.reply), exact && !req.FundingRateDispersal?)
  {
    hide AllTold, WfStore, Created, CancelledOutcome, SweptOutcome, Funded, WithUser, Deposited, DepthOf, InMarket;
    assert log + [] == log;
    match req
    case InitBalance(u) => WithUserTells(s, u, log, exact);
    case Onramp(u, amount) => DepositTells(s, u, amount, log, exact);
    case CreateOrder(row, now) => CreateTells(s, row, now, log, exact);
    case CancelOrder(row) => CancelTells(s, row, log, exact);
    case GetBalances(u) => WithUserTells(s, u, log, exact);
    case SpotPriceUpdate(prices, ids, now) =>
      if TickedAsset(prices).Some? {
        TickTells(s, TickedAsset(prices).value, prices[TickedAsset(prices).value], ids, now, log, exact);
      }
    case FundingRateDispersal => FundingTells(s, log, exact);
    case _ =>
  }

  // ----- runs

  predicate NoFunding(reqs: seq<Request>) {
    forall r :: r in reqs ==> !r.FundingRateDispersal?
  }

  lemma {:induction false} RunTells(s: Store, reqs: seq<Request>, log: seq<Addressed>, exact: bool)
    requires WfStore(s) && LegalRun(s, reqs) && AllTold(s.users, log, exact)
    ensures AllTold(Run(s, reqs).users, log + RunLog(s, reqs), exact && NoFunding(reqs))
    decreases |reqs|
  {
    hide AllTold, WfStore, Step, LegalRequest;
    if reqs == [] {
      assert log + [] == log;
    } else {
      StepKeepsWf(s, reqs[0]);
      StepTells(s, reqs[0], log, exact);
      var out := Step(s, reqs[0]);
      RunTells(out.store, reqs[1..], log + ToldBy(out.reply), exact && !reqs[0].FundingRateDispersal?);
      assert log + ToldBy(out.reply) + RunLog(out.store, reqs[1..]) == log + (ToldBy(out.reply) + RunLog(out.store, reqs[1..]));
      assert reqs == [reqs[0]] + reqs[1..];
    }
  }

  lemma HistoryTells(reqs: seq<Request>)
    requires LegalHistory(reqs)
    ensures WfStore(InitialStore()) && LegalRun(InitialStore(), reqs)
    ensures AllTold(Reached(reqs).users, RunLog(InitialStore(), reqs), NoFunding(reqs))
  {
    hide Run, LegalRun, RunLog;
    InitialStoreIsWf();
    assert AllTold(InitialStore().users, [], true);
    RunTells(InitialStore(), reqs, [], true);
    assert [] + RunLog(InitialStore(), reqs) == RunLog(InitialStore(), reqs);
  }

  /**
   * The client's positions table and balance are the account. After any history, folding everything an
   * account was told over an empty table gives, market by market, the position the engine holds for it:
   * none where it holds none, and otherwise its side, its quantity and its entry price, with margin and
   * liquidation price too as long as no funding was dispersed; and the balance told last is its free and
   * its locked collateral.
   */
  lemma PositionTableIsTheAccount(reqs: seq<Request>, u: Uuid, m: Uuid)
    requires LegalHistory(reqs) && u in Reached(reqs).users
    ensures var table, account := ReduceAllPositions([], ToldTo(reqs, u)), Reached(reqs).users[u];
      && UniqueEntries(table)
      && Like(Entry(table, m), Entry(account.positions, m), NoFunding(reqs))
      && ShowsPurse(BalanceAfter(ToldTo(reqs, u)), account)
  {
    hide Run, LegalRun, RunLog, Reached, NoFunding, Like, Entry, BalanceAfter, EntryAfter;
    HistoryTells(reqs);
    InitialStoreIsWf();
    var log := RunLog(InitialStore(), reqs);
    assert AccountTold(Reached(reqs).users, EventsFor(log, u), u, NoFunding(reqs));
    ToldToNamesMarkets(log, u);
    NoEntries(m);
    PositionTableWorksMarketByMarket([], ToldTo(reqs, u), m);
  }

  lemma NoEntries(m: Uuid)
    ensures UniqueEntries([]) && Entry([], m) == None
  {
  }
}
