/**
 * Where prices come from: a price level or a print of a market stands at the price some limit order named for it;
 * market orders and forced closes add none.
 */
module EnginePrints {
  import opened Exchange
  import opened Books
  import opened Matching
  import opened Engine
  import opened EngineBooks
  import opened EngineSteps
  import opened EnginePrices

  /** The prices the limit orders of a run name in a market. */
  function Limits(reqs: seq<Request>, m: Uuid): set<real> {
    set r | r in reqs && NamesPrice(r, m) :: r.row.price
  }

  predicate NamesPrice(r: Request, m: Uuid) {
    r.CreateOrder? && r.row.orderType == Limit && r.row.marketId == m
  }

  function LimitOf(r: Request, m: Uuid): set<real> {
    if NamesPrice(r, m) then {r.row.price} else {}
  }

  lemma LimitsUnfold(reqs: seq<Request>, m: Uuid)
    requires reqs != []
    ensures Limits(reqs, m) == LimitOf(reqs[0], m) + Limits(reqs[1..], m)
  {
    assert reqs == [reqs[0]] + reqs[1..];
  }

  /** Every level of the market stands at one of the prices. */
  ghost predicate RestsAtOneOf(s: Store, m: Uuid, prices: set<real>) {
    m in s.books ==> s.books[m].bids.Keys <= prices && s.books[m].asks.Keys <= prices
  }

  lemma {:induction false} FillsAtLevels(st: Progress, o: Order)
    requires Ready(st, o)
    ensures forall f :: f in MatchFrom(st, o).fills ==> f in st.fills || (f.marketId == o.marketId && f.price in st.levels)
    decreases Measure(st, o)
  {
    if !Done(st, o) {
      FillHeadReady(st, o);
      FillHeadProgresses(st, o);
      FillHeadQuantities(st, o);
      FillHeadExecutes(st, o);
      HeadIsKnown(st, o);
      FillsAtLevels(FillHead(st, o), o);
    }
  }

  /** From `s` to `t` nothing was printed at a price that did not rest, and nothing rests at a new one but `named`. */
  ghost predicate PrintsWhatRests(s: Store, t: Store, fills: seq<Fill>, m: Uuid, prices: set<real>, named: set<real>) {
    RestsAtOneOf(s, m, prices) ==> RestsAtOneOf(t, m, prices + named) && Printed(fills, m) <= prices
  }

  lemma PlacePrintsWhatRests(s: Store, row: Order, now: int, m: Uuid, prices: set<real>)
    requires WfStore(s) && LegalRow(row)
    ensures var p := Place(s, row, now);
      p.Placed? ==> PrintsWhatRests(s, p.store, p.fills, m, prices,
        if row.orderType == Limit && row.marketId == m then {row.price} else {})
  {
    hide MatchFrom, UsersAfter, BookAfter, BookingsAfter, AveragePrice, StatusAfter, Ready, Done;
    if Admit(s, row).Admitted? {
      AdmittedKeepsIdentity(s, row);
      var o, reducing := Admit(s, row).order, Admit(s, row).reducing;
      ExecutePrintsWhatRests(s, o, reducing, now, m, prices);
    }
  }

  /** After a match and what it leaves resting, the two sides hold the levels they held, fewer, and one more. */
  lemma PricesAfter(s: Store, o: Order, reducing: bool, now: int)
    requires WfStore(s) && o.marketId in s.books && o.userId in s.users && LegalRow(o)
    ensures var b, st := s.books[o.marketId], Matched(s, o, reducing);
      var after := BookAfter(b, st, o, now);
      && after.bids.Keys + after.asks.Keys <= b.bids.Keys + b.asks.Keys + (if o.orderType == Limit then {o.price} else {})
      && forall f :: f in st.fills ==> f.marketId == o.marketId && f.price in b.bids.Keys + b.asks.Keys
  {
    hide MatchFrom, BookAfter, Ready, Done, WfLevels, OwnersKnown;
    var start := Start(s.books[o.marketId], LockFor(s.users, o, reducing), o);
    StartIsReady(s, o, reducing);
    MatchedIsReady(s, o, reducing);
    MatchedQuantities(s, o, reducing);
    MatchKeepsQuantities(start, o);
    FillsAtLevels(start, o);
    var st, b := Matched(s, o, reducing), s.books[o.marketId];
    assert SideWf(b, o.positionType, o.marketId, s.users) by { assert WfBook(b, o.marketId, s.users); }
    BookAfterSides(b, st, o, now, s.users);
    var after := BookAfter(b, st, o, now);
    assert after.bids == Side(after, LONG) && after.asks == Side(after, SHORT);
  }

  lemma ExecutePrintsWhatRests(s: Store, o: Order, reducing: bool, now: int, m: Uuid, prices: set<real>)
    requires WfStore(s) && o.marketId in s.books && o.userId in s.users && LegalRow(o)
    ensures var p := Execute(s, o, reducing, now);
      PrintsWhatRests(s, p.store, p.fills, m, prices, if o.orderType == Limit && o.marketId == m then {o.price} else {})
  {
    hide Matched, UsersAfter, BookAfter, BookingsAfter, AveragePrice, StatusAfter, WfStore;
    PricesAfter(s, o, reducing, now);
    var st, after := Matched(s, o, reducing), BookAfter(s.books[o.marketId], Matched(s, o, reducing), o, now);
    assert after.bids.Keys <= after.bids.Keys + after.asks.Keys && after.asks.Keys <= after.bids.Keys + after.asks.Keys;
  }

  lemma {:induction false} SweepPrintsWhatRests(s: Store, mk: Uuid, price: real, ids: seq<Uuid>, now: int, k: nat, m: Uuid, prices: set<real>)
    requires WfStore(s) && k <= |s.userIds| <= |ids|
    ensures var sw := SweepTo(s, mk, price, ids, now, k); PrintsWhatRests(s, sw.store, sw.writer.fills, m, prices, {})
    decreases k
  {
    hide SweepOne, WfStore, RestsAtOneOf;
    if k == 0 {
      assert prices + {} == prices;
    } else {
      SweepPrintsWhatRests(s, mk, price, ids, now, k - 1, m, prices);
      SweepOnePrintsWhatRests(SweepTo(s, mk, price, ids, now, k - 1), s.userIds[k - 1], mk, price, ids[k - 1], now, s, m, prices);
    }
  }

  lemma SweepOnePrintsWhatRests(sw: Sweep, a: Uuid, mk: Uuid, price: real, id: Uuid, now: int, s: Store, m: Uuid, prices: set<real>)
    requires WfStore(sw.store) && PrintsWhatRests(s, sw.store, sw.writer.fills, m, prices, {})
    ensures var next := SweepOne(sw, a, mk, price, id, now); PrintsWhatRests(s, next.store, next.writer.fills, m, prices, {})
  {
    hide Place, WfStore, LegalRow, RestsAtOneOf, Printed;
    var row := ForcedClose(sw.store, a, mk, price, id);
    assert prices + {} == prices;
    if row.Some? {
      ForcedCloseIsLegal(sw.store, a, mk, price, id);
      PlacePrintsWhatRests(sw.store, row.value, now, m, prices);
      var p := Place(sw.store, row.value, now);
      if p.Placed? {
        PrintedGrows(sw.writer.fills, p.fills, m);
      }
    }
  }

  function StepFills(reply: Reply<seq<Addressed>>): seq<Fill> {
    if reply.Replied? && reply.writer.Some? then reply.writer.value.fills else []
  }

  lemma TickPrintsWhatRests(s: Store, a: Asset, price: real, ids: seq<Uuid>, now: int, m: Uuid, prices: set<real>)
    requires WfStore(s) && price != 0.0 && |s.userIds| <= |ids|
    ensures var out := SweptOutcome(s, a, price, ids, now);
      PrintsWhatRests(s, out.store, StepFills(out.reply), m, prices, {})
  {
    hide SweepOne, Publish;
    WithIndexPriceKeepsWf(s, MarketOf(a), price);
    SweepPrintsWhatRests(WithIndexPrice(s, MarketOf(a), price), MarketOf(a), price, ids, now, |s.userIds|, m, prices);
  }

  lemma CancelPrintsNothing(s: Store, row: Order, m: Uuid, prices: set<real>)
    requires WfStore(s)
    ensures var out := CancelledOutcome(s, row); PrintsWhatRests(s, out.store, StepFills(out.reply), m, prices, {})
  {
  }

  lemma CreatePrintsWhatRests(s: Store, row: Order, now: int, m: Uuid, prices: set<real>)
    requires WfStore(s) && LegalRow(row)
    ensures WfStore(WithUser(s, row.userId))
    ensures var out := Created(WithUser(s, row.userId), row, now);
      PrintsWhatRests(s, out.store, StepFills(out.reply), m, prices, LimitOf(CreateOrder(row, now), m))
  {
    hide Place, WfStore, Publish, PlacementEvents;
    WithUserKeepsWf(s, row.userId);
    PlacePrintsWhatRests(WithUser(s, row.userId), row, now, m, prices);
  }

  /** One request prints at prices that rest, and leaves orders at those and at the price it names itself. */
  lemma StepPrintsWhatRests(s: Store, req: Request, m: Uuid, prices: set<real>)
    requires WfStore(s) && LegalRequest(s, req)
    ensures var out := Step(s, req); PrintsWhatRests(s, out.store, StepFills(out.reply), m, prices, LimitOf(req, m))
  {
    hide WfStore, Created, CancelledOutcome, SweptOutcome, DepthOf, InMarket;
    assert prices + {} == prices;
    match req
    case CreateOrder(row, now) => CreatePrintsWhatRests(s, row, now, m, prices);
    case CancelOrder(row) => CancelPrintsNothing(s, row, m, prices);
    case SpotPriceUpdate(spots, ids, now) =>
      if TickedAsset(spots).Some? {
        TickPrintsWhatRests(s, TickedAsset(spots).value, spots[TickedAsset(spots).value], ids, now, m, prices);
      }
    case _ =>
  }
}
