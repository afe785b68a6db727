/** Every request the engine handles, as one step; and what each step keeps. */
module EngineSteps {
  import opened Exchange
  import opened Books
  import opened Positions
  import opened Matching
  import opened Engine
  import opened EngineBooks

  // ----- the liquidation sweep

  predicate Liquidatable(p: Position, price: real) {
    if p.kind == LONG then p.liquidationPrice >= price else p.liquidationPrice <= price
  }

  function LiquidationRow(u: Uuid, p: Position, id: Uuid): Order {
    Order(id, u, p.marketId, Opposite(p.kind), Market, p.qty, 0.0, 100.0, 0.0)
  }

  /** The forced close the sweep would place for an account, if its position is under water. */
  function ForcedClose(s: Store, u: Uuid, m: Uuid, price: real, id: Uuid): Option<Order> {
    if u !in s.users then None
    else
      var i := FindPosition(s.users[u].positions, m);
      if i >= 0 && Liquidatable(s.users[u].positions[i], price)
      then Some(LiquidationRow(u, s.users[u].positions[i], id))
      else None
  }

  lemma ForcedCloseIsLegal(s: Store, u: Uuid, m: Uuid, price: real, id: Uuid)
    requires WfStore(s) && ForcedClose(s, u, m, price, id).Some?
    ensures var row := ForcedClose(s, u, m, price, id).value;
      LegalRow(row) && row.id == id && row.userId == u && row.marketId == m && row.orderType == Market
  {
    assert WfPositions(s.users[u].positions);
  }

  datatype Writer = Writer(inserts: seq<Order>, updates: seq<OrderUpdate>, fills: seq<Fill>)

  datatype Sweep = Sweep(
    store: Store,
    writer: Writer,
    trades: seq<Print>,
    events: seq<Addressed>,
    bookings: seq<Booking>)

  function AddToSweep(sw: Sweep, row: Order, p: Placement, events: seq<Addressed>): Sweep
    requires p.Placed?
  {
    Sweep(p.store,
      Writer(sw.writer.inserts + [row], sw.writer.updates + p.updates, sw.writer.fills + p.fills),
      sw.trades + TradesFromFills(p.fills, row.positionType),
      sw.events + events,
      sw.bookings + p.bookings)
  }

  /** One account of the sweep: a close that is refused leaves everything as it was. */
  ghost function SweepOne(sw: Sweep, u: Uuid, m: Uuid, price: real, id: Uuid, now: int): (next: Sweep)
    requires WfStore(sw.store)
    ensures WfStore(next.store) && next.store.userIds == sw.store.userIds
    ensures next.store.books.Keys == sw.store.books.Keys && next.store.users.Keys == sw.store.users.Keys
  {
    var row := ForcedClose(sw.store, u, m, price, id);
    if row == None then sw
    else
      ForcedCloseIsLegal(sw.store, u, m, price, id);
      PlaceKeepsWf(sw.store, row.value, now);
      var p := Place(sw.store, row.value, now);
      if p.Rejected? then sw else AddToSweep(sw, row.value, p, PlacementEvents(p, ByLiquidation))
  }

  /** The sweep over the first `k` accounts, in the order the accounts were created. */
  ghost function SweepTo(s: Store, m: Uuid, price: real, ids: seq<Uuid>, now: int, k: nat): (sw: Sweep)
    requires WfStore(s) && k <= |s.userIds| <= |ids|
    ensures WfStore(sw.store) && sw.store.userIds == s.userIds && sw.store.books.Keys == s.books.Keys
    ensures sw.store.users.Keys == s.users.Keys
  {
    if k == 0 then Sweep(s, Writer([], [], []), [], [], [])
    else
      var before := SweepTo(s, m, price, ids, now, k - 1);
      SweepOne(before, s.userIds[k - 1], m, price, ids[k - 1], now)
  }

  function WithIndexPrice(s: Store, m: Uuid, price: real): Store
    requires m in s.books
  {
    s.(books := s.books[m := s.books[m].(indexPrice := price)])
  }

  lemma WithIndexPriceKeepsWf(s: Store, m: Uuid, price: real)
    requires WfStore(s) && m in s.books && price != 0.0
    ensures WfStore(WithIndexPrice(s, m, price))
  {
    var b := s.books[m].(indexPrice := price);
    assert WfBook(s.books[m], m, s.users);
    forall kind ensures SideWf(b, kind, m, s.users) {
      assert SideWf(s.books[m], kind, m, s.users);
    }
    WfBooksAfterUpdate(s.books, s.users, m, b, s.users);
  }

  // ----- funding

  /** Longs pay shorts in proportion to how far the last price is above the index. */
  function FundPosition(p: Position, books: map<Uuid, Book>): Position
    requires p.qty > 0.0
    requires p.marketId in books ==> books[p.marketId].indexPrice != 0.0
  {
    if p.marketId !in books then p
    else
      var b := books[p.marketId];
      var rate := (b.lastTradedPrice - b.indexPrice) / b.indexPrice;
      var payment := p.qty * b.lastTradedPrice * rate;
      var margin := if p.kind == LONG then p.margin - payment else p.margin + payment;
      p.(margin := margin, liquidationPrice := LiquidationPrice(margin, p.qty, p.kind, p.averagePrice))
  }

  ghost predicate Fundable(ps: seq<Position>, books: map<Uuid, Book>) {
    && WfPositions(ps)
    && forall m :: m in books ==> books[m].indexPrice != 0.0
  }

  function FundPositions(ps: seq<Position>, books: map<Uuid, Book>): (qs: seq<Position>)
    requires Fundable(ps, books)
    ensures |qs| == |ps|
    ensures forall i :: 0 <= i < |ps| ==> qs[i] == FundPosition(ps[i], books)
  {
    seq(|ps|, i requires 0 <= i < |ps| => FundPosition(ps[i], books))
  }

  lemma WfStoreIsFundable(s: Store)
    requires WfStore(s)
    ensures forall u :: u in s.users ==> Fundable(s.users[u].positions, s.books)
  {
    forall m | m in s.books ensures s.books[m].indexPrice != 0.0 {
      assert WfBook(s.books[m], m, s.users);
    }
  }

  function FundUser(u: User, books: map<Uuid, Book>): User
    requires Fundable(u.positions, books)
  {
    u.(positions := FundPositions(u.positions, books))
  }

  ghost function Funded(s: Store): Store
    requires WfStore(s)
  {
    WfStoreIsFundable(s);
    s.(users := map u | u in s.users :: FundUser(s.users[u], s.books))
  }

  lemma FundingKeepsWf(s: Store)
    requires WfStore(s)
    ensures WfStore(Funded(s))
  {
    WfStoreIsFundable(s);
    var t := Funded(s);
    assert t.users.Keys == s.users.Keys;
    forall u | u in t.users ensures WfPositions(t.users[u].positions) {
      assert WfPositions(s.users[u].positions);
    }
    forall m | m in t.books ensures WfBook(t.books[m], m, t.users) {
      assert WfBook(s.books[m], m, s.users);
      forall kind ensures SideWf(t.books[m], kind, m, t.users) {
        assert SideWf(s.books[m], kind, m, s.users);
      }
    }
  }

  // ----- accounts

  const NewUser := User(0.0, 0.0, [], [])

  /** Accounts are created on first contact. */
  function WithUser(s: Store, u: Uuid): Store {
    if u in s.users then s else s.(userIds := s.userIds + [u], users := s.users[u := NewUser])
  }

  function Deposited(s: Store, u: Uuid, amount: real): Store {
    var t := WithUser(s, u);
    t.(users := t.users[u := t.users[u].(available := t.users[u].available + amount)])
  }

  lemma WfBooksKnowMoreUsers(books: map<Uuid, Book>, users: map<Uuid, User>, users': map<Uuid, User>)
    requires WfBooks(books, users) && users.Keys <= users'.Keys
    ensures WfBooks(books, users')
  {
    forall m | m in books ensures WfBook(books[m], m, users') {
      assert WfBook(books[m], m, users);
      forall kind ensures SideWf(books[m], kind, m, users') {
        assert SideWf(books[m], kind, m, users);
      }
    }
  }

  lemma WithUserKeepsWf(s: Store, u: Uuid)
    requires WfStore(s)
    ensures WfStore(WithUser(s, u)) && u in WithUser(s, u).users
  {
    WfBooksKnowMoreUsers(s.books, s.users, WithUser(s, u).users);
  }

  lemma DepositedKeepsWf(s: Store, u: Uuid, amount: real)
    requires WfStore(s)
    ensures WfStore(Deposited(s, u, amount))
  {
    WithUserKeepsWf(s, u);
    WfBooksKnowMoreUsers(s.books, WithUser(s, u).users, Deposited(s, u, amount).users);
  }

  // ----- requests and replies

  datatype Request =
    | InitBalance(userId: Uuid)
    | Onramp(userId: Uuid, amount: real)
    | CreateOrder(row: Order, now: int)
    | CancelOrder(row: Order)
    | GetBalances(userId: Uuid)
    | GetOpenPositions(userId: Uuid, marketId: Uuid)
    | GetClosedPositions(userId: Uuid, marketId: Uuid)
    | SpotPriceUpdate(prices: map<Asset, real>, mintedIds: seq<Uuid>, now: int)
    | BackupStore
    | FundingRateDispersal
    | GetDepth(marketId: Uuid)

  datatype Backend =
    | Nothing
    | Balance(userId: Uuid, available: real)
    | Balances(available: real, locked: real)
    | MatchReport(orderId: Uuid, status: Status, filledQty: real, totalPrice: real, averagePrice: real, fills: seq<Fill>)
    | CancelReport(orderId: Uuid, cancelledQty: real, releasedMargin: real, available: real, locked: real)
    | PositionList(positions: seq<Position>)
    | DepthReport(depth: Depth)

  datatype Publication = Publication(depth: Depth, lastTradedPrice: real, indexPrice: real, trades: seq<Print>)

  /** `W` is how the private events are carried: a log here, a map by account on the wire. */
  datatype Reply<+W> =
    | Failed(error: Error)
    | Silent
    | Replied(backend: Backend, writer: Option<Writer>, wsServer: Option<Publication>, wsUser: W)

  datatype Outcome = Outcome(store: Store, reply: Reply<seq<Addressed>>, bookings: seq<Booking>)

  ghost function Publish(s: Store, m: Uuid, trades: seq<Print>): Publication
    requires m in s.books
  {
    Publication(DepthOf(s, m), s.books[m].lastTradedPrice, s.books[m].indexPrice, trades)
  }

  function Bumped(s: Store): Store {
    s.(lastUpdateId := s.lastUpdateId + 1)
  }

  ghost function Created(s: Store, row: Order, now: int): Outcome
    requires WfStore(s) && LegalRow(row)
  {
    var p := Place(s, row, now);
    if p.Rejected? then Outcome(s, Failed(p.error), [])
    else
      PlaceKeepsWf(s, row, now);
      AdmittedKeepsIdentity(s, row);
      var t := Bumped(p.store);
      Outcome(t,
        Replied(MatchReport(p.order.id, p.status, p.filled, p.total, p.averagePrice, p.fills),
          Some(Writer([], p.updates, p.fills)),
          Some(Publish(t, row.marketId, TradesFromFills(p.fills, p.order.positionType))),
          PlacementEvents(p, ByUser)),
        p.bookings)
  }

  ghost function CancelledOutcome(s: Store, row: Order): Outcome {
    if CancelIndex(s, row) < 0 then Outcome(s, Failed(OrderNotFound), [])
    else
      var t := AfterCancel(s, row);
      var o := CancelledAt(s, row);
      var us := [OrderUpdate(row.id, row.userId, Cancelled, o.filledQty)];
      Outcome(t,
        Replied(CancelReport(row.id, Unfilled(o), o.margin, t.users[row.userId].available, t.users[row.userId].locked),
          Some(Writer([], us, [])),
          Some(Publish(t, row.marketId, [])),
          MatchEvents(t.users, row.marketId, row.positionType, [], us, [])),
        [])
  }

  /** The asset a price tick is for: the first of SOL, BTC and ETH that carries a price. */
  function TickedAsset(prices: map<Asset, real>): Option<Asset> {
    if SOL in prices && prices[SOL] != 0.0 then Some(SOL)
    else if BTC in prices && prices[BTC] != 0.0 then Some(BTC)
    else if ETH in prices && prices[ETH] != 0.0 then Some(ETH)
    else None
  }

  ghost function SweptOutcome(s: Store, a: Asset, price: real, ids: seq<Uuid>, now: int): Outcome
    requires WfStore(s) && price != 0.0 && |s.userIds| <= |ids|
  {
    var m := MarketOf(a);
    WithIndexPriceKeepsWf(s, m, price);
    var sw := SweepTo(WithIndexPrice(s, m, price), m, price, ids, now, |s.userIds|);
    var t := Bumped(sw.store);
    Outcome(t, Replied(Nothing, Some(sw.writer), Some(Publish(t, m, sw.trades)), sw.events), sw.bookings)
  }

  function InMarket(ps: seq<Position>, m: Uuid): seq<Position> {
    if ps == [] then [] else (if ps[0].marketId == m then [ps[0]] else []) + InMarket(ps[1..], m)
  }

  function Answer(backend: Backend): Reply<seq<Addressed>> {
    Replied(backend, None, None, [])
  }

  /** What the engine's callers guarantee: a schema-checked order, and an id for every forced close. */
  predicate LegalRequest(s: Store, req: Request) {
    && (req.CreateOrder? ==> LegalRow(req.row))
    && (req.SpotPriceUpdate? ==> |s.userIds| <= |req.mintedIds|)
  }

  ghost function Step(s: Store, req: Request): Outcome
    requires WfStore(s) && LegalRequest(s, req)
  {
    match req
    case InitBalance(u) =>
      var t := WithUser(s, u);
      Outcome(t, Answer(Balance(u, t.users[u].available)), [])
    case Onramp(u, amount) =>
      var t := Deposited(s, u, amount);
      var user := t.users[u];
      Outcome(t, Replied(Balance(u, user.available), None, None,
        [Addressed(u, BalanceNow(user.available, user.locked))]), [])
    case CreateOrder(row, now) =>
      WithUserKeepsWf(s, row.userId);
      Created(WithUser(s, row.userId), row, now)
    case CancelOrder(row) =>
      CancelledOutcome(s, row)
    case GetBalances(u) =>
      var t := WithUser(s, u);
      Outcome(t, Answer(Balances(t.users[u].available, t.users[u].locked)), [])
    case GetOpenPositions(u, m) =>
      Outcome(s, Answer(PositionList(if u in s.users then InMarket(s.users[u].positions, m) else [])), [])
    case GetClosedPositions(u, m) =>
      Outcome(s, Answer(PositionList(if u in s.users then InMarket(s.users[u].closedPositions, m) else [])), [])
    case SpotPriceUpdate(prices, ids, now) =>
      var a := TickedAsset(prices);
      if a == None then Outcome(s, Failed(UnsupportedRequest), [])
      else SweptOutcome(s, a.value, prices[a.value], ids, now)
    case BackupStore =>
      Outcome(s, Silent, [])
    case FundingRateDispersal =>
      Outcome(Funded(s), Silent, [])
    case GetDepth(m) =>
      if m in s.books then Outcome(s, Answer(DepthReport(DepthOf(s, m))), [])
      else Outcome(s, Failed(UnsupportedMarket), [])
  }

  /** No request, accepted or refused, can leave a malformed or crossed book behind. */
  lemma StepKeepsWf(s: Store, req: Request)
    requires WfStore(s) && LegalRequest(s, req)
    ensures WfStore(Step(s, req).store)
  {
    match req
    case InitBalance(u) => WithUserKeepsWf(s, u);
    case Onramp(u, amount) => DepositedKeepsWf(s, u, amount);
    case CreateOrder(row, now) =>
      WithUserKeepsWf(s, row.userId);
      PlaceKeepsWf(WithUser(s, row.userId), row, now);
    case CancelOrder(row) =>
      if CancelIndex(s, row) >= 0 {
        CancelKeepsWf(s, row);
      }
    case GetBalances(u) => WithUserKeepsWf(s, u);
    case SpotPriceUpdate(prices, ids, now) =>
      var a := TickedAsset(prices);
      if a.Some? {
        WithIndexPriceKeepsWf(s, MarketOf(a.value), prices[a.value]);
      }
    case FundingRateDispersal => FundingKeepsWf(s);
    case _ =>
  }

  lemma InitialStoreIsWf()
    ensures WfStore(InitialStore())
  {
    var s := InitialStore();
    forall m | m in s.books ensures WfBook(s.books[m], m, s.users) {
      forall kind ensures SideWf(s.books[m], kind, m, s.users) {
        assert Side(s.books[m], kind) == map[];
      }
    }
  }

  // ----- runs

  /** A run is legal when every request is legal in the state it meets. */
  ghost predicate LegalRun(s: Store, reqs: seq<Request>)
    requires WfStore(s)
    decreases |reqs|
  {
    reqs == [] ||
    (LegalRequest(s, reqs[0]) && (StepKeepsWf(s, reqs[0]); LegalRun(Step(s, reqs[0]).store, reqs[1..])))
  }

  /** The state a run ends in. */
  ghost function Run(s: Store, reqs: seq<Request>): (t: Store)
    requires WfStore(s) && LegalRun(s, reqs)
    ensures WfStore(t)
    decreases |reqs|
  {
    if reqs == [] then s
    else
      StepKeepsWf(s, reqs[0]);
      Run(Step(s, reqs[0]).store, reqs[1..])
  }

  /** A legal history of the engine, starting from empty books. */
  ghost predicate LegalHistory(reqs: seq<Request>) {
    InitialStoreIsWf();
    LegalRun(InitialStore(), reqs)
  }

  ghost function Reached(reqs: seq<Request>): (t: Store)
    requires LegalHistory(reqs)
    ensures WfStore(t)
  {
    InitialStoreIsWf();
    Run(InitialStore(), reqs)
  }

  /**
   * Every reachable book is well formed and uncrossed: on each side every level's total is the sum
   * of what its orders still want, no level is empty, every order is unfinished and of that side's
   * type, and every bid is below every ask.
   */
  lemma ReachableBooksAreWellFormed(reqs: seq<Request>, m: Uuid, kind: PositionType, p: real)
    requires LegalHistory(reqs) && m in Reached(reqs).books
    ensures var b := Reached(reqs).books[m];
      && (forall bid, ask :: bid in b.bids && ask in b.asks ==> bid < ask)
      && (p in Side(b, kind) ==>
            && p > 0.0
            && Side(b, kind)[p].openOrders != []
            && Side(b, kind)[p].availableQty == Remaining(Side(b, kind)[p].openOrders) > 0.0
            && forall o :: o in Side(b, kind)[p].openOrders ==>
                 0.0 <= o.filledQty < o.qty && o.positionType == kind && o.marketId == m)
  {
    var t := Reached(reqs);
    assert WfBook(t.books[m], m, t.users);
    assert SideWf(t.books[m], kind, m, t.users);
    if p in Side(t.books[m], kind) {
      var level := Side(t.books[m], kind)[p];
      assert WfLevel(level, kind, m);
      RemainingPositive(level.openOrders, kind, m);
    }
  }
}
