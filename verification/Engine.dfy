/**
 * One engine request as a function from store to store. The class `ExchangeEngine` carries it out in place;
 * everything that is said about runs is said about these functions.
 */
module Engine {
  import opened Exchange
  import opened Sequences
  import opened Books
  import opened Positions
  import opened Matching

  // ----- the store

  datatype Asset = SOL | ETH | BTC

  function MarketOf(a: Asset): Uuid {
    match a
    case SOL => 0xe3289213_372c_44d2_8cc8_2a6eb55b11b1
    case ETH => 0x13931aa2_9054_4e34_ac0f_4a8afad48226
    case BTC => 0xe59931c4_c54a_435f_8c57_382fa60fca58
  }

  function InitialStore(): Store {
    Store([], map[],
      map[MarketOf(SOL) := Book(map[], map[], 90.0, 85.0, 30.0),
          MarketOf(ETH) := Book(map[], map[], 1900.0, 1850.0, 3.0),
          MarketOf(BTC) := Book(map[], map[], 5000.0, 4930.0, 8.0)],
      0)
  }

  function Side(b: Book, kind: PositionType): Levels {
    if kind == LONG then b.bids else b.asks
  }

  function WithSide(b: Book, kind: PositionType, levels: Levels): Book {
    if kind == LONG then b.(bids := levels) else b.(asks := levels)
  }

  ghost predicate Uncrossed(b: Book) {
    forall p, q :: p in b.bids && q in b.asks ==> p < q
  }

  ghost predicate SideWf(b: Book, kind: PositionType, m: Uuid, users: map<Uuid, User>) {
    WfLevels(Side(b, kind), kind, m) && OwnersKnown(Side(b, kind), users)
  }

  ghost predicate WfBook(b: Book, m: Uuid, users: map<Uuid, User>) {
    && (forall kind :: SideWf(b, kind, m, users))
    && Uncrossed(b)
    && b.indexPrice != 0.0
    && b.allowedLeverage >= 0.0
  }

  ghost predicate WfBooks(books: map<Uuid, Book>, users: map<Uuid, User>) {
    forall m :: m in books ==> WfBook(books[m], m, users)
  }

  ghost predicate Distinct(ids: seq<Uuid>) {
    forall i, j :: 0 <= i < j < |ids| ==> ids[i] != ids[j]
  }

  ghost predicate WfStore(s: Store) {
    && Distinct(s.userIds)
    && (forall u :: u in s.userIds <==> u in s.users)
    && (forall a :: MarketOf(a) in s.books)
    && WfUsers(s.users)
    && WfBooks(s.books, s.users)
  }

  // ----- what accounts and the public are told

  datatype Origin = ByUser | ByLiquidation
  datatype Role = Maker | Taker

  datatype UserOrder = UserOrder(
    id: Uuid,
    marketId: Uuid,
    positionType: PositionType,
    orderType: OrderType,
    status: Status,
    qty: real,
    filledQty: real,
    price: real,
    slippage: real,
    initialMargin: real)

  datatype UserEvent =
    | OrderNew(order: UserOrder, origin: Origin)
    | OrderUpdated(orderId: Uuid, marketId: Uuid, status: Status, filledQty: real)
    | FillSeen(orderId: Uuid, marketId: Uuid, side: PositionType, role: Role, price: real, qty: real)
    | PositionNow(marketId: Uuid, position: Option<Position>)
    | BalanceNow(available: real, locked: real)

  datatype Addressed = Addressed(userId: Uuid, event: UserEvent)

  datatype NewOrder = NewOrder(order: Order, status: Status, filledQty: real, origin: Origin)

  function UserOrderFrom(n: NewOrder): UserOrder {
    var o := n.order;
    UserOrder(o.id, o.marketId, o.positionType, o.orderType, n.status, o.qty, n.filledQty, o.price, o.slippage, o.initialMargin)
  }

  function NewOrderEvents(ns: seq<NewOrder>): seq<Addressed> {
    if ns == [] then []
    else
      var n := ns[|ns| - 1];
      NewOrderEvents(ns[..|ns| - 1]) + [Addressed(n.order.userId, OrderNew(UserOrderFrom(n), n.origin))]
  }

  function UpdateEvent(u: OrderUpdate, m: Uuid): Addressed {
    Addressed(u.userId, OrderUpdated(u.orderId, m, u.status, u.filledQty))
  }

  function UpdateEvents(us: seq<OrderUpdate>, m: Uuid): seq<Addressed> {
    if us == [] then [] else UpdateEvents(us[..|us| - 1], m) + [UpdateEvent(us[|us| - 1], m)]
  }

  /** Both sides of one fill; the maker's side is the mirror of the taker's. */
  function FillPair(f: Fill, m: Uuid, takerSide: PositionType): seq<Addressed> {
    [Addressed(f.takerId, FillSeen(f.takerOrderId, m, takerSide, Taker, f.price, f.qty)),
     Addressed(f.makerId, FillSeen(f.makerOrderId, m, Opposite(takerSide), Maker, f.price, f.qty))]
  }

  function FillEvents(fs: seq<Fill>, m: Uuid, takerSide: PositionType): seq<Addressed> {
    if fs == [] then [] else FillEvents(fs[..|fs| - 1], m, takerSide) + FillPair(fs[|fs| - 1], m, takerSide)
  }

  /** The two absolute facts an account is told last: its position in the market and its collateral. */
  function StateEvents(u: Uuid, users: map<Uuid, User>, m: Uuid): seq<Addressed> {
    if u !in users then []
    else
      var i := FindPosition(users[u].positions, m);
      [Addressed(u, PositionNow(m, if i < 0 then None else Some(users[u].positions[i]))),
       Addressed(u, BalanceNow(users[u].available, users[u].locked))]
  }

  function AllStateEvents(us: seq<Uuid>, users: map<Uuid, User>, m: Uuid): seq<Addressed> {
    if us == [] then [] else AllStateEvents(us[..|us| - 1], users, m) + StateEvents(us[|us| - 1], users, m)
  }

  function Touch(seen: seq<Uuid>, u: Uuid): seq<Uuid> {
    if u in seen then seen else seen + [u]
  }

  function TouchedByNew(seen: seq<Uuid>, ns: seq<NewOrder>): seq<Uuid> {
    if ns == [] then seen else Touch(TouchedByNew(seen, ns[..|ns| - 1]), ns[|ns| - 1].order.userId)
  }

  function TouchedByUpdates(seen: seq<Uuid>, us: seq<OrderUpdate>): seq<Uuid> {
    if us == [] then seen else Touch(TouchedByUpdates(seen, us[..|us| - 1]), us[|us| - 1].userId)
  }

  function TouchedByFills(seen: seq<Uuid>, fs: seq<Fill>): seq<Uuid> {
    if fs == [] then seen
    else Touch(Touch(TouchedByFills(seen, fs[..|fs| - 1]), fs[|fs| - 1].makerId), fs[|fs| - 1].takerId)
  }

  function Touched(ns: seq<NewOrder>, us: seq<OrderUpdate>, fs: seq<Fill>): seq<Uuid> {
    TouchedByFills(TouchedByUpdates(TouchedByNew([], ns), us), fs)
  }

  /** Everything one match tells the accounts it touched, in the order it is told. */
  function MatchEvents(users: map<Uuid, User>, m: Uuid, takerSide: PositionType,
                       fs: seq<Fill>, us: seq<OrderUpdate>, ns: seq<NewOrder>): seq<Addressed> {
    NewOrderEvents(ns) + UpdateEvents(us, m) + FillEvents(fs, m, takerSide)
      + AllStateEvents(Touched(ns, us, fs), users, m)
  }

  /** One account's share of a log of addressed events. */
  function EventsFor(log: seq<Addressed>, u: Uuid): seq<UserEvent> {
    if log == [] then []
    else EventsFor(log[..|log| - 1], u) + if log[|log| - 1].userId == u then [log[|log| - 1].event] else []
  }

  lemma {:induction false} EventsForConcat(a: seq<Addressed>, b: seq<Addressed>, u: Uuid)
    ensures EventsFor(a + b, u) == EventsFor(a, u) + EventsFor(b, u)
  {
    if b == [] {
      assert a + b == a;
    } else {
      assert (a + b)[..|a + b| - 1] == a + b[..|b| - 1];
      EventsForConcat(a, b[..|b| - 1], u);
    }
  }

  datatype Print = Print(price: real, qty: real, buy: bool)

  function TradesFromFills(fs: seq<Fill>, takerSide: PositionType): seq<Print> {
    if fs == [] then []
    else TradesFromFills(fs[..|fs| - 1], takerSide) + [Print(fs[|fs| - 1].price, fs[|fs| - 1].qty, takerSide == LONG)]
  }

  // ----- market depth

  datatype Depth = Depth(market: Uuid, lastUpdateId: nat, bids: seq<(real, real)>, asks: seq<(real, real)>)

  const MAX_DEPTH: nat := 20

  ghost function TopLevels(kind: PositionType, levels: Levels, n: nat): seq<(real, real)> {
    if n == 0 || levels == map[] then []
    else
      var p := BestPrice(kind, levels);
      [(p, levels[p].availableQty)] + TopLevels(kind, levels - {p}, n - 1)
  }

  ghost function DepthOf(s: Store, m: Uuid): Depth
    requires m in s.books
  {
    Depth(m, s.lastUpdateId, TopLevels(LONG, s.books[m].bids, MAX_DEPTH), TopLevels(SHORT, s.books[m].asks, MAX_DEPTH))
  }

  // ----- placing an order

  datatype Error =
    | UnsupportedMarket | UnknownUser | MarginRequired | RiskIncreasing | InsufficientMargin
    | NoMatches | LeverageNotSupported | OrderNotFound | UnsupportedRequest

  datatype Admission = Refused(error: Error) | Admitted(order: Order, reducing: bool)

  /** The order schema: a positive size, and a positive price where the order names one. */
  predicate LegalRow(row: Order) {
    row.qty > 0.0 && (row.orderType == Limit ==> row.price > 0.0)
  }

  /** An opposite-side order of at most twice the held quantity counts as reducing the position. */
  predicate ReducesPosition(ps: seq<Position>, row: Order) {
    var i := FindPosition(ps, row.marketId);
    i >= 0 && ps[i].kind != row.positionType && ps[i].qty >= row.qty - ps[i].qty
  }

  /** The margin rules: what a user may open, and what is let through without margin. */
  function CheckMargin(u: User, row: Order): Admission {
    var reducing := ReducesPosition(u.positions, row);
    if row.initialMargin == 0.0 && FindPosition(u.positions, row.marketId) < 0 then Refused(MarginRequired)
    else if row.initialMargin == 0.0 && !reducing then Refused(RiskIncreasing)
    else if u.available < (if reducing then 0.0 else row.initialMargin) then Refused(InsufficientMargin)
    else Admitted(row.(initialMargin := if reducing then 0.0 else row.initialMargin), reducing)
  }

  /** The worst price a market order accepts when the best one it meets is `entry`. */
  function WithSlippage(o: Order, entry: real): Order {
    var slip := o.slippage * 0.01 * entry;
    o.(price := if o.positionType == LONG then entry + slip else entry - slip)
  }

  /** A market order becomes a limit order at the worst price its slippage allows. */
  ghost function Bounded(b: Book, o: Order): Option<Order> {
    if o.orderType == Limit then Some(o)
    else
      var facing := Side(b, Opposite(o.positionType));
      if facing == map[] then None
      else Some(WithSlippage(o, BestPrice(Opposite(o.positionType), facing)))
  }

  predicate LeverageAllowed(b: Book, o: Order, reducing: bool) {
    if reducing then 0.0 <= b.allowedLeverage
    else o.initialMargin != 0.0 && o.price * o.qty / o.initialMargin <= b.allowedLeverage
  }

  ghost function Admit(s: Store, row: Order): Admission {
    if row.marketId !in s.books then Refused(UnsupportedMarket)
    else if row.userId !in s.users then Refused(UnknownUser)
    else
      var checked := CheckMargin(s.users[row.userId], row);
      if checked.Refused? then checked
      else
        var b := s.books[row.marketId];
        var bounded := Bounded(b, checked.order);
        if bounded == None then Refused(NoMatches)
        else if !LeverageAllowed(b, bounded.value, checked.reducing) then Refused(LeverageNotSupported)
        else Admitted(bounded.value, checked.reducing)
  }

  function Lock(u: User, margin: real): User {
    u.(available := u.available - margin, locked := u.locked + margin)
  }

  /** Margin is locked before matching, unless the order reduces the position. */
  function LockFor(users: map<Uuid, User>, o: Order, reducing: bool): map<Uuid, User>
    requires o.userId in users
  {
    if !reducing && o.initialMargin > 0.0 then users[o.userId := Lock(users[o.userId], o.initialMargin)] else users
  }

  function Start(b: Book, users: map<Uuid, User>, o: Order): Progress {
    Progress(Side(b, Opposite(o.positionType)), users, b.lastTradedPrice, o.qty, 0.0, 0.0, Open, [], [], [])
  }

  function AveragePrice(st: Progress): real {
    if st.filled > 0.0 then Rounding.Round2(st.total / st.filled) else 0.0
  }

  function TakerTrade(st: Progress, o: Order): Trade
    requires o.qty > 0.0
  {
    Trade(o.marketId, o.positionType, st.filled, RelativeMargin(o.initialMargin, o.qty, st.filled), AveragePrice(st))
  }

  /** The accounts once the taker has its position; netting keeps every account's positions well formed. */
  function UsersAfter(st: Progress, o: Order): (users: map<Uuid, User>)
    requires o.qty > 0.0 && o.userId in st.users && WfUsers(st.users)
    ensures WfUsers(users) && users.Keys == st.users.Keys
  {
    if st.filled > 0.0 then
      NettingAddsSignedQuantity(st.users[o.userId], TakerTrade(st, o), st.last, o.marketId);
      st.users[o.userId := CreatePosition(st.users[o.userId], TakerTrade(st, o), st.last)]
    else st.users
  }

  function BookingsAfter(st: Progress, o: Order): seq<Booking>
    requires o.qty > 0.0 && o.userId in st.users && WfPositions(st.users[o.userId].positions)
  {
    if st.filled > 0.0
    then st.bookings + [Booking(o.userId, Booked(st.users[o.userId], TakerTrade(st, o), st.last))]
    else st.bookings
  }

  function StatusAfter(st: Progress, o: Order): Status {
    if st.remaining > 0.0 && o.orderType == Market then Cancelled else st.status
  }

  function RestingOrder(st: Progress, o: Order, now: int): OpenOrder
    requires o.qty > 0.0
  {
    OpenOrder(o.id, o.userId, o.marketId, o.positionType, o.qty, st.filled,
      RelativeMargin(o.initialMargin, o.qty, st.remaining), Open, now)
  }

  function Append(levels: Levels, p: real, o: OpenOrder): Levels {
    if p in levels
    then levels[p := Level(levels[p].availableQty + Unfilled(o), levels[p].openOrders + [o])]
    else levels[p := Level(Unfilled(o), [o])]
  }

  /** The part of a limit order that did not trade joins its own side at its own price. */
  function BookAfter(b: Book, st: Progress, o: Order, now: int): Book
    requires o.qty > 0.0
  {
    var traded := WithSide(b, Opposite(o.positionType), st.levels).(lastTradedPrice := st.last);
    if st.remaining > 0.0 && o.orderType == Limit
    then WithSide(traded, o.positionType, Append(Side(b, o.positionType), o.price, RestingOrder(st, o, now)))
    else traded
  }

  datatype Placement =
    | Rejected(error: Error)
    | Placed(store: Store, order: Order, status: Status, filled: real, total: real, averagePrice: real,
             fills: seq<Fill>, updates: seq<OrderUpdate>, bookings: seq<Booking>)

  lemma StartIsReady(s: Store, o: Order, reducing: bool)
    requires WfStore(s) && o.marketId in s.books && o.userId in s.users
    ensures Ready(Start(s.books[o.marketId], LockFor(s.users, o, reducing), o), o)
  {
    assert WfBook(s.books[o.marketId], o.marketId, s.users);
    assert SideWf(s.books[o.marketId], Opposite(o.positionType), o.marketId, s.users);
  }

  /** The state of the match when the taker stops. */
  ghost function Matched(s: Store, o: Order, reducing: bool): Progress
    requires WfStore(s) && o.marketId in s.books && o.userId in s.users
  {
    StartIsReady(s, o, reducing);
    MatchFrom(Start(s.books[o.marketId], LockFor(s.users, o, reducing), o), o)
  }

  lemma MatchedIsReady(s: Store, o: Order, reducing: bool)
    requires WfStore(s) && o.marketId in s.books && o.userId in s.users
    ensures Ready(Matched(s, o, reducing), o) && Done(Matched(s, o, reducing), o)
    ensures Matched(s, o, reducing).users.Keys == s.users.Keys
  {
    StartIsReady(s, o, reducing);
    MatchEndsDone(Start(s.books[o.marketId], LockFor(s.users, o, reducing), o), o);
  }

  ghost function Execute(s: Store, o: Order, reducing: bool, now: int): Placement
    requires WfStore(s) && o.marketId in s.books && o.userId in s.users && o.qty > 0.0
  {
    var b := s.books[o.marketId];
    var st := Matched(s, o, reducing);
    MatchedIsReady(s, o, reducing);
    Placed(
      s.(users := UsersAfter(st, o), books := s.books[o.marketId := BookAfter(b, st, o, now)]),
      o, StatusAfter(st, o), st.filled, st.total, AveragePrice(st), st.fills,
      st.updates + [OrderUpdate(o.id, o.userId, StatusAfter(st, o), st.filled)],
      BookingsAfter(st, o))
  }

  lemma AdmittedKeepsIdentity(s: Store, row: Order)
    requires Admit(s, row).Admitted?
    ensures var o := Admit(s, row).order;
      && row.marketId in s.books && row.userId in s.users
      && o == row.(initialMargin := o.initialMargin, price := o.price)
      && (row.orderType == Limit ==> o.price == row.price)
  {
  }

  ghost function Place(s: Store, row: Order, now: int): Placement
    requires WfStore(s) && row.qty > 0.0
  {
    var admission := Admit(s, row);
    if admission.Refused? then Rejected(admission.error)
    else
      AdmittedKeepsIdentity(s, row);
      Execute(s, admission.order, admission.reducing, now)
  }

  ghost function PlacementEvents(p: Placement, origin: Origin): seq<Addressed>
    requires p.Placed?
  {
    MatchEvents(p.store.users, p.order.marketId, p.order.positionType, p.fills, p.updates,
      [NewOrder(p.order, p.status, p.filled, origin)])
  }

  // ----- cancelling an order

  function FindOrder(os: seq<OpenOrder>, id: Uuid): (i: int)
    ensures -1 <= i < |os|
    ensures i < 0 ==> forall j :: 0 <= j < |os| ==> os[j].orderId != id
    ensures 0 <= i ==> os[i].orderId == id && forall j :: 0 <= j < i ==> os[j].orderId != id
  {
    if os == [] then -1
    else if os[0].orderId == id then 0
    else var k := FindOrder(os[1..], id); if k < 0 then -1 else k + 1
  }

  /** Where a cancellable order sits, or -1: the level must exist on the side of the row's type. */
  function CancelIndex(s: Store, row: Order): int {
    if row.marketId !in s.books || row.userId !in s.users then -1
    else
      var side := Side(s.books[row.marketId], row.positionType);
      if row.price !in side || side[row.price].availableQty <= 0.0 then -1
      else FindOrder(side[row.price].openOrders, row.id)
  }

  function WithoutOrder(levels: Levels, p: real, i: nat): Levels
    requires p in levels && i < |levels[p].openOrders|
  {
    var rest := RemoveAt(levels[p].openOrders, i);
    var left := levels[p].availableQty - Unfilled(levels[p].openOrders[i]);
    if left <= 0.0 || rest == [] then levels - {p} else levels[p := Level(left, rest)]
  }

  function Release(u: User, margin: real): User {
    u.(available := u.available + margin, locked := u.locked - margin)
  }

  function CancelledAt(s: Store, row: Order): OpenOrder
    requires CancelIndex(s, row) >= 0
  {
    Side(s.books[row.marketId], row.positionType)[row.price].openOrders[CancelIndex(s, row)]
  }

  function AfterCancel(s: Store, row: Order): Store
    requires CancelIndex(s, row) >= 0
  {
    var b := s.books[row.marketId];
    var side := Side(b, row.positionType);
    s.(users := s.users[row.userId := Release(s.users[row.userId], CancelledAt(s, row).margin)],
       books := s.books[row.marketId := WithSide(b, row.positionType, WithoutOrder(side, row.price, CancelIndex(s, row)))],
       lastUpdateId := s.lastUpdateId + 1)
  }
}
