/** The records of the in-memory store. Prices, quantities and money are exact numbers. */
module Exchange {

  type Uuid = nat

  datatype Option<+T> = None | Some(value: T)

  function Min(x: real, y: real): real {
    if x < y then x else y
  }

  datatype PositionType = LONG | SHORT

  function Opposite(t: PositionType): PositionType {
    if t == LONG then SHORT else LONG
  }

  datatype OrderType = Market | Limit

  datatype Status = Pending | Open | PartiallyFilled | Filled | Cancelled

  datatype OpenOrder = OpenOrder(
    orderId: Uuid,
    userId: Uuid,
    marketId: Uuid,
    positionType: PositionType,
    qty: real,
    filledQty: real,
    margin: real,
    status: Status,
    createdAt: int)

  datatype Level = Level(availableQty: real, openOrders: seq<OpenOrder>)

  type Levels = map<real, Level>

  datatype Book = Book(
    bids: Levels,
    asks: Levels,
    lastTradedPrice: real,
    indexPrice: real,
    allowedLeverage: real)

  datatype Position = Position(
    marketId: Uuid,
    kind: PositionType,
    qty: real,
    margin: real,
    averagePrice: real,
    liquidationPrice: real)

  datatype User = User(
    available: real,
    locked: real,
    positions: seq<Position>,
    closedPositions: seq<Position>)

  /** `userIds` is the insertion order of the user map. */
  datatype Store = Store(
    userIds: seq<Uuid>,
    users: map<Uuid, User>,
    books: map<Uuid, Book>,
    lastUpdateId: nat)

  /** An order as the engine normalises it; `price` is the worst price it may trade at. */
  datatype Order = Order(
    id: Uuid,
    userId: Uuid,
    marketId: Uuid,
    positionType: PositionType,
    orderType: OrderType,
    qty: real,
    price: real,
    slippage: real,
    initialMargin: real)

  datatype Fill = Fill(
    makerId: Uuid,
    takerId: Uuid,
    marketId: Uuid,
    qty: real,
    price: real,
    makerOrderId: Uuid,
    takerOrderId: Uuid)

  datatype OrderUpdate = OrderUpdate(orderId: Uuid, userId: Uuid, status: Status, filledQty: real)
}
