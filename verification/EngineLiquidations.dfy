/** Forced closes. */
module EngineLiquidations {
  import opened Exchange
  import opened Books
  import opened Positions
  import opened Engine
  import opened EngineSteps
  import opened EngineClose
  import opened OrderTerms

  /** The forced close of a position: an order against all of it, without margin, at whatever price. */
  function WholeAgainst(p: Position, u: Uuid, id: Uuid): Order {
    Order(id, u, p.marketId, if p.kind == LONG then SHORT else LONG, OrderType.Market, p.qty, 0.0, 100.0, 0.0)
  }

  /** Its worst price: nothing at all for what it sells, twice the best ask for what it buys. */
  lemma ForcedCloseBound(p: Position, u: Uuid, id: Uuid, best: real)
    ensures Widened(WholeAgainst(p, u, id), best) == if p.kind == LONG then 0.0 else 2.0 * best
  {
    assert best * 2.0 == 2.0 * best && best * 0.0 == 0.0;
  }

  /**
   * An account's turn in a sweep. With no position in the market, or one the price does not liquidate, it
   * is spared; so it is when its free collateral is negative or nobody offers anything. Otherwise its
   * whole position is closed by force: that one order, written as inserted, is placed and executed.
   */
  lemma OneTurnOfTheSweep(sw: Sweep, u: Uuid, m: Uuid, price: real, id: Uuid, now: int)
    requires WfStore(sw.store) && u in sw.store.users && m in sw.store.books
    ensures var s, next := sw.store, SweepOne(sw, u, m, price, id, now);
      var i := FindPosition(s.users[u].positions, m);
      if i >= 0 && Liquidatable(s.users[u].positions[i], price) && s.users[u].available >= 0.0
         && (exists best :: BestOffer(s.books[m], WholeAgainst(s.users[u].positions[i], u, id).positionType, best))
      then
        var row := WholeAgainst(s.users[u].positions[i], u, id);
        LegalRow(row) && row.slippage >= 0.0 && Place(s, row, now).Placed?
        && next.store == Place(s, row, now).store && next.writer.inserts == sw.writer.inserts + [row]
        && next.writer.fills == sw.writer.fills + Place(s, row, now).fills
      else next == sw
  {
    hide Place, WfStore, PlacementEvents, BestOffer;
    var s := sw.store;
    var i := FindPosition(s.users[u].positions, m);
    if i >= 0 {
      KnownPositions(s, u);
      var p := s.users[u].positions[i];
      var row := WholeAgainst(p, u, id);
      assert LiquidationRow(u, p, id) == row;
      AdmittedIffOffered(s, row);
      PlacedIffAdmitted(s, row, now);
      assert Held(s, row) == i;
    }
  }

  lemma AdmittedIffOffered(s: Store, row: Order)
    requires WfStore(s) && row.marketId in s.books && row.userId in s.users && row.initialMargin == 0.0 && row.orderType == Market
    ensures Admit(s, row).Admitted? <==>
      AtMostTwiceHeld(s, row) && s.users[row.userId].available >= 0.0 && exists best :: BestOffer(s.books[row.marketId], row.positionType, best)
  {
    MarginFreeAdmission(s, row);
    var kind := Opposite(row.positionType);
    var levels := Side(s.books[row.marketId], kind);
    if levels != map[] {
      OneBestOffer(s.books[row.marketId], row.positionType, BestPrice(kind, levels));
    } else {
      forall best ensures !BestOffer(s.books[row.marketId], row.positionType, best) {
        OneBestOffer(s.books[row.marketId], row.positionType, best);
      }
    }
  }

  lemma PlacedIffAdmitted(s: Store, row: Order, now: int)
    requires WfStore(s) && row.qty > 0.0
    ensures Place(s, row, now).Placed? <==> Admit(s, row).Admitted?
  {
    hide Execute, WfStore;
    if Admit(s, row).Admitted? {
      AdmittedKeepsIdentity(s, row);
      ExecutePlaces(s, Admit(s, row).order, Admit(s, row).reducing, now);
    }
  }

  lemma ExecutePlaces(s: Store, o: Order, reducing: bool, now: int)
    requires WfStore(s) && o.marketId in s.books && o.userId in s.users && o.qty > 0.0
    ensures Execute(s, o, reducing, now).Placed?
  {
  }

  /** What is offered to a forced close: every bid for a long, the asks up to twice the best for a short. */
  ghost function OfferedTo(s: Store, p: Position): real
    requires p.marketId in s.books
  {
    Offered(s, WholeAgainst(p, 0, 0))
  }

  lemma OfferedToAnyone(s: Store, p: Position, u: Uuid, id: Uuid)
    requires p.marketId in s.books
    ensures OfferedTo(s, p) == Offered(s, WholeAgainst(p, u, id))
  {
    hide Queue, Liquidity;
  }

  /** None of the account's own orders stands where its forced close would trade. */
  ghost predicate KeepsOutOfItsWay(s: Store, p: Position, u: Uuid)
    requires p.marketId in s.books
  {
    var b := s.books[p.marketId];
    if p.kind == LONG then forall q, r :: q in b.bids && r in b.bids[q].openOrders ==> r.userId != u
    else forall q, r, best :: BestOffer(b, LONG, best) && q in b.asks && q <= 2.0 * best && r in b.asks[q].openOrders ==> r.userId != u
  }

  lemma OutOfTheWay(s: Store, p: Position, u: Uuid, id: Uuid)
    requires p.marketId in s.books && KeepsOutOfItsWay(s, p, u)
    ensures var row := WholeAgainst(p, u, id); NoOwnOrders(Facing(s, row), row.(price := Band(s, row)))
  {
    hide BestOffer, Widened;
    var row, b := WholeAgainst(p, u, id), s.books[p.marketId];
    var facing := Facing(s, row);
    if facing != map[] {
      var best := BestPrice(Opposite(row.positionType), facing);
      ForcedCloseBound(p, u, id, best);
      OneBestOffer(b, row.positionType, best);
    }
  }

  /**
   * A forced close takes the position off if and only if the price liquidates it and the market offers
   * that much; the position is then recorded once as closed and exactly its margin is unlocked. This
   * holds of every account with free collateral that is not in its own way.
   */
  lemma ForcedCloseFlattensIff(sw: Sweep, u: Uuid, m: Uuid, price: real, id: Uuid, now: int)
    requires WfStore(sw.store) && u in sw.store.users && m in sw.store.books
    requires sw.store.users[u].available >= 0.0 && FindPosition(sw.store.users[u].positions, m) >= 0
    requires KeepsOutOfItsWay(sw.store, sw.store.users[u].positions[FindPosition(sw.store.users[u].positions, m)], u)
    ensures var s, next := sw.store, SweepOne(sw, u, m, price, id, now).store;
      var before := s.users[u];
      var p := before.positions[FindPosition(before.positions, m)];
      && u in next.users
      && (FindPosition(next.users[u].positions, m) < 0 <==> Liquidatable(p, price) && OfferedTo(s, p) >= p.qty)
      && (FindPosition(next.users[u].positions, m) < 0 ==>
            next.users[u].closedPositions == before.closedPositions + [p] && next.users[u].locked == before.locked - p.margin)
  {
    hide Place, WfStore, BestOffer, Offered, NoOwnOrders, SweepOne, Facing, Admit, Band;
    var s := sw.store;
    var i := FindPosition(s.users[u].positions, m);
    var p := s.users[u].positions[i];
    var row := WholeAgainst(p, u, id);
    KnownPositions(s, u);
    OneTurnOfTheSweep(sw, u, m, price, id, now);
    OfferedToAnyone(s, p, u, id);
    OutOfTheWay(s, p, u, id);
    assert Held(s, row) == i;
    if Liquidatable(p, price) {
      WholeCloseFlattensIff(s, row, now);
      AdmittedIffOffered(s, row);
      PlacedIffAdmitted(s, row, now);
    }
  }
}
