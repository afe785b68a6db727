/**
 * Net open interest. Every account's exposure in a market is its signed quantity there; one execution
 * moves the same amount from the makers to the taker, and nothing else moves any.
 */
module EngineLaws {
  import opened Exchange
  import opened Books
  import opened Positions
  import opened Matching
  import opened Engine
  import opened EngineBooks
  import opened EngineSteps

  // ----- open interest

  function NetExposure(ids: seq<Uuid>, users: map<Uuid, User>, m: Uuid): real
    requires forall u :: u in ids ==> u in users
  {
    if ids == [] then 0.0 else Exposure(users[ids[0]].positions, m) + NetExposure(ids[1..], users, m)
  }

  /** The open quantity on one side of a market, over all accounts. */
  function OpenInterest(ids: seq<Uuid>, users: map<Uuid, User>, m: Uuid, kind: PositionType): real
    requires forall u :: u in ids ==> u in users
  {
    if ids == [] then 0.0
    else
      var i := FindPosition(users[ids[0]].positions, m);
      (if i >= 0 && users[ids[0]].positions[i].kind == kind then users[ids[0]].positions[i].qty else 0.0)
      + OpenInterest(ids[1..], users, m, kind)
  }

  lemma {:induction false} NetIsLongMinusShort(ids: seq<Uuid>, users: map<Uuid, User>, m: Uuid)
    requires forall u :: u in ids ==> u in users
    ensures NetExposure(ids, users, m) == OpenInterest(ids, users, m, LONG) - OpenInterest(ids, users, m, SHORT)
  {
    if ids != [] {
      NetIsLongMinusShort(ids[1..], users, m);
    }
  }

  lemma {:induction false} NetExposureOfOthers(ids: seq<Uuid>, users: map<Uuid, User>, u: Uuid, v: User, m: Uuid)
    requires (forall w :: w in ids ==> w in users) && u !in ids
    ensures NetExposure(ids, users[u := v], m) == NetExposure(ids, users, m)
  {
    if ids != [] {
      assert ids[0] in ids;
      NetExposureOfOthers(ids[1..], users, u, v, m);
    }
  }

  lemma {:induction false} NetExposureAfterUpdate(ids: seq<Uuid>, users: map<Uuid, User>, u: Uuid, v: User, m: Uuid)
    requires Distinct(ids) && (forall w :: w in ids ==> w in users) && u in ids
    ensures NetExposure(ids, users[u := v], m)
      == NetExposure(ids, users, m) - Exposure(users[u].positions, m) + Exposure(v.positions, m)
  {
    assert Distinct(ids[1..]);
    if ids[0] == u {
      NetExposureOfOthers(ids[1..], users, u, v, m);
    } else {
      NetExposureAfterUpdate(ids[1..], users, u, v, m);
    }
  }

  lemma {:induction false} NetExposureCongruent(ids: seq<Uuid>, users: map<Uuid, User>, users': map<Uuid, User>, m: Uuid)
    requires forall u :: u in ids ==> u in users && u in users'
    requires forall u :: u in ids ==> Exposure(users'[u].positions, m) == Exposure(users[u].positions, m)
    ensures NetExposure(ids, users', m) == NetExposure(ids, users, m)
  {
    if ids != [] {
      assert ids[0] in ids;
      NetExposureCongruent(ids[1..], users, users', m);
    }
  }

  lemma {:induction false} NetExposureAppend(ids: seq<Uuid>, users: map<Uuid, User>, u: Uuid, m: Uuid)
    requires (forall w :: w in ids ==> w in users) && u in users
    ensures NetExposure(ids + [u], users, m) == NetExposure(ids, users, m) + Exposure(users[u].positions, m)
  {
    if ids == [] {
      assert ids + [u] == [u];
    } else {
      assert (ids + [u])[0] == ids[0] && (ids + [u])[1..] == ids[1..] + [u];
      NetExposureAppend(ids[1..], users, u, m);
    }
  }

  /** Members of the store's account list are its accounts. */
  ghost predicate Accounts(ids: seq<Uuid>, users: map<Uuid, User>) {
    Distinct(ids) && forall u :: u in ids <==> u in users
  }

  /** From `st` to `next` the makers took the other side of what the taker filled. */
  ghost predicate MakersTookOtherSide(ids: seq<Uuid>, st: Progress, next: Progress, o: Order, m: Uuid) {
    && Accounts(ids, st.users)
    && Accounts(ids, next.users)
    && NetExposure(ids, next.users, m) == NetExposure(ids, st.users, m)
      - if m == o.marketId then Signed(o.positionType, next.filled - st.filled) else 0.0
  }

  lemma OtherSideAddsUp(ids: seq<Uuid>, st: Progress, next: Progress, end: Progress, o: Order, m: Uuid)
    requires MakersTookOtherSide(ids, st, next, o, m) && MakersTookOtherSide(ids, next, end, o, m)
    ensures MakersTookOtherSide(ids, st, end, o, m)
  {
  }

  lemma FillHeadMovesExposure(ids: seq<Uuid>, st: Progress, o: Order, m: Uuid)
    requires Ready(st, o) && !Done(st, o) && Accounts(ids, st.users)
    ensures MakersTookOtherSide(ids, st, FillHead(st, o), o, m)
  {
    HeadIsKnown(st, o);
    FillHeadReady(st, o);
    var p, r := HeadPrice(st, o), Head(st, o);
    var trade := MakerTrade(r, Min(Unfilled(r), st.remaining), p);
    var maker := CreatePosition(st.users[r.userId], trade, p);
    NettingAddsSignedQuantity(st.users[r.userId], trade, p, m);
    NetExposureAfterUpdate(ids, st.users, r.userId, maker, m);
  }

  /** While an order matches, the makers together take the other side of all it has filled. */
  lemma {:induction false} MatchMovesExposure(ids: seq<Uuid>, st: Progress, o: Order, m: Uuid)
    requires Ready(st, o) && Accounts(ids, st.users)
    ensures MakersTookOtherSide(ids, st, MatchFrom(st, o), o, m)
    decreases Measure(st, o)
  {
    if !Done(st, o) {
      FillHeadReady(st, o);
      FillHeadProgresses(st, o);
      FillHeadMovesExposure(ids, st, o, m);
      var next := FillHead(st, o);
      MatchMovesExposure(ids, next, o, m);
      OtherSideAddsUp(ids, st, next, MatchFrom(next, o), o, m);
    }
  }

  lemma SettlingBalancesExposure(ids: seq<Uuid>, st: Progress, o: Order, m: Uuid)
    requires o.qty > 0.0 && o.userId in st.users && WfUsers(st.users) && Accounts(ids, st.users) && st.filled >= 0.0
    ensures Accounts(ids, UsersAfter(st, o))
    ensures NetExposure(ids, UsersAfter(st, o), m) == NetExposure(ids, st.users, m)
      + if m == o.marketId then Signed(o.positionType, st.filled) else 0.0
  {
    if st.filled > 0.0 {
      var u := st.users[o.userId];
      NettingAddsSignedQuantity(u, TakerTrade(st, o), st.last, m);
      NetExposureAfterUpdate(ids, st.users, o.userId, CreatePosition(u, TakerTrade(st, o), st.last), m);
    }
  }

  lemma ExecuteBalancesExposure(s: Store, o: Order, reducing: bool, now: int, m: Uuid)
    requires WfStore(s) && o.marketId in s.books && o.userId in s.users && LegalRow(o)
    ensures var t := Execute(s, o, reducing, now).store;
      Accounts(t.userIds, t.users) && NetExposure(t.userIds, t.users, m) == NetExposure(s.userIds, s.users, m)
  {
    var locked := LockFor(s.users, o, reducing);
    var start := Start(s.books[o.marketId], locked, o);
    StartIsReady(s, o, reducing);
    MatchedIsReady(s, o, reducing);
    MatchedQuantities(s, o, reducing);
    NetExposureCongruent(s.userIds, s.users, locked, m);
    MatchMovesExposure(s.userIds, start, o, m);
    SettlingBalancesExposure(s.userIds, Matched(s, o, reducing), o, m);
  }

  ghost predicate SameExposure(s: Store, t: Store, m: Uuid) {
    && Accounts(s.userIds, s.users)
    && Accounts(t.userIds, t.users)
    && NetExposure(t.userIds, t.users, m) == NetExposure(s.userIds, s.users, m)
  }

  lemma SameExposureAtStart(s: Store, m: Uuid)
    requires WfStore(s)
    ensures SameExposure(s, s, m)
  {
  }

  lemma SameExposureAddsUp(s: Store, t: Store, v: Store, m: Uuid)
    requires SameExposure(s, t, m) && SameExposure(t, v, m)
    ensures SameExposure(s, v, m)
  {
  }

  lemma FundingKeepsExposure(ps: seq<Position>, books: map<Uuid, Book>, m: Uuid)
    requires Fundable(ps, books)
    ensures Exposure(FundPositions(ps, books), m) == Exposure(ps, m)
  {
    var qs := FundPositions(ps, books);
    forall i | 0 <= i < |ps| ensures qs[i].marketId == ps[i].marketId && qs[i].kind == ps[i].kind && qs[i].qty == ps[i].qty {
      assert qs[i] == FundPosition(ps[i], books);
    }
    var i := FindPosition(ps, m);
    if i >= 0 {
      assert WfPositions(qs);
      FindUnique(qs, m, i);
    }
  }

  lemma FundingBalancesExposure(s: Store, m: Uuid)
    requires WfStore(s)
    ensures SameExposure(s, Funded(s), m)
  {
    WfStoreIsFundable(s);
    forall u | u in s.userIds ensures Exposure(Funded(s).users[u].positions, m) == Exposure(s.users[u].positions, m) {
      FundingKeepsExposure(s.users[u].positions, s.books, m);
    }
    NetExposureCongruent(s.userIds, s.users, Funded(s).users, m);
  }

  lemma WithUserAddsNoExposure(s: Store, u: Uuid, m: Uuid)
    requires WfStore(s)
    ensures SameExposure(s, WithUser(s, u), m)
  {
    WithUserKeepsWf(s, u);
    if u !in s.users {
      NetExposureAppend(s.userIds, WithUser(s, u).users, u, m);
      NetExposureOfOthers(s.userIds, s.users, u, NewUser, m);
    }
  }

  lemma DepositAddsNoExposure(s: Store, u: Uuid, amount: real, m: Uuid)
    requires WfStore(s)
    ensures SameExposure(s, Deposited(s, u, amount), m)
  {
    WithUserAddsNoExposure(s, u, m);
    NetExposureCongruent(WithUser(s, u).userIds, WithUser(s, u).users, Deposited(s, u, amount).users, m);
  }

  lemma CancelBalancesExposure(s: Store, row: Order, m: Uuid)
    requires WfStore(s) && CancelIndex(s, row) >= 0
    ensures SameExposure(s, AfterCancel(s, row), m)
  {
    NetExposureCongruent(s.userIds, s.users, AfterCancel(s, row).users, m);
  }

  // ----- what funding moves

  /** The margin behind all open positions of a market. */
  function TotalMargin(ids: seq<Uuid>, users: map<Uuid, User>, m: Uuid): real
    requires forall u :: u in ids ==> u in users
  {
    if ids == [] then 0.0
    else
      var i := FindPosition(users[ids[0]].positions, m);
      (if i >= 0 then users[ids[0]].positions[i].margin else 0.0) + TotalMargin(ids[1..], users, m)
  }

  /** What one unit of long quantity pays in a market. */
  function FundingPerUnit(b: Book): real
    requires b.indexPrice != 0.0
  {
    b.lastTradedPrice * ((b.lastTradedPrice - b.indexPrice) / b.indexPrice)
  }

  function Payment(exposure: real, unit: real): real {
    exposure * unit
  }

  lemma FundingPays(p: Position, books: map<Uuid, Book>)
    requires p.qty > 0.0 && p.marketId in books && books[p.marketId].indexPrice != 0.0
    ensures FundPosition(p, books).margin == p.margin - Payment(Signed(p.kind, p.qty), FundingPerUnit(books[p.marketId]))
  {
    var b := books[p.marketId];
    var rate := (b.lastTradedPrice - b.indexPrice) / b.indexPrice;
    assert p.qty * b.lastTradedPrice * rate == p.qty * (b.lastTradedPrice * rate);
  }

  lemma AccountPays(ps: seq<Position>, books: map<Uuid, Book>, m: Uuid)
    requires Fundable(ps, books) && m in books
    ensures var i := FindPosition(ps, m);
      FindPosition(FundPositions(ps, books), m) == i
      && (i >= 0 ==> FundPositions(ps, books)[i].margin == ps[i].margin - Payment(Exposure(ps, m), FundingPerUnit(books[m])))
      && (i < 0 ==> Exposure(ps, m) == 0.0)
  {
    hide FundPosition, FundingPerUnit, Payment;
    var qs, i := FundPositions(ps, books), FindPosition(ps, m);
    forall j | 0 <= j < |ps| ensures qs[j].marketId == ps[j].marketId && qs[j].qty == ps[j].qty {
      FundingKeepsSize(ps[j], books);
    }
    if i >= 0 {
      assert WfPositions(qs);
      FindUnique(qs, m, i);
      FundingPays(ps[i], books);
    }
  }

  lemma FundingKeepsSize(p: Position, books: map<Uuid, Book>)
    requires p.qty > 0.0 && (p.marketId in books ==> books[p.marketId].indexPrice != 0.0)
    ensures var q := FundPosition(p, books); q.marketId == p.marketId && q.kind == p.kind && q.qty == p.qty
  {
  }

  lemma PaymentsAdd(a: real, b: real, unit: real)
    ensures Payment(a, unit) + Payment(b, unit) == Payment(a + b, unit) && Payment(0.0, unit) == 0.0
  {
  }

  lemma FundedPositions(s: Store, u: Uuid)
    requires WfStore(s) && u in s.users
    ensures Fundable(s.users[u].positions, s.books) && u in Funded(s).users
    ensures Funded(s).users[u].positions == FundPositions(s.users[u].positions, s.books)
  {
    WfStoreIsFundable(s);
  }

  /** Funding takes from the margin of a market what its net open interest pays, and nothing more. */
  lemma {:induction false} FundingTakesNetExposure(ids: seq<Uuid>, s: Store, m: Uuid)
    requires WfStore(s) && m in s.books && s.books[m].indexPrice != 0.0 && forall u :: u in ids ==> u in s.users
    ensures forall u :: u in ids ==> u in Funded(s).users
    ensures TotalMargin(ids, Funded(s).users, m)
      == TotalMargin(ids, s.users, m) - Payment(NetExposure(ids, s.users, m), FundingPerUnit(s.books[m]))
  {
    hide FundingPerUnit, Exposure, WfStore, Payment, Funded, Fundable, FundPositions;
    forall u | u in ids ensures u in Funded(s).users {
      FundedPositions(s, u);
    }
    if ids == [] {
      PaymentsAdd(0.0, 0.0, FundingPerUnit(s.books[m]));
    } else {
      assert ids[0] in ids;
      var ps := s.users[ids[0]].positions;
      FundedPositions(s, ids[0]);
      FundingTakesNetExposure(ids[1..], s, m);
      AccountPays(ps, s.books, m);
      PaymentsAdd(Exposure(ps, m), NetExposure(ids[1..], s.users, m), FundingPerUnit(s.books[m]));
      PaymentsAdd(0.0, 0.0, FundingPerUnit(s.books[m]));
    }
  }
}
