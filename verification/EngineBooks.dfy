/**
 * Well-formed, uncrossed books are kept by placing and by cancelling: totals stay exact, no level stays
 * empty, and what rests has no price left to trade at.
 */
module EngineBooks {
  import opened Exchange
  import opened Sequences
  import opened Books
  import opened Matching
  import opened Engine

  lemma FillHeadQuantities(st: Progress, o: Order)
    requires Ready(st, o) && !Done(st, o)
    ensures var next := FillHead(st, o);
      && next.filled + next.remaining == st.filled + st.remaining
      && next.filled > st.filled
      && next.remaining >= 0.0
      && next.levels.Keys <= st.levels.Keys
  {
    HeadIsKnown(st, o);
  }

  /** What trades and what is left always add up to the order, and no price level appears. */
  lemma {:induction false} MatchKeepsQuantities(st: Progress, o: Order)
    requires Ready(st, o) && st.remaining >= 0.0
    ensures var end := MatchFrom(st, o);
      && end.filled + end.remaining == st.filled + st.remaining
      && end.filled >= st.filled
      && end.remaining >= 0.0
      && end.levels.Keys <= st.levels.Keys
    decreases Measure(st, o)
  {
    if !Done(st, o) {
      FillHeadReady(st, o);
      FillHeadProgresses(st, o);
      FillHeadQuantities(st, o);
      MatchKeepsQuantities(FillHead(st, o), o);
    }
  }

  /** An order with something left over has no acceptable price left to trade at. */
  lemma LeftoverCannotTrade(st: Progress, o: Order)
    requires Ready(st, o) && Done(st, o) && st.remaining > 0.0
    ensures forall p :: p in st.levels ==> !Acceptable(Opposite(o.positionType), p, o.price)
  {
  }

  lemma AppendKeepsWf(levels: Levels, p: real, o: OpenOrder, users: map<Uuid, User>)
    requires WfLevels(levels, o.positionType, o.marketId) && OwnersKnown(levels, users)
    requires p > 0.0 && 0.0 <= o.filledQty < o.qty && o.userId in users
    ensures WfLevels(Append(levels, p, o), o.positionType, o.marketId)
    ensures OwnersKnown(Append(levels, p, o), users)
    ensures Append(levels, p, o).Keys == levels.Keys + {p}
  {
    var kind, m := o.positionType, o.marketId;
    var after := Append(levels, p, o);
    var os := after[p].openOrders;
    assert WfLevel(after[p], kind, m) by {
      if p in levels {
        var before := levels[p].openOrders;
        assert WfLevel(levels[p], kind, m);
        RemainingConcat(before, [o]);
        assert forall i :: 0 <= i < |before| ==> os[i] == before[i];
        assert Remaining([o]) == Unfilled(o);
      }
    }
    forall q, r | q in after && r in after[q].openOrders ensures r.userId in users {
      if q == p {
        assert r == o || (p in levels && r in levels[p].openOrders);
      }
    }
  }

  lemma BookAfterSides(b: Book, st: Progress, o: Order, now: int, users: map<Uuid, User>)
    requires o.qty > 0.0 && Ready(st, o) && st.users.Keys == users.Keys && o.userId in users
    requires SideWf(b, o.positionType, o.marketId, users)
    requires o.orderType == Limit ==> o.price > 0.0
    requires st.filled + st.remaining == o.qty && 0.0 <= st.filled
    ensures var after := BookAfter(b, st, o, now);
      && SideWf(after, o.positionType, o.marketId, users)
      && SideWf(after, Opposite(o.positionType), o.marketId, users)
      && Side(after, Opposite(o.positionType)).Keys == st.levels.Keys
      && Side(after, o.positionType).Keys == Side(b, o.positionType).Keys
           + (if st.remaining > 0.0 && o.orderType == Limit then {o.price} else {})
  {
    if st.remaining > 0.0 && o.orderType == Limit {
      AppendKeepsWf(Side(b, o.positionType), o.price, RestingOrder(st, o, now), users);
    }
  }

  lemma BookAfterWf(b: Book, st: Progress, o: Order, now: int, users: map<Uuid, User>)
    requires o.qty > 0.0 && Ready(st, o) && Done(st, o) && st.users.Keys == users.Keys && o.userId in users
    requires WfBook(b, o.marketId, users)
    requires o.orderType == Limit ==> o.price > 0.0
    requires st.filled + st.remaining == o.qty && 0.0 <= st.filled
    requires st.levels.Keys <= Side(b, Opposite(o.positionType)).Keys
    ensures WfBook(BookAfter(b, st, o, now), o.marketId, users)
  {
    assert SideWf(b, o.positionType, o.marketId, users);
    BookAfterSides(b, st, o, now, users);
    var after := BookAfter(b, st, o, now);
    if st.remaining > 0.0 {
      LeftoverCannotTrade(st, o);
    }
    forall p, q | p in after.bids && q in after.asks ensures p < q {
      assert p in b.bids || p == o.price;
      assert q in b.asks || q == o.price;
    }
    forall kind ensures SideWf(after, kind, o.marketId, users) {
      assert kind == o.positionType || kind == Opposite(o.positionType);
    }
  }

  lemma WfBooksAfterUpdate(books: map<Uuid, Book>, users: map<Uuid, User>, m: Uuid, b: Book, users': map<Uuid, User>)
    requires WfBooks(books, users) && users'.Keys == users.Keys && WfBook(b, m, users)
    ensures WfBooks(books[m := b], users')
  {
    var after := books[m := b];
    forall n | n in after ensures WfBook(after[n], n, users') {
      var c := after[n];
      assert WfBook(c, n, users);
      forall kind ensures SideWf(c, kind, n, users') {
        assert SideWf(c, kind, n, users);
      }
    }
  }

  lemma MatchedQuantities(s: Store, o: Order, reducing: bool)
    requires WfStore(s) && o.marketId in s.books && o.userId in s.users && o.qty > 0.0
    ensures var st := Matched(s, o, reducing);
      && st.filled + st.remaining == o.qty && 0.0 <= st.filled && 0.0 <= st.remaining
      && st.levels.Keys <= Side(s.books[o.marketId], Opposite(o.positionType)).Keys
  {
    StartIsReady(s, o, reducing);
    MatchKeepsQuantities(Start(s.books[o.marketId], LockFor(s.users, o, reducing), o), o);
  }

  lemma ExecuteKeepsWf(s: Store, o: Order, reducing: bool, now: int)
    requires WfStore(s) && o.marketId in s.books && o.userId in s.users && LegalRow(o)
    ensures WfStore(Execute(s, o, reducing, now).store)
    ensures var t := Execute(s, o, reducing, now).store;
      t.users.Keys == s.users.Keys && t.userIds == s.userIds && t.books.Keys == s.books.Keys
      && t.lastUpdateId == s.lastUpdateId
  {
    var b, st := s.books[o.marketId], Matched(s, o, reducing);
    MatchedIsReady(s, o, reducing);
    MatchedQuantities(s, o, reducing);
    BookAfterWf(b, st, o, now, s.users);
    WfBooksAfterUpdate(s.books, s.users, o.marketId, BookAfter(b, st, o, now), UsersAfter(st, o));
  }

  /** Accepted or refused, an order leaves a well-formed store whose books are uncrossed. */
  lemma PlaceKeepsWf(s: Store, row: Order, now: int)
    requires WfStore(s) && LegalRow(row)
    ensures var p := Place(s, row, now); p.Placed? ==>
      && WfStore(p.store)
      && p.store.users.Keys == s.users.Keys && p.store.userIds == s.userIds && p.store.books.Keys == s.books.Keys
      && p.store.lastUpdateId == s.lastUpdateId
  {
    if Admit(s, row).Admitted? {
      AdmittedKeepsIdentity(s, row);
      ExecuteKeepsWf(s, Admit(s, row).order, Admit(s, row).reducing, now);
    }
  }

  lemma WithoutOrderKeepsWf(levels: Levels, p: real, i: nat, kind: PositionType, m: Uuid, users: map<Uuid, User>)
    requires WfLevels(levels, kind, m) && OwnersKnown(levels, users)
    requires p in levels && i < |levels[p].openOrders|
    ensures WfLevels(WithoutOrder(levels, p, i), kind, m)
    ensures OwnersKnown(WithoutOrder(levels, p, i), users)
    ensures WithoutOrder(levels, p, i).Keys <= levels.Keys
  {
    var os := levels[p].openOrders;
    assert WfLevel(levels[p], kind, m) && Resting(os[i], kind, m);
    HeadLevelStaysWf(levels[p], i, Unfilled(os[i]), kind, m);
    var after := WithoutOrder(levels, p, i);
    forall q, r | q in after && r in after[q].openOrders ensures r.userId in users {
      if q == p {
        assert r in RemoveAt(os, i);
        assert r in os;
      }
    }
  }

  /** A cancel takes out one order and nothing else, and its level when it was the last one there. */
  lemma CancelKeepsWf(s: Store, row: Order)
    requires WfStore(s) && CancelIndex(s, row) >= 0
    ensures WfStore(AfterCancel(s, row))
  {
    var b := s.books[row.marketId];
    assert WfBook(b, row.marketId, s.users);
    assert SideWf(b, row.positionType, row.marketId, s.users);
    WithoutOrderKeepsWf(Side(b, row.positionType), row.price, CancelIndex(s, row), row.positionType, row.marketId, s.users);
    var after := WithSide(b, row.positionType, WithoutOrder(Side(b, row.positionType), row.price, CancelIndex(s, row)));
    assert SideWf(b, Opposite(row.positionType), row.marketId, s.users);
    forall kind ensures SideWf(after, kind, row.marketId, s.users) {
      assert kind == row.positionType || kind == Opposite(row.positionType);
    }
    WfBooksAfterUpdate(s.books, s.users, row.marketId, after, AfterCancel(s, row).users);
  }
}
