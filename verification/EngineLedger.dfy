/**
 * The collateral ledger. What an account owns is its free and its locked collateral together; one execution
 * changes the sum by the PnL its nettings book, whatever it locks, releases, rests or fills.
 */
module EngineLedger {
  import opened Exchange
  import opened Books
  import opened Positions
  import opened Matching
  import opened Engine

  function Sum(bs: seq<Booking>, u: Uuid): real {
    if bs == [] then 0.0
    else Sum(bs[..|bs| - 1], u) + if bs[|bs| - 1].userId == u then bs[|bs| - 1].pnl else 0.0
  }

  lemma SumPush(bs: seq<Booking>, b: Booking, u: Uuid)
    ensures Sum(bs + [b], u) == Sum(bs, u) + if b.userId == u then b.pnl else 0.0
  {
    assert (bs + [b])[..|bs|] == bs;
  }

  lemma {:induction false} SumConcat(a: seq<Booking>, b: seq<Booking>, u: Uuid)
    ensures Sum(a + b, u) == Sum(a, u) + Sum(b, u)
  {
    if b == [] {
      assert a + b == a;
    } else {
      assert (a + b)[..|a + b| - 1] == a + b[..|b| - 1];
      SumConcat(a, b[..|b| - 1], u);
    }
  }

  function Equity(users: map<Uuid, User>, u: Uuid): real {
    if u in users then users[u].available + users[u].locked else 0.0
  }

  /** The equity an account has gained is the PnL booked to it. */
  ghost predicate EquityIsBooked(users: map<Uuid, User>, bs: seq<Booking>, users': map<Uuid, User>, bs': seq<Booking>, u: Uuid) {
    Equity(users', u) - Sum(bs', u) == Equity(users, u) - Sum(bs, u)
  }

  lemma FillHeadBooksEquity(st: Progress, o: Order, u: Uuid)
    requires Ready(st, o) && !Done(st, o)
    ensures var next := FillHead(st, o); EquityIsBooked(st.users, st.bookings, next.users, next.bookings, u)
  {
    HeadIsKnown(st, o);
    var p, r := HeadPrice(st, o), Head(st, o);
    var trade := MakerTrade(r, Min(Unfilled(r), st.remaining), p);
    var maker := st.users[r.userId];
    NettingMovesEquityByPnl(maker, trade, p);
    SumPush(st.bookings, Booking(r.userId, Booked(maker, trade, p)), u);
  }

  lemma {:induction false} MatchBooksEquity(st: Progress, o: Order, u: Uuid)
    requires Ready(st, o)
    ensures var end := MatchFrom(st, o); EquityIsBooked(st.users, st.bookings, end.users, end.bookings, u)
    decreases Measure(st, o)
  {
    if !Done(st, o) {
      FillHeadReady(st, o);
      FillHeadProgresses(st, o);
      FillHeadBooksEquity(st, o, u);
      MatchBooksEquity(FillHead(st, o), o, u);
    }
  }

  lemma SettlingBooksEquity(st: Progress, o: Order, u: Uuid)
    requires o.qty > 0.0 && o.userId in st.users && WfUsers(st.users)
    ensures EquityIsBooked(st.users, st.bookings, UsersAfter(st, o), BookingsAfter(st, o), u)
  {
    if st.filled > 0.0 {
      var taker, trade := st.users[o.userId], TakerTrade(st, o);
      NettingMovesEquityByPnl(taker, trade, st.last);
      SumPush(st.bookings, Booking(o.userId, Booked(taker, trade, st.last)), u);
    }
  }

  /** Locking, filling and resting book nothing but the PnL of the nettings. */
  lemma ExecuteBooksEquity(s: Store, o: Order, reducing: bool, now: int, u: Uuid)
    requires WfStore(s) && o.marketId in s.books && o.userId in s.users && LegalRow(o)
    ensures var p := Execute(s, o, reducing, now);
      Equity(p.store.users, u) == Equity(s.users, u) + Sum(p.bookings, u)
  {
    var start := Start(s.books[o.marketId], LockFor(s.users, o, reducing), o);
    StartIsReady(s, o, reducing);
    MatchedIsReady(s, o, reducing);
    MatchBooksEquity(start, o, u);
    SettlingBooksEquity(Matched(s, o, reducing), o, u);
    assert Equity(start.users, u) == Equity(s.users, u);
  }

  ghost predicate OutcomeBooksEquity(s: Store, t: Store, bs: seq<Booking>, deposit: real, u: Uuid) {
    Equity(t.users, u) == Equity(s.users, u) + Sum(bs, u) + deposit
  }
}
