/**
 * Entry prices. Averages are weighted means of prices that were really traded at, rounded to cents; one
 * execution keeps all of them between the lowest and the highest price printed so far in their market.
 */
module EnginePrices {
  import opened Exchange
  import opened Rounding
  import opened Books
  import opened Positions
  import opened Matching
  import opened Engine
  import opened EngineSteps

  /** The prices printed in a market. */
  function Printed(tape: seq<Fill>, m: Uuid): set<real> {
    set f | f in tape && f.marketId == m :: f.price
  }

  ghost predicate Priced(users: map<Uuid, User>, m: Uuid, prints: set<real>) {
    forall u :: u in users ==> AveragesBetween(users[u].positions, m, prints)
  }

  lemma PrintedGrows(tape: seq<Fill>, more: seq<Fill>, m: Uuid)
    ensures Printed(tape + more, m) == Printed(tape, m) + Printed(more, m)
  {
  }

  lemma PricedByMore(users: map<Uuid, User>, m: Uuid, prints: set<real>, more: set<real>)
    requires Priced(users, m, prints) && prints <= more
    ensures Priced(users, m, more)
  {
    forall u | u in users ensures AveragesBetween(users[u].positions, m, more) {
      MorePrintsKeepAverages(users[u].positions, m, prints, more);
    }
  }

  lemma PricedMeans(users: map<Uuid, User>, m: Uuid, prints: set<real>, u: Uuid)
    requires Priced(users, m, prints) && u in users
    ensures AveragesBetween(users[u].positions, m, prints)
  {
  }

  lemma PricedWith(users: map<Uuid, User>, u: Uuid, user: User, m: Uuid, prints: set<real>)
    requires Priced(users, m, prints) && AveragesBetween(user.positions, m, prints)
    ensures Priced(users[u := user], m, prints)
  {
  }

  /** The running price total lies between two printed prices times the running quantity. */
  ghost predicate MeanBetween(total: real, filled: real, prints: set<real>) {
    && (exists a :: a in prints && a * filled <= total)
    && (exists b :: b in prints && total <= b * filled)
  }

  lemma ProductStep(a: real, filled: real, total: real, p: real, take: real)
    requires a * filled <= total && a <= p && take >= 0.0
    ensures a * (filled + take) <= total + p * take
  {
    NonNegativeProduct(take, p - a);
  }

  lemma ProductStepDown(b: real, filled: real, total: real, p: real, take: real)
    requires total <= b * filled && p <= b && take >= 0.0
    ensures total + p * take <= b * (filled + take)
  {
    NonNegativeProduct(take, b - p);
  }

  lemma LowerWitness(prints: set<real>, a: real, p: real, filled: real, total: real, take: real)
    requires a in prints && a * filled <= total && filled >= 0.0 && take >= 0.0
    ensures exists c :: c in prints + {p} && c * (filled + take) <= total + p * take
  {
    if a <= p {
      ProductStep(a, filled, total, p, take);
      assert a in prints + {p};
    } else {
      NonNegativeProduct(filled, a - p);
      assert p in prints + {p} && p * (filled + take) <= total + p * take;
    }
  }

  lemma UpperWitness(prints: set<real>, b: real, p: real, filled: real, total: real, take: real)
    requires b in prints && total <= b * filled && filled >= 0.0 && take >= 0.0
    ensures exists c :: c in prints + {p} && total + p * take <= c * (filled + take)
  {
    if p <= b {
      ProductStepDown(b, filled, total, p, take);
      assert b in prints + {p};
    } else {
      NonNegativeProduct(filled, p - b);
      assert p in prints + {p} && total + p * take <= p * (filled + take);
    }
  }

  lemma MeanStep(total: real, filled: real, prints: set<real>, p: real, take: real)
    requires MeanBetween(total, filled, prints) && filled >= 0.0 && take >= 0.0
    ensures MeanBetween(total + p * take, filled + take, prints + {p})
  {
    var a :| a in prints && a * filled <= total;
    var b :| b in prints && total <= b * filled;
    LowerWitness(prints, a, p, filled, total, take);
    UpperWitness(prints, b, p, filled, total, take);
  }

  lemma MeanOfFirst(p: real, take: real, prints: set<real>)
    ensures MeanBetween(p * take, take, prints + {p})
  {
    assert p in prints + {p};
  }

  lemma MeanIsBetween(total: real, filled: real, prints: set<real>)
    requires filled > 0.0 && MeanBetween(total, filled, prints)
    ensures Between(Round2(total / filled), prints)
  {
    var a :| a in prints && a * filled <= total;
    var b :| b in prints && total <= b * filled;
    DivBetween(total, filled, a, b);
    assert Below(a) <= total / filled <= Above(b);
    RoundedStaysBetween(total / filled, prints);
  }

  // ----- one match

  /** What a match maintains: entry prices in the band, and a band for the taker's own average. */
  ghost predicate MatchPriced(st: Progress, o: Order, m: Uuid, base: set<real>) {
    var prints := base + Printed(st.fills, m);
    && Priced(st.users, m, prints)
    && st.filled >= 0.0
    && (if st.filled == 0.0 then st.total == 0.0 else m == o.marketId ==> MeanBetween(st.total, st.filled, prints))
  }

  lemma PriceIsBetween(p: real, prints: set<real>)
    requires p in prints
    ensures Between(p, prints)
  {
    assert Below(p) <= p <= Above(p);
  }

  lemma PrintedAfterFill(fills: seq<Fill>, f: Fill, m: Uuid, base: set<real>)
    ensures base + Printed(fills + [f], m) == base + Printed(fills, m) + if f.marketId == m then {f.price} else {}
  {
    assert Printed([f], m) == if f.marketId == m then {f.price} else {};
    PrintedGrows(fills, [f], m);
  }

  lemma MeanAfterFill(total: real, filled: real, before: set<real>, p: real, take: real)
    requires filled >= 0.0 && take > 0.0
    requires if filled == 0.0 then total == 0.0 else MeanBetween(total, filled, before)
    ensures MeanBetween(total + p * take, filled + take, before + {p})
  {
    if filled == 0.0 {
      MeanOfFirst(p, take, before);
    } else {
      MeanStep(total, filled, before, p, take);
    }
  }

  /** The maker of one fill is re-priced within the prints once the fill itself is one of them. */
  lemma MakerPriced(st: Progress, o: Order, m: Uuid, before: set<real>)
    requires Ready(st, o) && !Done(st, o) && Priced(st.users, m, before)
    ensures Priced(FillHead(st, o).users, m, before + if m == o.marketId then {HeadPrice(st, o)} else {})
  {
    hide FillHead, CreatePosition, Ready, Done, AveragesBetween, Between, Priced;
    FillHeadTrades(st, o);
    var p, r := HeadPrice(st, o), Head(st, o);
    var trade := MakerTrade(r, Min(Unfilled(r), st.remaining), p);
    var prints := before + if m == o.marketId then {p} else {};
    PricedByMore(st.users, m, before, prints);
    PricedMeans(st.users, m, prints, r.userId);
    if m == o.marketId {
      PriceIsBetween(p, prints);
    }
    NettingKeepsAveragesBetween(st.users[r.userId], trade, p, m, prints);
    PricedWith(st.users, r.userId, CreatePosition(st.users[r.userId], trade, p), m, prints);
  }

  lemma FillPriced(st: Progress, o: Order, m: Uuid, base: set<real>)
    requires Ready(st, o) && !Done(st, o) && MatchPriced(st, o, m, base)
    ensures MatchPriced(FillHead(st, o), o, m, base)
  {
    hide FillHead, Priced, MeanBetween, CreatePosition, Printed, Ready, Done, WfPositions;
    FillHeadTrades(st, o);
    FillHeadExecutes(st, o);
    var p, r := HeadPrice(st, o), Head(st, o);
    var take := Min(Unfilled(r), st.remaining);
    var before := base + Printed(st.fills, m);
    PrintedAfterFill(st.fills, FillOf(Execution(Slot(p, r), take), o), m, base);
    MakerPriced(st, o, m, before);
    if m == o.marketId {
      MeanAfterFill(st.total, st.filled, before, p, take);
    }
    var next := FillHead(st, o);
    assert base + Printed(next.fills, m) == before + if m == o.marketId then {p} else {};
    assert next.filled == st.filled + take && next.total == st.total + p * take;
  }

  lemma {:induction false} MatchKeepsPriced(st: Progress, o: Order, m: Uuid, base: set<real>)
    requires Ready(st, o) && MatchPriced(st, o, m, base)
    ensures MatchPriced(MatchFrom(st, o), o, m, base)
    decreases Measure(st, o)
  {
    hide MatchPriced;
    if !Done(st, o) {
      FillHeadReady(st, o);
      FillHeadProgresses(st, o);
      FillPriced(st, o, m, base);
      MatchKeepsPriced(FillHead(st, o), o, m, base);
    }
  }

  lemma SettlingPriced(st: Progress, o: Order, m: Uuid, base: set<real>)
    requires o.qty > 0.0 && o.userId in st.users && WfUsers(st.users) && MatchPriced(st, o, m, base)
    ensures Priced(UsersAfter(st, o), m, base + Printed(st.fills, m))
  {
    if st.filled > 0.0 {
      if m == o.marketId {
        MeanIsBetween(st.total, st.filled, base + Printed(st.fills, m));
      }
      NettingKeepsAveragesBetween(st.users[o.userId], TakerTrade(st, o), st.last, m, base + Printed(st.fills, m));
    }
  }

  // ----- one step

  /** The tape grew by `fills` between `s` and `t`, and entry prices stayed within it. */
  ghost predicate KeepsPriced(s: Store, t: Store, fills: seq<Fill>, m: Uuid, base: set<real>) {
    Priced(s.users, m, base) ==> Priced(t.users, m, base + Printed(fills, m))
  }

  lemma ExecutePriced(s: Store, o: Order, reducing: bool, now: int, m: Uuid, base: set<real>)
    requires WfStore(s) && o.marketId in s.books && o.userId in s.users && LegalRow(o)
    ensures var p := Execute(s, o, reducing, now); KeepsPriced(s, p.store, p.fills, m, base)
  {
    if Priced(s.users, m, base) {
      var start := Start(s.books[o.marketId], LockFor(s.users, o, reducing), o);
      StartIsReady(s, o, reducing);
      MatchedIsReady(s, o, reducing);
      PricedByMore(s.users, m, base, base + Printed(start.fills, m));
      assert MatchPriced(start, o, m, base);
      MatchKeepsPriced(start, o, m, base);
      SettlingPriced(Matched(s, o, reducing), o, m, base);
    }
  }

  lemma KeepsPricedAddsUp(s: Store, t: Store, v: Store, fs: seq<Fill>, gs: seq<Fill>, m: Uuid, base: set<real>)
    requires KeepsPriced(s, t, fs, m, base) && KeepsPriced(t, v, gs, m, base + Printed(fs, m))
    ensures KeepsPriced(s, v, fs + gs, m, base)
  {
    PrintedGrows(fs, gs, m);
    assert base + Printed(fs, m) + Printed(gs, m) == base + Printed(fs + gs, m);
  }

  lemma NoFillsKeepPriced(s: Store, t: Store, m: Uuid, base: set<real>)
    requires Priced(s.users, m, base) ==> Priced(t.users, m, base)
    ensures KeepsPriced(s, t, [], m, base)
  {
    assert base + Printed([], m) == base;
  }

  lemma FundingPriced(s: Store, m: Uuid, base: set<real>)
    requires WfStore(s)
    ensures KeepsPriced(s, Funded(s), [], m, base)
  {
    WfStoreIsFundable(s);
    if Priced(s.users, m, base) {
      forall u | u in Funded(s).users ensures AveragesBetween(Funded(s).users[u].positions, m, base) {
        assert AveragesBetween(s.users[u].positions, m, base);
        assert forall i :: 0 <= i < |s.users[u].positions| ==>
          Funded(s).users[u].positions[i] == FundPosition(s.users[u].positions[i], s.books);
      }
    }
    NoFillsKeepPriced(s, Funded(s), m, base);
  }
}
