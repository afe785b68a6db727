/** Deposits, queries and funding, account by account. */
module EngineAccounts {
  import opened Exchange
  import opened Rounding
  import opened Books
  import opened Positions
  import opened Matching
  import opened Engine
  import opened EngineSteps
  import opened EngineLaws
  import opened PositionWorth

  // ----- deposits and queries

  /** An account as it is, or empty if there is none yet. */
  function Account(s: Store, u: Uuid): User {
    if u in s.users then s.users[u] else User(0.0, 0.0, [], [])
  }

  /** From `s` to `t` nothing but the account `u` changed; it is there now, last if it is new. */
  ghost predicate OnlyAccount(s: Store, t: Store, u: Uuid, v: User) {
    && t.books == s.books && t.lastUpdateId == s.lastUpdateId
    && t.users == s.users[u := v]
    && t.userIds == if u in s.users then s.userIds else s.userIds + [u]
  }

  /** A deposit is all free collateral of its account, which is told; asking for a balance opens an empty account. */
  lemma DepositsAreFree(s: Store, u: Uuid, amount: real)
    requires WfStore(s)
    ensures var out := Step(s, Onramp(u, amount));
      && OnlyAccount(s, out.store, u, Account(s, u).(available := Account(s, u).available + amount))
      && out.reply == Replied(Balance(u, Account(s, u).available + amount), None, None,
           [Addressed(u, BalanceNow(Account(s, u).available + amount, Account(s, u).locked))])
    ensures var out := Step(s, InitBalance(u));
      OnlyAccount(s, out.store, u, Account(s, u)) && out.reply == Replied(Balance(u, Account(s, u).available), None, None, [])
    ensures var out := Step(s, GetBalances(u));
      OnlyAccount(s, out.store, u, Account(s, u))
      && out.reply == Replied(Balances(Account(s, u).available, Account(s, u).locked), None, None, [])
  {
    assert u in s.users ==> s.users[u := s.users[u]] == s.users;
  }

  lemma {:induction false} InMarketCounts(ps: seq<Position>, m: Uuid, p: Position)
    ensures multiset(InMarket(ps, m))[p] == if p.marketId == m then multiset(ps)[p] else 0
  {
    if ps != [] {
      InMarketCounts(ps[1..], m, p);
      assert ps == [ps[0]] + ps[1..];
    }
  }

  /** What is closed later is listed later. */
  lemma {:induction false} InMarketPush(ps: seq<Position>, m: Uuid, p: Position)
    ensures InMarket(ps + [p], m) == InMarket(ps, m) + (if p.marketId == m then [p] else [])
  {
    if ps == [] {
      assert [p][1..] == [];
    } else {
      assert (ps + [p])[0] == ps[0] && (ps + [p])[1..] == ps[1..] + [p];
      InMarketPush(ps[1..], m, p);
      var head, last := if ps[0].marketId == m then [ps[0]] else [], if p.marketId == m then [p] else [];
      assert head + (InMarket(ps[1..], m) + last) == head + InMarket(ps[1..], m) + last;
    }
  }

  lemma {:induction false} NoneInMarket(ps: seq<Position>, m: Uuid)
    requires forall i :: 0 <= i < |ps| ==> ps[i].marketId != m
    ensures InMarket(ps, m) == []
  {
    if ps != [] {
      NoneInMarket(ps[1..], m);
    }
  }

  lemma {:induction false} OneInMarket(ps: seq<Position>, m: Uuid)
    requires WfPositions(ps)
    ensures var i := FindPosition(ps, m); InMarket(ps, m) == if i < 0 then [] else [ps[i]]
  {
    if ps != [] {
      if ps[0].marketId == m {
        NoneInMarket(ps[1..], m);
      } else {
        OneInMarket(ps[1..], m);
      }
    }
  }

  /** A query changes nothing; it lists the one position held in the market, or none, or all that were closed there. */
  lemma QueriesListTheMarket(s: Store, u: Uuid, m: Uuid)
    requires WfStore(s)
    ensures var out, held := Step(s, GetOpenPositions(u, m)), Account(s, u).positions;
      && out.store == s && out.reply.Replied? && out.reply.backend.PositionList?
      && |out.reply.backend.positions| <= 1 && forall p :: p in out.reply.backend.positions <==> p in held && p.marketId == m
    ensures var out, closed := Step(s, GetClosedPositions(u, m)), Account(s, u).closedPositions;
      && out.store == s && out.reply.Replied? && out.reply.backend.PositionList?
      && forall p :: multiset(out.reply.backend.positions)[p] == if p.marketId == m then multiset(closed)[p] else 0
  {
    hide InMarket;
    var account := Account(s, u);
    assert WfPositions(account.positions);
    OneInMarket(account.positions, m);
    OneInMarket([], m);
    NoneInMarket([], m);
    forall p ensures multiset(InMarket(account.closedPositions, m))[p] == if p.marketId == m then multiset(account.closedPositions)[p] else 0 {
      InMarketCounts(account.closedPositions, m, p);
    }
  }

  // ----- funding

  /**
   * A dispersal takes from a long, and gives to a short, its size at the last price times the premium of
   * the last price over the index; nothing else of the position changes but what liquidates it, which is
   * then its loss of 99% of the margin it is left with, whatever it was before.
   */
  lemma FundingFollowsThePremium(s: Store, u: Uuid, i: nat)
    requires WfStore(s) && u in s.users && i < |s.users[u].positions| && s.users[u].positions[i].marketId in s.books
    ensures u in Funded(s).users && i < |Funded(s).users[u].positions|
    ensures var p, q, b := s.users[u].positions[i], Funded(s).users[u].positions[i], s.books[s.users[u].positions[i].marketId];
      && q == p.(margin := q.margin, liquidationPrice := q.liquidationPrice)
      && b.indexPrice != 0.0
      && q.margin == p.margin - Signed(p.kind, p.qty) * Premium(b.lastTradedPrice, b.indexPrice)
      && LiquidatedAtItsLoss(q)
  {
    hide LiquidationPrice, LiquidatedAtItsLoss;
    WfStoreIsFundable(s);
    FundedPositions(s, u);
    var p, q := s.users[u].positions[i], Funded(s).users[u].positions[i];
    assert q == FundPosition(p, s.books);
    assert WfPositions(s.users[u].positions);
    LiquidatedAt(q, q.kind);
    var b := s.books[p.marketId];
    PremiumPays(p.qty, b.lastTradedPrice, b.indexPrice);
  }

  /** What one unit pays: the last price times how far it is above the index, in parts of the index. */
  function Premium(last: real, index: real): real
    requires index != 0.0
  {
    last * ((last - index) / index)
  }

  lemma PremiumPays(qty: real, last: real, index: real)
    requires index != 0.0
    ensures qty * last * ((last - index) / index) == qty * Premium(last, index)
    ensures -(qty * Premium(last, index)) == -qty * Premium(last, index)
  {
  }

  lemma PremiumSign(last: real, index: real)
    requires last > 0.0 && index > 0.0
    ensures Premium(last, index) > 0.0 <==> last > index
  {
    var x := (last - index) / index;
    assert x * index == last - index;
    SameSign(last, x);
    if x > 0.0 {
      SameSign(index, x);
    } else {
      NonNegativeProduct(-x, index);
    }
  }

  /** So where the last price is above the index every long pays and every short gains. */
  lemma LongsPayIff(s: Store, u: Uuid, i: nat)
    requires WfStore(s) && u in s.users && i < |s.users[u].positions| && s.users[u].positions[i].marketId in s.books
    requires var b := s.books[s.users[u].positions[i].marketId]; b.lastTradedPrice > 0.0 && b.indexPrice > 0.0
    ensures u in Funded(s).users && i < |Funded(s).users[u].positions|
    ensures var p, q, b := s.users[u].positions[i], Funded(s).users[u].positions[i], s.books[s.users[u].positions[i].marketId];
      (if p.kind == LONG then q.margin < p.margin else q.margin > p.margin) <==> b.lastTradedPrice > b.indexPrice
  {
    hide Funded, Premium, LiquidatedAtItsLoss;
    FundingFollowsThePremium(s, u, i);
    assert WfPositions(s.users[u].positions);
    var p, b := s.users[u].positions[i], s.books[s.users[u].positions[i].marketId];
    PremiumSign(b.lastTradedPrice, b.indexPrice);
    SameSign(p.qty, Premium(b.lastTradedPrice, b.indexPrice));
    NegativeTimes(p.qty, Premium(b.lastTradedPrice, b.indexPrice));
  }

  lemma NegativeTimes(x: real, y: real)
    ensures -x * y == -(x * y)
  {
  }

  // ----- what a fill does with a resting order's margin

  /**
   * A fill of a resting order puts behind the maker's trade the margin's share by the order's whole size,
   * and leaves with the order its share by what was left of it.
   */
  lemma FillSplitsMargin(r: OpenOrder, take: real, p: real)
    requires r.qty > 0.0 && r.filledQty < r.qty
    ensures MakerTrade(r, take, p) == Trade(r.marketId, r.positionType, take, Share(r.margin, r.qty, take), p)
    ensures Hit(r, take).margin == Share(r.margin, Unfilled(r), Unfilled(r) - take)
  {
    ShareIs(r.margin, r.qty, take);
    ShareIs(r.margin, Unfilled(r), Unfilled(r) - take);
  }

  /** Before rounding the two are the order's margin if and only if it had not traded before, or has no margin. */
  lemma FillKeepsMarginIff(margin: real, qty: real, unfilled: real, take: real)
    requires qty > 0.0 && unfilled > 0.0 && take > 0.0
    ensures margin / qty * take + margin / unfilled * (unfilled - take) == margin <==> qty == unfilled || margin == 0.0
  {
    var a, b := margin / qty, margin / unfilled;
    assert a * qty == margin && b * unfilled == margin;
    assert b * (unfilled - take) == margin - b * take;
    Scale(take, a, b);
    assert a * take == take * a && b * take == take * b;
    if a == b {
      SameProduct(a, qty, unfilled);
    } else if margin == 0.0 {
      Scale(qty, a, 0.0);
      Scale(unfilled, b, 0.0);
    }
  }

  lemma SameProduct(a: real, x: real, y: real)
    requires a * x == a * y
    ensures a == 0.0 || x == y
  {
    if a != 0.0 {
      Scaled(a, x, y);
    }
  }

  /** An order for 10 with a margin of 100, hit twice for 5: 75 end up behind the position, and 25 behind nothing. */
  lemma SecondFillLosesMargin(r: OpenOrder, p: real)
    requires r.qty == 10.0 && r.filledQty == 0.0 && r.margin == 100.0
    ensures MakerTrade(r, 5.0, p).margin == 50.0 && Hit(r, 5.0).filledQty == 5.0 && Hit(r, 5.0).qty == 10.0
    ensures MakerTrade(Hit(r, 5.0), 5.0, p).margin == 25.0 && Hit(Hit(r, 5.0), 5.0).margin == 0.0
  {
  }
}
