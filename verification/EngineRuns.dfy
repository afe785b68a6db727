/** The laws every run of the engine obeys. */
module EngineRuns {
  import opened Exchange
  import opened Rounding
  import opened Positions
  import opened Matching
  import opened Engine
  import opened EngineSteps
  import opened EngineLaws
  import opened EngineLedger
  import opened EnginePrices
  import opened EnginePrints

  /**
   * What lies between two states, seen for one account, one market and the prices printed there before:
   * net open interest is where it was, the account gained what was booked and deposited, and entry
   * prices stay within what was printed before and meanwhile.
   */
  ghost predicate Lawful(s: Store, t: Store, bs: seq<Booking>, fills: seq<Fill>, deposit: real, u: Uuid, m: Uuid, base: set<real>) {
    SameExposure(s, t, m) && OutcomeBooksEquity(s, t, bs, deposit, u) && KeepsPriced(s, t, fills, m, base)
  }

  /** A change without trades: only what it does to exposure, equity and entry prices counts. */
  lemma QuietIsLawful(s: Store, t: Store, deposit: real, u: Uuid, m: Uuid, base: set<real>)
    requires SameExposure(s, t, m) && Equity(t.users, u) == Equity(s.users, u) + deposit
    requires Priced(s.users, m, base) ==> Priced(t.users, m, base)
    ensures Lawful(s, t, [], [], deposit, u, m, base)
  {
    NoFillsKeepPriced(s, t, m, base);
  }

  lemma SameAccountsAreLawful(s: Store, t: Store, u: Uuid, m: Uuid, base: set<real>)
    requires WfStore(s) && t.users == s.users && t.userIds == s.userIds
    ensures Lawful(s, t, [], [], 0.0, u, m, base)
  {
    SameExposureAtStart(s, m);
    NoFillsKeepPriced(s, t, m, base);
  }

  lemma LawfulThen(s: Store, t: Store, v: Store, bs: seq<Booking>, cs: seq<Booking>, fs: seq<Fill>, gs: seq<Fill>,
                   deposit: real, more: real, u: Uuid, m: Uuid, base: set<real>)
    requires Lawful(s, t, bs, fs, deposit, u, m, base) && Lawful(t, v, cs, gs, more, u, m, base + Printed(fs, m))
    ensures Lawful(s, v, bs + cs, fs + gs, deposit + more, u, m, base)
  {
    hide SameExposure, KeepsPriced;
    SameExposureAddsUp(s, t, v, m);
    SumConcat(bs, cs, u);
    KeepsPricedAddsUp(s, t, v, fs, gs, m, base);
  }

  /** The same states further on: only accounts matter to the laws. */
  lemma LawfulUpTo(s: Store, t: Store, v: Store, bs: seq<Booking>, fs: seq<Fill>, deposit: real, u: Uuid, m: Uuid, base: set<real>)
    requires Lawful(s, t, bs, fs, deposit, u, m, base) && v.users == t.users && v.userIds == t.userIds
    ensures Lawful(s, v, bs, fs, deposit, u, m, base)
  {
  }

  lemma PlaceIsLawful(s: Store, row: Order, now: int, u: Uuid, m: Uuid, base: set<real>)
    requires WfStore(s) && LegalRow(row)
    ensures var p := Place(s, row, now); p.Placed? ==> Lawful(s, p.store, p.bookings, p.fills, 0.0, u, m, base)
  {
    hide KeepsPriced, WfStore, Matched;
    if Admit(s, row).Admitted? {
      AdmittedKeepsIdentity(s, row);
      var o, reducing := Admit(s, row).order, Admit(s, row).reducing;
      SameExposureAtStart(s, m);
      ExecuteBalancesExposure(s, o, reducing, now, m);
      ExecuteBooksEquity(s, o, reducing, now, u);
      ExecutePriced(s, o, reducing, now, m, base);
    }
  }

  lemma SweepOneIsLawful(s: Store, sw: Sweep, a: Uuid, mk: Uuid, price: real, id: Uuid, now: int, u: Uuid, m: Uuid, base: set<real>)
    requires WfStore(sw.store) && Lawful(s, sw.store, sw.bookings, sw.writer.fills, 0.0, u, m, base)
    ensures var next := SweepOne(sw, a, mk, price, id, now);
      Lawful(s, next.store, next.bookings, next.writer.fills, 0.0, u, m, base)
  {
    hide Lawful, Place, WfStore, LegalRow;
    var row := ForcedClose(sw.store, a, mk, price, id);
    if row.Some? {
      ForcedCloseIsLegal(sw.store, a, mk, price, id);
      PlaceIsLawful(sw.store, row.value, now, u, m, base + Printed(sw.writer.fills, m));
      var p := Place(sw.store, row.value, now);
      if p.Placed? {
        LawfulThen(s, sw.store, p.store, sw.bookings, p.bookings, sw.writer.fills, p.fills, 0.0, 0.0, u, m, base);
      }
    }
  }

  lemma {:induction false} SweepIsLawful(s: Store, mk: Uuid, price: real, ids: seq<Uuid>, now: int, k: nat, u: Uuid, m: Uuid, base: set<real>)
    requires WfStore(s) && k <= |s.userIds| <= |ids|
    ensures var sw := SweepTo(s, mk, price, ids, now, k); Lawful(s, sw.store, sw.bookings, sw.writer.fills, 0.0, u, m, base)
    decreases k
  {
    hide SweepOne, Lawful, WfStore;
    if k == 0 {
      SameAccountsAreLawful(s, s, u, m, base);
    } else {
      SweepIsLawful(s, mk, price, ids, now, k - 1, u, m, base);
      SweepOneIsLawful(s, SweepTo(s, mk, price, ids, now, k - 1), s.userIds[k - 1], mk, price, ids[k - 1], now, u, m, base);
    }
  }

  lemma TickIsLawful(s: Store, a: Asset, price: real, ids: seq<Uuid>, now: int, u: Uuid, m: Uuid, base: set<real>)
    requires WfStore(s) && price != 0.0 && |s.userIds| <= |ids|
    ensures var out := SweptOutcome(s, a, price, ids, now);
      Lawful(s, out.store, out.bookings, StepFills(out.reply), 0.0, u, m, base)
  {
    hide Lawful, SweepOne, Publish;
    var t := WithIndexPrice(s, MarketOf(a), price);
    WithIndexPriceKeepsWf(s, MarketOf(a), price);
    SweepIsLawful(t, MarketOf(a), price, ids, now, |s.userIds|, u, m, base);
    var sw := SweepTo(t, MarketOf(a), price, ids, now, |s.userIds|);
    SameAccountsAreLawful(s, t, u, m, base);
    NothingFirst(s, t, sw.store, sw.bookings, sw.writer.fills, 0.0, u, m, base);
    LawfulUpTo(s, sw.store, Bumped(sw.store), sw.bookings, sw.writer.fills, 0.0, u, m, base);
  }

  lemma NothingFirst(s: Store, t: Store, v: Store, bs: seq<Booking>, fs: seq<Fill>, deposit: real, u: Uuid, m: Uuid, base: set<real>)
    requires Lawful(s, t, [], [], deposit, u, m, base) && Lawful(t, v, bs, fs, 0.0, u, m, base)
    ensures Lawful(s, v, bs, fs, deposit, u, m, base)
  {
    hide Lawful;
    assert base + Printed([], m) == base;
    LawfulThen(s, t, v, [], bs, [], fs, deposit, 0.0, u, m, base);
    assert [] + bs == bs && [] + fs == fs;
  }

  lemma WithUserIsLawful(s: Store, a: Uuid, u: Uuid, m: Uuid, base: set<real>)
    requires WfStore(s)
    ensures WfStore(WithUser(s, a)) && Lawful(s, WithUser(s, a), [], [], 0.0, u, m, base)
  {
    WithUserKeepsWf(s, a);
    WithUserAddsNoExposure(s, a, m);
    NoFillsKeepPriced(s, WithUser(s, a), m, base);
  }

  lemma CreateIsLawful(s: Store, row: Order, now: int, u: Uuid, m: Uuid, base: set<real>)
    requires WfStore(s) && LegalRow(row)
    ensures WfStore(WithUser(s, row.userId))
    ensures var out := Created(WithUser(s, row.userId), row, now);
      Lawful(s, out.store, out.bookings, StepFills(out.reply), 0.0, u, m, base)
  {
    hide Lawful, Place, WfStore, Publish, PlacementEvents;
    WithUserIsLawful(s, row.userId, u, m, base);
    var t := WithUser(s, row.userId);
    PlaceIsLawful(t, row, now, u, m, base);
    var p := Place(t, row, now);
    if p.Placed? {
      NothingFirst(s, t, p.store, p.bookings, p.fills, 0.0, u, m, base);
      LawfulUpTo(s, p.store, Bumped(p.store), p.bookings, p.fills, 0.0, u, m, base);
    }
  }

  lemma CancelIsLawful(s: Store, row: Order, u: Uuid, m: Uuid, base: set<real>)
    requires WfStore(s)
    ensures var out := CancelledOutcome(s, row); Lawful(s, out.store, out.bookings, StepFills(out.reply), 0.0, u, m, base)
  {
    if CancelIndex(s, row) >= 0 {
      CancelBalancesExposure(s, row, m);
      QuietIsLawful(s, AfterCancel(s, row), 0.0, u, m, base);
    } else {
      SameAccountsAreLawful(s, s, u, m, base);
    }
  }

  lemma DepositIsLawful(s: Store, a: Uuid, amount: real, u: Uuid, m: Uuid, base: set<real>)
    requires WfStore(s)
    ensures Lawful(s, Deposited(s, a, amount), [], [], if a == u then amount else 0.0, u, m, base)
  {
    DepositAddsNoExposure(s, a, amount, m);
    QuietIsLawful(s, Deposited(s, a, amount), if a == u then amount else 0.0, u, m, base);
  }

  lemma FundingIsLawful(s: Store, u: Uuid, m: Uuid, base: set<real>)
    requires WfStore(s)
    ensures Lawful(s, Funded(s), [], [], 0.0, u, m, base)
  {
    hide KeepsPriced;
    WfStoreIsFundable(s);
    FundingBalancesExposure(s, m);
    FundingPriced(s, m, base);
  }

  /** The deposit a request makes to an account. */
  function DepositOf(req: Request, u: Uuid): real {
    if req.Onramp? && req.userId == u then req.amount else 0.0
  }

  /** Every request is lawful, accepted or refused. */
  lemma StepIsLawful(s: Store, req: Request, u: Uuid, m: Uuid, base: set<real>)
    requires WfStore(s) && LegalRequest(s, req)
    ensures var out := Step(s, req); Lawful(s, out.store, out.bookings, StepFills(out.reply), DepositOf(req, u), u, m, base)
  {
    hide Lawful, WfStore, Created, CancelledOutcome, SweptOutcome, Funded, WithUser, Deposited, DepthOf, InMarket;
    match req
    case InitBalance(a) => WithUserIsLawful(s, a, u, m, base);
    case Onramp(a, amount) => DepositIsLawful(s, a, amount, u, m, base);
    case CreateOrder(row, now) => CreateIsLawful(s, row, now, u, m, base);
    case CancelOrder(row) => CancelIsLawful(s, row, u, m, base);
    case GetBalances(a) => WithUserIsLawful(s, a, u, m, base);
    case SpotPriceUpdate(prices, ids, now) =>
      if TickedAsset(prices).Some? {
        var a := TickedAsset(prices).value;
        TickIsLawful(s, a, prices[a], ids, now, u, m, base);
      } else {
        SameAccountsAreLawful(s, s, u, m, base);
      }
    case FundingRateDispersal => FundingIsLawful(s, u, m, base);
    case _ => SameAccountsAreLawful(s, s, u, m, base);
  }

  // ----- runs

  /** What an account deposited over a run. */
  function Deposits(reqs: seq<Request>, u: Uuid): real {
    if reqs == [] then 0.0 else DepositOf(reqs[0], u) + Deposits(reqs[1..], u)
  }

  /** Every PnL booking of a run, in order. */
  ghost function Ledger(s: Store, reqs: seq<Request>): seq<Booking>
    requires WfStore(s) && LegalRun(s, reqs)
    decreases |reqs|
  {
    if reqs == [] then []
    else
      StepKeepsWf(s, reqs[0]);
      Step(s, reqs[0]).bookings + Ledger(Step(s, reqs[0]).store, reqs[1..])
  }

  /** Every fill of a run, in order: the public tape. */
  ghost function Tape(s: Store, reqs: seq<Request>): seq<Fill>
    requires WfStore(s) && LegalRun(s, reqs)
    decreases |reqs|
  {
    if reqs == [] then []
    else
      StepKeepsWf(s, reqs[0]);
      StepFills(Step(s, reqs[0]).reply) + Tape(Step(s, reqs[0]).store, reqs[1..])
  }

  lemma {:induction false} RunIsLawful(s: Store, reqs: seq<Request>, u: Uuid, m: Uuid, base: set<real>)
    requires WfStore(s) && LegalRun(s, reqs)
    ensures Lawful(s, Run(s, reqs), Ledger(s, reqs), Tape(s, reqs), Deposits(reqs, u), u, m, base)
    decreases |reqs|
  {
    hide Lawful, Step, WfStore, LegalRequest;
    if reqs == [] {
      SameAccountsAreLawful(s, s, u, m, base);
    } else {
      StepKeepsWf(s, reqs[0]);
      StepIsLawful(s, reqs[0], u, m, base);
      var out := Step(s, reqs[0]);
      RunIsLawful(out.store, reqs[1..], u, m, base + Printed(StepFills(out.reply), m));
      LawfulThen(s, out.store, Run(out.store, reqs[1..]), out.bookings, Ledger(out.store, reqs[1..]),
        StepFills(out.reply), Tape(out.store, reqs[1..]), DepositOf(reqs[0], u), Deposits(reqs[1..], u), u, m, base);
    }
  }

  ghost function HistoryTape(reqs: seq<Request>): seq<Fill>
    requires LegalHistory(reqs)
  {
    InitialStoreIsWf();
    Tape(InitialStore(), reqs)
  }

  ghost function HistoryLedger(reqs: seq<Request>): seq<Booking>
    requires LegalHistory(reqs)
  {
    InitialStoreIsWf();
    Ledger(InitialStore(), reqs)
  }

  lemma HistoryIsLawful(reqs: seq<Request>, u: Uuid, m: Uuid)
    requires LegalHistory(reqs)
    ensures Lawful(InitialStore(), Reached(reqs), HistoryLedger(reqs), HistoryTape(reqs), Deposits(reqs, u), u, m, {})
  {
    hide Lawful, Run, LegalRun, Tape, Ledger;
    InitialStoreIsWf();
    RunIsLawful(InitialStore(), reqs, u, m, {});
  }

  /** At most one position per market and account, each with a positive size. */
  ghost predicate OnePositionPerMarket(users: map<Uuid, User>) {
    && (forall u, i :: u in users && 0 <= i < |users[u].positions| ==> users[u].positions[i].qty > 0.0)
    && (forall u, i, j :: u in users && 0 <= i < j < |users[u].positions| ==>
          users[u].positions[i].marketId != users[u].positions[j].marketId)
  }

  /**
   * Open interest is zero-sum in every reachable state: in each market the accounts that are long
   * hold exactly as much as the accounts that are short, each in a single position of positive size.
   */
  lemma OpenInterestIsZeroSum(reqs: seq<Request>, m: Uuid)
    requires LegalHistory(reqs)
    ensures var t := Reached(reqs);
      && OnePositionPerMarket(t.users)
      && Accounts(t.userIds, t.users)
      && OpenInterest(t.userIds, t.users, m, LONG) == OpenInterest(t.userIds, t.users, m, SHORT)
  {
    hide Reached, HistoryLedger, HistoryTape, KeepsPriced;
    var t := Reached(reqs);
    HistoryIsLawful(reqs, 0, m);
    NetIsLongMinusShort(t.userIds, t.users, m);
    assert forall u :: u in t.users ==> WfPositions(t.users[u].positions);
  }

  /** Funding moves margin between the two sides of a market and creates none: longs pay exactly what shorts get. */
  lemma FundingIsZeroSum(reqs: seq<Request>, m: Uuid)
    requires LegalHistory(reqs) && m in Reached(reqs).books
    ensures var t := Reached(reqs);
      && Accounts(t.userIds, t.users) && Accounts(t.userIds, Funded(t).users)
      && TotalMargin(t.userIds, Funded(t).users, m) == TotalMargin(t.userIds, t.users, m)
  {
    hide Reached, HistoryLedger, HistoryTape, KeepsPriced, FundingPerUnit;
    var t := Reached(reqs);
    HistoryIsLawful(reqs, 0, m);
    assert WfBook(t.books[m], m, t.users);
    FundingTakesNetExposure(t.userIds, t, m);
    PaymentsAdd(0.0, 0.0, FundingPerUnit(t.books[m]));
  }

  /**
   * In every reachable state an account's free and locked collateral together are its deposits plus
   * the PnL realised when its positions were netted; nothing else the engine does changes the sum.
   */
  lemma CollateralIsDepositsPlusPnl(reqs: seq<Request>, u: Uuid)
    requires LegalHistory(reqs) && u in Reached(reqs).users
    ensures Reached(reqs).users[u].available + Reached(reqs).users[u].locked == Deposits(reqs, u) + Sum(HistoryLedger(reqs), u)
  {
    hide Reached, HistoryLedger, HistoryTape, KeepsPriced, SameExposure;
    HistoryIsLawful(reqs, u, 0);
  }

  /**
   * In every reachable state an open position's entry price lies between two prices that were
   * printed in its market, each widened to its own cent.
   */
  lemma EntryPricesStayWithinPrints(reqs: seq<Request>, u: Uuid, i: nat)
    requires LegalHistory(reqs) && u in Reached(reqs).users && i < |Reached(reqs).users[u].positions|
    ensures var p := Reached(reqs).users[u].positions[i];
      exists low, high :: low in Printed(HistoryTape(reqs), p.marketId) && high in Printed(HistoryTape(reqs), p.marketId)
        && Below(low) <= p.averagePrice <= Above(high)
  {
    hide Reached, HistoryLedger, HistoryTape, SameExposure;
    var p := Reached(reqs).users[u].positions[i];
    var prints := Printed(HistoryTape(reqs), p.marketId);
    HistoryIsLawful(reqs, u, p.marketId);
    assert {} + prints == prints;
    assert AveragesBetween(Reached(reqs).users[u].positions, p.marketId, prints);
    assert Between(p.averagePrice, prints);
  }

  // ----- where prices come from

  lemma {:induction false} RunPrintsLimits(s: Store, reqs: seq<Request>, m: Uuid, prices: set<real>)
    requires WfStore(s) && LegalRun(s, reqs) && RestsAtOneOf(s, m, prices)
    ensures RestsAtOneOf(Run(s, reqs), m, prices + Limits(reqs, m))
    ensures Printed(Tape(s, reqs), m) <= prices + Limits(reqs, m)
    decreases |reqs|
  {
    hide Step, WfStore, LegalRequest, RestsAtOneOf, Printed, Limits, LimitOf;
    if reqs == [] {
      assert RestsAtOneOf(s, m, prices + Limits([], m)) by { MorePrices(s, m, prices, Limits([], m)); }
      assert Printed([], m) == {} by { NothingPrinted(m); }
    } else {
      StepKeepsWf(s, reqs[0]);
      StepPrintsWhatRests(s, reqs[0], m, prices);
      var out := Step(s, reqs[0]);
      RunPrintsLimits(out.store, reqs[1..], m, prices + LimitOf(reqs[0], m));
      LimitsUnfold(reqs, m);
      assert prices + LimitOf(reqs[0], m) + Limits(reqs[1..], m) == prices + Limits(reqs, m);
      PrintedGrows(StepFills(out.reply), Tape(out.store, reqs[1..]), m);
    }
  }

  lemma NothingPrinted(m: Uuid)
    ensures Printed([], m) == {}
  {
  }

  lemma MorePrices(s: Store, m: Uuid, prices: set<real>, more: set<real>)
    requires RestsAtOneOf(s, m, prices)
    ensures RestsAtOneOf(s, m, prices + more)
  {
  }

  /**
   * No price is made up. Through every run each price level of a market, and each price printed there,
   * is the limit price of some order that was sent for it; forced closes and market orders add none.
   */
  lemma EveryPriceIsALimitPrice(reqs: seq<Request>, m: Uuid)
    requires LegalHistory(reqs)
    ensures RestsAtOneOf(Reached(reqs), m, Limits(reqs, m))
    ensures Printed(HistoryTape(reqs), m) <= Limits(reqs, m)
  {
    hide Run, LegalRun, Tape, Limits, Printed;
    InitialStoreIsWf();
    assert RestsAtOneOf(InitialStore(), m, {});
    RunPrintsLimits(InitialStore(), reqs, m, {});
    assert {} + Limits(reqs, m) == Limits(reqs, m);
  }

  ghost predicate OnCents(p: real) {
    exists n :: p == Cents(n)
  }

  /**
   * While every limit order of a market is priced in whole cents no widening is needed: each entry price
   * lies between the lowest and the highest print.
   */
  lemma EntryPricesOnCentGrid(reqs: seq<Request>, u: Uuid, i: nat)
    requires LegalHistory(reqs) && u in Reached(reqs).users && i < |Reached(reqs).users[u].positions|
    requires var m := Reached(reqs).users[u].positions[i].marketId;
      forall r :: r in reqs && NamesPrice(r, m) ==> OnCents(r.row.price)
    ensures var p := Reached(reqs).users[u].positions[i];
      exists low, high :: low in Printed(HistoryTape(reqs), p.marketId) && high in Printed(HistoryTape(reqs), p.marketId)
        && low <= p.averagePrice <= high
  {
    hide Reached, HistoryTape, Printed;
    var p := Reached(reqs).users[u].positions[i];
    EntryPricesStayWithinPrints(reqs, u, i);
    EveryPriceIsALimitPrice(reqs, p.marketId);
    forall q | q in Printed(HistoryTape(reqs), p.marketId) ensures Below(q) == q == Above(q) {
      var r :| r in reqs && NamesPrice(r, p.marketId) && r.row.price == q;
      var n :| q == Cents(n);
      CentPricesNeedNoWidening(n);
    }
  }
}
