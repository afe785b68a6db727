/** One maker cycle: cancel what would cross, place, cancel the rest. */
module MakerCycle {
  import opened Exchange
  import opened QuoteLadder
  import opened LadderReconcile
  import opened LadderConvergence

  // ----- what a new quote would trade against

  function HighestNewBid(toPlace: seq<Quote>): Option<real> {
    if toPlace == [] then None
    else
      var n := |toPlace| - 1;
      var best := HighestNewBid(toPlace[..n]);
      if toPlace[n].side == LONG && (best == None || best.value < toPlace[n].price) then Some(toPlace[n].price) else best
  }

  function LowestNewAsk(toPlace: seq<Quote>): Option<real> {
    if toPlace == [] then None
    else
      var n := |toPlace| - 1;
      var best := LowestNewAsk(toPlace[..n]);
      if toPlace[n].side == SHORT && (best == None || toPlace[n].price < best.value) then Some(toPlace[n].price) else best
  }

  predicate Crosses(o: OwnOrder, toPlace: seq<Quote>) {
    if o.side == LONG
    then var ask := LowestNewAsk(toPlace); ask.Some? && o.price >= ask.value
    else var bid := HighestNewBid(toPlace); bid.Some? && o.price <= bid.value
  }

  /** The exchange would match the quote with the order: opposite sides, at or through the price. */
  predicate Meets(o: OwnOrder, q: Quote) {
    o.side != q.side && if q.side == LONG then o.price <= q.price else o.price >= q.price
  }

  lemma {:induction false} HighestNewBidIsHighest(toPlace: seq<Quote>)
    ensures var best := HighestNewBid(toPlace);
      && (forall q :: q in toPlace && q.side == LONG ==> best.Some? && q.price <= best.value)
      && (best.Some? ==> exists q :: q in toPlace && q.side == LONG && q.price == best.value)
  {
    if toPlace != [] {
      HighestNewBidIsHighest(toPlace[..|toPlace| - 1]);
    }
  }

  lemma {:induction false} LowestNewAskIsLowest(toPlace: seq<Quote>)
    ensures var best := LowestNewAsk(toPlace);
      && (forall q :: q in toPlace && q.side == SHORT ==> best.Some? && best.value <= q.price)
      && (best.Some? ==> exists q :: q in toPlace && q.side == SHORT && q.price == best.value)
  {
    if toPlace != [] {
      LowestNewAskIsLowest(toPlace[..|toPlace| - 1]);
    }
  }

  /** The two extremes are enough: an order crosses exactly when some new quote would trade with it. */
  lemma CrossesIffMeetsSome(o: OwnOrder, toPlace: seq<Quote>)
    ensures Crosses(o, toPlace) <==> exists q :: q in toPlace && Meets(o, q)
  {
    HighestNewBidIsHighest(toPlace);
    LowestNewAskIsLowest(toPlace);
  }

  // ----- the cycle as a state machine

  datatype Phase = CancellingFirst | Placing | CancellingRest | Finished

  /**
   * `live` is the maker's own side of the book. The requests of a phase are in flight together and
   * settle in any order; a phase starts when all requests of the one before have settled. `unknown` are
   * placements that timed out, in this cycle or an earlier one: the engine may still carry them out.
   */
  datatype Cycle = Cycle(
    phase: Phase,
    live: set<OwnOrder>,
    toPlace: seq<Quote>,
    cancels: set<Uuid>,
    places: set<Quote>,
    later: set<Uuid>,
    unknown: set<Quote>)

  datatype Action =
    | Taken(order: OwnOrder, left: real)
    | Cancelled(id: Uuid)
    | CancelFailed(id: Uuid)
    | Accepted(quote: Quote, id: Uuid)
    | Refused(quote: Quote)
    | TimedOut(quote: Quote)
    | Landed(quote: Quote, id: Uuid)
    | AllSettled(running: bool)

  function CrossingIds(resting: seq<OwnOrder>, toPlace: seq<Quote>): set<Uuid> {
    set o | o in resting && Crosses(o, toPlace) :: o.id
  }

  /** How a cycle starts, from the orders the database lists as open; `live` is what the engine has. */
  function StartCycle(stale: bool, desired: seq<Quote>, resting: seq<OwnOrder>, live: set<OwnOrder>, unknown: set<Quote>): Cycle {
    if stale then Cycle(CancellingRest, live, [], Ids(resting), {}, {}, unknown)
    else
      var d := Reconciled(desired, resting);
      if d == Diff([], []) then Cycle(Finished, live, [], {}, {}, {}, unknown)
      else
        var crossing := CrossingIds(resting, d.toPlace);
        Cycle(CancellingFirst, live, d.toPlace, crossing, {}, Ids(d.toCancel) - crossing, unknown)
  }

  function Without(live: set<OwnOrder>, id: Uuid): set<OwnOrder> {
    set o | o in live && o.id != id
  }

  /** The order a placed quote becomes. */
  function Order(q: Quote, id: Uuid): OwnOrder {
    OwnOrder(id, q.side, q.price, q.qty)
  }

  ghost predicate Enabled(s: Cycle, a: Action) {
    match a
    case Taken(o, left) => o in s.live && left <= o.remainingQty
    case Cancelled(id) => id in s.cancels && (s.phase == CancellingFirst || s.phase == CancellingRest)
    case CancelFailed(id) => id in s.cancels && (s.phase == CancellingFirst || s.phase == CancellingRest)
    case Accepted(q, _) => q in s.places && s.phase == Placing
    case Refused(q) => q in s.places && s.phase == Placing
    case TimedOut(q) => q in s.places && s.phase == Placing
    case Landed(q, _) => q in s.unknown
    case AllSettled(_) => s.phase != Finished && s.cancels == {} && s.places == {}
  }

  function Next(s: Cycle, a: Action): Cycle {
    match a
    case Taken(o, left) =>
      s.(live := if left > 0.0 then s.live - {o} + {o.(remainingQty := left)} else s.live - {o})
    case Cancelled(id) => s.(live := Without(s.live, id), cancels := s.cancels - {id})
    case CancelFailed(id) => s.(cancels := s.cancels - {id})
    case Accepted(q, id) => s.(live := s.live + {Order(q, id)}, places := s.places - {q})
    case Refused(q) => s.(places := s.places - {q})
    case TimedOut(q) => s.(places := s.places - {q}, unknown := s.unknown + {q})
    case Landed(q, id) => s.(live := s.live + {Order(q, id)}, unknown := s.unknown - {q})
    case AllSettled(running) =>
      if s.phase == CancellingFirst then
        (if running then s.(phase := Placing, places := set q | q in s.toPlace) else s.(phase := Finished))
      else if s.phase == Placing then s.(phase := CancellingRest, cancels := s.later)
      else s.(phase := Finished)
  }

  ghost predicate Possible(s: Cycle, run: seq<Action>)
    decreases |run|
  {
    run == [] || (Enabled(s, run[0]) && Possible(Next(s, run[0]), run[1..]))
  }

  function After(s: Cycle, run: seq<Action>): Cycle
    decreases |run|
  {
    if run == [] then s else After(Next(s, run[0]), run[1..])
  }

  // ----- safety

  /** Every own bid is strictly below every own ask. */
  ghost predicate NotCrossed(live: set<OwnOrder>) {
    forall b, a :: b in live && a in live && b.side == LONG && a.side == SHORT ==> b.price < a.price
  }

  ghost predicate QuotesNotCrossed(quotes: set<Quote>) {
    forall b, a :: b in quotes && a in quotes && b.side == LONG && a.side == SHORT ==> b.price < a.price
  }

  /** No quote on its way would trade with a live order of the maker's own. */
  ghost predicate Clear(live: set<OwnOrder>, quotes: set<Quote>) {
    forall o, q :: o in live && q in quotes ==> !Meets(o, q)
  }

  /** The quotes that may still become orders from here on without a new phase. */
  function OnTheWay(s: Cycle): set<Quote> {
    s.places + s.unknown
  }

  ghost predicate Safe(s: Cycle) {
    NotCrossed(s.live) && QuotesNotCrossed(OnTheWay(s)) && Clear(s.live, OnTheWay(s))
  }

  /** The quote reaches the book with this action. */
  predicate Arrives(a: Action) {
    a.Accepted? || a.Landed?
  }

  /** Every placement of the run meets no own order at the moment it reaches the book. */
  ghost predicate NeverSelfTrades(s: Cycle, run: seq<Action>)
    decreases |run|
  {
    run == [] ||
    ((Arrives(run[0]) ==> forall o :: o in s.live ==> !Meets(o, run[0].quote)) && NeverSelfTrades(Next(s, run[0]), run[1..]))
  }

  lemma SafeStep(s: Cycle, a: Action)
    requires Safe(s) && Enabled(s, a) && s.phase != CancellingFirst
    ensures Safe(Next(s, a)) && Next(s, a).phase != CancellingFirst
    ensures Arrives(a) ==> forall o :: o in s.live ==> !Meets(o, a.quote)
  {
  }

  /** From placing on, every interleaving of settlements and fills keeps the maker clear of itself. */
  lemma {:induction false} SafeFromPlacingOn(s: Cycle, run: seq<Action>)
    requires Safe(s) && s.phase != CancellingFirst && Possible(s, run)
    ensures Safe(After(s, run)) && NeverSelfTrades(s, run)
    decreases |run|
  {
    hide Safe, Enabled;
    if run != [] {
      SafeStep(s, run[0]);
      SafeFromPlacingOn(Next(s, run[0]), run[1..]);
    }
  }

  // ----- runs that do trade with themselves

  /** The quote can reach the book right now. */
  predicate MayArrive(s: Cycle, q: Quote) {
    q in s.unknown || (s.phase == Placing && q in s.places)
  }

  function Arrival(s: Cycle, q: Quote, id: Uuid): Action {
    if q in s.unknown then Landed(q, id) else Accepted(q, id)
  }

  lemma ArrivesAt(s: Cycle, q: Quote, o: OwnOrder)
    requires MayArrive(s, q) && o in s.live && Meets(o, q)
    ensures Possible(s, [Arrival(s, q, 0)]) && !NeverSelfTrades(s, [Arrival(s, q, 0)])
  {
    assert [Arrival(s, q, 0)][1..] == [];
  }

  /** Two crossing quotes that can both arrive meet each other: the second finds the first. */
  lemma TwoArrive(s: Cycle, b: Quote, a: Quote)
    requires MayArrive(s, b) && MayArrive(s, a) && b.side == LONG && a.side == SHORT && a.price <= b.price
    ensures exists run :: Possible(s, run) && !NeverSelfTrades(s, run) && forall i :: 0 <= i < |run| ==> Arrives(run[i])
  {
    var first := Arrival(s, b, 0);
    var t := Next(s, first);
    ArrivesAt(t, a, Order(b, 0));
    var run := [first] + [Arrival(t, a, 0)];
    assert run[0] == first && run[1..] == [Arrival(t, a, 0)];
    assert Possible(s, run) && !NeverSelfTrades(s, run);
  }

  /** The state as the crossing cancels have all settled and the placements go out. */
  ghost predicate ReadyToPlace(s: Cycle) {
    && s.phase == Placing
    && s.places == (set q | q in s.toPlace)
    && NotCrossed(s.live) && QuotesNotCrossed(s.places)
  }

  /** No live order of the maker's own would trade with a quote of the cycle. */
  ghost predicate NoneCrosses(s: Cycle) {
    forall o :: o in s.live ==> !Crosses(o, s.toPlace)
  }

  /** Nothing that timed out would trade with a live order, with a quote of the cycle, or with another of its kind. */
  ghost predicate LateIsHarmless(s: Cycle) {
    Clear(s.live, s.unknown) && QuotesNotCrossed((set q | q in s.toPlace) + s.unknown)
  }

  lemma NoneCrossesIsClear(s: Cycle)
    ensures NoneCrosses(s) <==> Clear(s.live, set q | q in s.toPlace)
  {
    hide Crosses, Meets;
    forall o | o in s.live ensures !Crosses(o, s.toPlace) <==> forall q :: q in s.toPlace ==> !Meets(o, q) {
      CrossesIffMeetsSome(o, s.toPlace);
    }
  }

  /** A quote on its way that would trade: some run trades. */
  lemma UnsafeSelfTrades(s: Cycle)
    requires NotCrossed(s.live) && !Safe(s) && (s.places != {} ==> s.phase == Placing)
    ensures exists run :: Possible(s, run) && !NeverSelfTrades(s, run) && forall i :: 0 <= i < |run| ==> Arrives(run[i])
  {
    hide Meets, Possible, NeverSelfTrades;
    if !Clear(s.live, OnTheWay(s)) {
      var o, q :| o in s.live && q in OnTheWay(s) && Meets(o, q);
      ArrivesAt(s, q, o);
      var run := [Arrival(s, q, 0)];
      assert Possible(s, run) && !NeverSelfTrades(s, run);
    } else {
      var b, a :| b in OnTheWay(s) && a in OnTheWay(s) && b.side == LONG && a.side == SHORT && a.price <= b.price;
      TwoArrive(s, b, a);
    }
  }

  /**
   * The maker never trades with itself, whatever the interleaving, if and only if, as the placements go
   * out, no crossing order is still live and nothing that timed out would trade.
   */
  lemma NeverSelfTradesIff(s: Cycle)
    requires ReadyToPlace(s)
    ensures (forall run :: Possible(s, run) ==> NeverSelfTrades(s, run) && NotCrossed(After(s, run).live))
      <==> NoneCrosses(s) && LateIsHarmless(s)
  {
    hide Possible, NeverSelfTrades, After, Meets, Crosses;
    NoneCrossesIsClear(s);
    assert Safe(s) <==> NoneCrosses(s) && LateIsHarmless(s);
    if Safe(s) {
      forall run | Possible(s, run) ensures NeverSelfTrades(s, run) && NotCrossed(After(s, run).live) {
        SafeFromPlacingOn(s, run);
      }
    } else {
      UnsafeSelfTrades(s);
    }
  }

  // ----- a whole cycle

  /** When the placements go out, if they do, no crossing order is still live. */
  ghost predicate PlacesClear(s: Cycle, run: seq<Action>)
    decreases |run|
  {
    run == [] ||
    ((s.phase == CancellingFirst && Next(s, run[0]).phase == Placing ==> NoneCrosses(s)) && PlacesClear(Next(s, run[0]), run[1..]))
  }

  /** While the crossing cancels settle: what is new on the book had timed out before and meets nothing. */
  ghost predicate Clearing(s: Cycle) {
    s.phase == CancellingFirst && s.places == {} && NotCrossed(s.live) && LateIsHarmless(s)
  }

  lemma ClearingStep(s: Cycle, a: Action)
    requires Clearing(s) && Enabled(s, a) && (Next(s, a).phase == Placing ==> NoneCrosses(s))
    ensures var t := Next(s, a);
      Clearing(t) || (t.phase != CancellingFirst && Safe(t))
    ensures Arrives(a) ==> forall o :: o in s.live ==> !Meets(o, a.quote)
  {
    hide Crosses;
    NoneCrossesIsClear(s);
  }

  lemma {:induction false} ClearingRun(s: Cycle, run: seq<Action>)
    requires Clearing(s) && Possible(s, run) && PlacesClear(s, run)
    ensures NotCrossed(After(s, run).live) && NeverSelfTrades(s, run)
    decreases |run|
  {
    hide Safe, Enabled, LateIsHarmless, NotCrossed, NoneCrosses;
    if run != [] {
      ClearingStep(s, run[0]);
      var t := Next(s, run[0]);
      if Clearing(t) {
        ClearingRun(t, run[1..]);
      } else {
        SafeFromPlacingOn(t, run[1..]);
        SafeIsNotCrossed(After(t, run[1..]));
      }
    }
  }

  lemma SafeIsNotCrossed(s: Cycle)
    requires Safe(s)
    ensures NotCrossed(s.live)
  {
  }

  /** What is placed was desired. */
  lemma ToPlaceWasDesired(desired: seq<Quote>, resting: seq<OwnOrder>, q: Quote)
    requires q in Reconciled(desired, resting).toPlace
    ensures q in desired
  {
    var bids, asks := QuotesOn(desired, LONG), QuotesOn(desired, SHORT);
    var b, a := Claimed(bids, BySide(resting, LONG)).adopted, Claimed(asks, BySide(resting, SHORT)).adopted;
    if q in SideDiff(bids, BySide(resting, LONG)).toPlace {
      NotAtIsPart(Unadopted(bids, b), Prices(Somes(b)), q);
      UnadoptedRungs(bids, b, q);
      QuotesOnIsPart(desired, LONG, q);
    } else {
      NotAtIsPart(Unadopted(asks, a), Prices(Somes(a)), q);
      UnadoptedRungs(asks, a, q);
      QuotesOnIsPart(desired, SHORT, q);
    }
  }

  lemma {:induction false} NotAtIsPart(qs: seq<Quote>, prices: set<real>, q: Quote)
    requires q in NotAt(qs, prices)
    ensures q in qs
  {
    var n := |qs| - 1;
    if q in NotAt(qs[..n], prices) {
      NotAtIsPart(qs[..n], prices, q);
    }
  }

  lemma {:induction false} QuotesOnIsPart(desired: seq<Quote>, side: PositionType, q: Quote)
    requires q in QuotesOn(desired, side)
    ensures q in desired
  {
    var n := |desired| - 1;
    if q in QuotesOn(desired[..n], side) {
      QuotesOnIsPart(desired[..n], side, q);
    }
  }

  lemma ToPlaceIsUncrossed(stale: bool, desired: seq<Quote>, resting: seq<OwnOrder>, live: set<OwnOrder>, unknown: set<Quote>)
    requires QuotesNotCrossed(set q | q in desired)
    ensures QuotesNotCrossed(set q | q in StartCycle(stale, desired, resting, live, unknown).toPlace)
  {
    hide Reconciled, Crosses;
    var toPlace := StartCycle(stale, desired, resting, live, unknown).toPlace;
    forall q | q in toPlace ensures q in desired {
      ToPlaceWasDesired(desired, resting, q);
    }
  }

  /**
   * The maker never crosses itself. A cycle starts on an uncrossed book with an uncrossed ladder; the
   * exchange settles the cancels and placements of a phase in any order, cancels and placements may fail
   * or time out and land later, and takers fill or part-fill orders at any time. As long as what timed
   * out is harmless and no crossing order is still live when the placements go out, every own bid stays
   * below every own ask and no placement meets an own order.
   */
  lemma MakerNeverCrossesItself(desired: seq<Quote>, stale: bool, resting: seq<OwnOrder>, live: set<OwnOrder>, unknown: set<Quote>, run: seq<Action>)
    requires NotCrossed(live) && LateIsHarmless(StartCycle(stale, desired, resting, live, unknown))
    requires Possible(StartCycle(stale, desired, resting, live, unknown), run)
    requires PlacesClear(StartCycle(stale, desired, resting, live, unknown), run)
    ensures var start := StartCycle(stale, desired, resting, live, unknown);
      NotCrossed(After(start, run).live) && NeverSelfTrades(start, run)
  {
    hide Possible, After, NeverSelfTrades, Crosses, Reconciled, PlacesClear, Meets;
    var start := StartCycle(stale, desired, resting, live, unknown);
    if start.phase == CancellingFirst {
      ClearingRun(start, run);
    } else {
      SafeFromPlacingOn(start, run);
    }
  }

  // ----- what can be checked when the cycle starts

  /** No cancel fails before the placements go out while a crossing order of its id is still live. */
  ghost predicate NoCrossingCancelFails(s: Cycle, run: seq<Action>)
    decreases |run|
  {
    run == [] ||
    ((s.phase == CancellingFirst && run[0].CancelFailed? ==> forall o :: o in s.live && o.id == run[0].id ==> !Crosses(o, s.toPlace))
     && NoCrossingCancelFails(Next(s, run[0]), run[1..]))
  }

  /** Whatever crosses has its cancel in flight. */
  ghost predicate Covered(s: Cycle) {
    forall o :: o in s.live && Crosses(o, s.toPlace) ==> o.id in s.cancels
  }

  lemma CoveredStep(s: Cycle, a: Action)
    requires Clearing(s) && Covered(s) && Enabled(s, a) && Next(s, a).phase == CancellingFirst
    requires a.CancelFailed? ==> forall o :: o in s.live && o.id == a.id ==> !Crosses(o, s.toPlace)
    ensures Covered(Next(s, a)) && Clearing(Next(s, a))
  {
    hide Crosses;
    var t := Next(s, a);
    ClearingStep(s, a);
    forall o | o in t.live && Crosses(o, t.toPlace) ensures o.id in t.cancels {
      if a.Landed? && o == Order(a.quote, a.id) {
        CrossesIffMeetsSome(o, s.toPlace);
        assert false;
      }
      if a.Taken? && o !in s.live {
        SamePriceCrosses(a.order, o, s.toPlace);
      }
    }
  }

  lemma SamePriceCrosses(o: OwnOrder, r: OwnOrder, toPlace: seq<Quote>)
    requires o.side == r.side && o.price == r.price
    ensures Crosses(o, toPlace) <==> Crosses(r, toPlace)
  {
  }

  lemma CoveredIsClear(s: Cycle, a: Action)
    requires Covered(s) && s.phase == CancellingFirst && Enabled(s, a) && Next(s, a).phase == Placing
    ensures NoneCrosses(s)
  {
  }

  lemma {:induction false} CoveredRunPlacesClear(s: Cycle, run: seq<Action>)
    requires Possible(s, run) && NoCrossingCancelFails(s, run)
    requires s.phase == CancellingFirst ==> Clearing(s) && Covered(s)
    ensures PlacesClear(s, run)
    decreases |run|
  {
    hide Crosses, Clearing, Covered, Enabled, NoneCrosses;
    if run != [] {
      var t := Next(s, run[0]);
      if s.phase == CancellingFirst && t.phase == CancellingFirst {
        CoveredStep(s, run[0]);
      } else if s.phase == CancellingFirst && t.phase == Placing {
        CoveredIsClear(s, run[0]);
      } else if s.phase != CancellingFirst {
        NoWayBack(s, run[0]);
      }
      CoveredRunPlacesClear(t, run[1..]);
    }
  }

  lemma NoWayBack(s: Cycle, a: Action)
    requires s.phase != CancellingFirst
    ensures Next(s, a).phase != CancellingFirst
  {
  }

  /** Every cancel of the first phase settles, all succeeding or all failing. */
  lemma {:induction false} AllCancelsSettle(s: Cycle, fail: bool) returns (run: seq<Action>)
    requires s.phase == CancellingFirst
    ensures Possible(s, run) && forall i :: 0 <= i < |run| ==> (if fail then run[i].CancelFailed? else run[i].Cancelled?)
    ensures var t := After(s, run);
      t == s.(cancels := {}, live := if fail then s.live else t.live)
      && forall o :: o in s.live && o.id !in s.cancels ==> o in t.live
    decreases |s.cancels|
  {
    if s.cancels == {} {
      run := [];
    } else {
      var id := SomeId(s.cancels);
      var a := if fail then CancelFailed(id) else Action.Cancelled(id);
      var rest := AllCancelsSettle(Next(s, a), fail);
      run := [a] + rest;
      assert run[1..] == rest;
    }
  }

  lemma SomeId(ids: set<Uuid>) returns (id: Uuid)
    requires ids != {}
    ensures id in ids
  {
    id :| id in ids;
  }

  lemma {:induction false} RunThen(s: Cycle, a: seq<Action>, b: seq<Action>)
    requires Possible(s, a) && Possible(After(s, a), b)
    ensures Possible(s, a + b)
    ensures NeverSelfTrades(s, a + b) ==> NeverSelfTrades(After(s, a), b)
    ensures NoCrossingCancelFails(s, a) && NoCrossingCancelFails(After(s, a), b) ==> NoCrossingCancelFails(s, a + b)
    decreases |a|
  {
    hide Enabled, Crosses, Meets;
    if a == [] {
      assert a + b == b;
    } else {
      assert (a + b)[0] == a[0] && (a + b)[1..] == a[1..] + b;
      RunThen(Next(s, a[0]), a[1..], b);
    }
  }

  lemma {:induction false} NoneFails(s: Cycle, run: seq<Action>)
    requires forall i :: 0 <= i < |run| ==> !run[i].CancelFailed?
    ensures NoCrossingCancelFails(s, run)
    decreases |run|
  {
    hide Crosses;
    if run != [] {
      assert forall i :: 0 <= i < |run[1..]| ==> run[1..][i] == run[i + 1];
      NoneFails(Next(s, run[0]), run[1..]);
    }
  }

  /** When the cancels settle and the placements go out onto an unsafe state, some run trades with itself. */
  lemma PlacingUnsafely(s: Cycle, fail: bool)
    requires s.phase == CancellingFirst && s.places == {} && NotCrossed(s.live)
    requires fail ==> !NoneCrosses(s) || !LateIsHarmless(s)
    requires !fail ==> !Covered(s) || !QuotesNotCrossed((set q | q in s.toPlace) + s.unknown)
    ensures exists run :: Possible(s, run) && !NeverSelfTrades(s, run) && (!fail ==> NoCrossingCancelFails(s, run))
  {
    hide Possible, NeverSelfTrades, NoCrossingCancelFails, After, Meets, Crosses, Enabled;
    var settle := AllCancelsSettle(s, fail);
    var t := After(s, settle);
    var out := [AllSettled(true)];
    GoingOut(t);
    var u := Next(t, AllSettled(true));
    StaysUncrossed(s, settle);
    assert !Safe(u) by { UnsafeAtPlacing(s, t, u, fail); }
    UnsafeSelfTrades(u);
    var trade :| Possible(u, trade) && !NeverSelfTrades(u, trade) && forall i :: 0 <= i < |trade| ==> Arrives(trade[i]);
    RunThen(t, out, trade);
    RunThen(s, settle, out + trade);
    var run := settle + (out + trade);
    if !fail {
      NoneFails(s, run);
    }
    assert Possible(s, run) && !NeverSelfTrades(s, run);
  }

  lemma GoingOut(t: Cycle)
    requires t.phase == CancellingFirst && t.cancels == {} && t.places == {}
    ensures Possible(t, [AllSettled(true)]) && After(t, [AllSettled(true)]) == Next(t, AllSettled(true))
  {
    assert [AllSettled(true)][1..] == [];
  }

  lemma {:induction false} StaysUncrossed(s: Cycle, run: seq<Action>)
    requires NotCrossed(s.live) && Possible(s, run) && forall i :: 0 <= i < |run| ==> run[i].Cancelled? || run[i].CancelFailed?
    ensures NotCrossed(After(s, run).live)
    decreases |run|
  {
    if run != [] {
      assert forall i :: 0 <= i < |run[1..]| ==> run[1..][i] == run[i + 1];
      StaysUncrossed(Next(s, run[0]), run[1..]);
    }
  }

  lemma UnsafeAtPlacing(s: Cycle, t: Cycle, u: Cycle, fail: bool)
    requires s.phase == CancellingFirst && s.places == {}
    requires t == s.(cancels := {}, live := if fail then s.live else t.live)
    requires forall o :: o in s.live && o.id !in s.cancels ==> o in t.live
    requires u == t.(phase := Placing, places := set q | q in t.toPlace)
    requires fail ==> !NoneCrosses(s) || !LateIsHarmless(s)
    requires !fail ==> !Covered(s) || !QuotesNotCrossed((set q | q in s.toPlace) + s.unknown)
    ensures !Safe(u)
  {
    hide Crosses, Meets;
    NoneCrossesIsClear(u);
    if fail {
      NoneCrossesIsClear(s);
    } else if !Covered(s) {
      var o :| o in s.live && Crosses(o, s.toPlace) && o.id !in s.cancels;
      assert o in u.live;
    }
  }

  /**
   * The cancels of a cycle clear the way: provided the list it read has every live order that crosses and
   * no cancel of one fails, nothing that crosses is live as the placements go out.
   */
  lemma CancelsClearTheWay(desired: seq<Quote>, stale: bool, resting: seq<OwnOrder>, live: set<OwnOrder>, unknown: set<Quote>,
                           run: seq<Action>)
    requires var start := StartCycle(stale, desired, resting, live, unknown);
      && NotCrossed(live) && LateIsHarmless(start)
      && (start.phase == CancellingFirst ==>
            forall o :: o in live && Crosses(o, start.toPlace) ==> o.id in CrossingIds(resting, start.toPlace))
      && Possible(start, run) && NoCrossingCancelFails(start, run)
    ensures PlacesClear(StartCycle(stale, desired, resting, live, unknown), run)
  {
    hide Reconciled, CrossingIds, Crosses, Possible, NoCrossingCancelFails, PlacesClear;
    CoveredRunPlacesClear(StartCycle(stale, desired, resting, live, unknown), run);
  }

  /**
   * Exactly when a cycle is safe, by what is known as it starts. Given that no cancel fails on a live
   * crossing order, no run trades with itself if and only if what had timed out is harmless and, where
   * orders are placed at all, the list the cycle read has every live order that crosses. The list comes
   * from the database, which can be behind the engine.
   */
  lemma CancelsClearTheWayIff(desired: seq<Quote>, stale: bool, resting: seq<OwnOrder>, live: set<OwnOrder>, unknown: set<Quote>)
    requires QuotesNotCrossed(set q | q in desired) && NotCrossed(live)
    ensures var start := StartCycle(stale, desired, resting, live, unknown);
      (forall run :: Possible(start, run) && NoCrossingCancelFails(start, run) ==> NeverSelfTrades(start, run))
      <==> LateIsHarmless(start)
           && (start.phase == CancellingFirst ==>
                 forall o :: o in live && Crosses(o, start.toPlace) ==> o.id in CrossingIds(resting, start.toPlace))
  {
    hide Possible, NeverSelfTrades, NoCrossingCancelFails, After, Meets, Crosses, Reconciled, PlacesClear, Enabled, CrossingIds;
    var start := StartCycle(stale, desired, resting, live, unknown);
    if LateIsHarmless(start) && (start.phase == CancellingFirst ==> Covered(start)) {
      forall run | Possible(start, run) && NoCrossingCancelFails(start, run) ensures NeverSelfTrades(start, run) {
        CancelsClearTheWay(desired, stale, resting, live, unknown, run);
        MakerNeverCrossesItself(desired, stale, resting, live, unknown, run);
      }
    } else {
      ToPlaceIsUncrossed(stale, desired, resting, live, unknown);
      UnsafeStart(start);
    }
  }

  /** A start that is not safe has a run that trades, and no cancel of it fails. */
  lemma UnsafeStart(s: Cycle)
    requires s.places == {} && NotCrossed(s.live) && (s.phase != CancellingFirst ==> s.toPlace == [])
    requires !LateIsHarmless(s) || (s.phase == CancellingFirst && !Covered(s))
    ensures exists run :: Possible(s, run) && NoCrossingCancelFails(s, run) && !NeverSelfTrades(s, run)
  {
    hide Possible, NeverSelfTrades, NoCrossingCancelFails, After, Meets, Crosses, Enabled;
    if s.phase == CancellingFirst && (!Covered(s) || !QuotesNotCrossed((set q | q in s.toPlace) + s.unknown)) {
      PlacingUnsafely(s, false);
    } else {
      assert !Safe(s) by {
        assert OnTheWay(s) == s.unknown;
        if s.phase != CancellingFirst {
          assert (set q | q in s.toPlace) + s.unknown == s.unknown;
        }
      }
      UnsafeSelfTrades(s);
      var run :| Possible(s, run) && !NeverSelfTrades(s, run) && forall i :: 0 <= i < |run| ==> Arrives(run[i]);
      NoneFails(s, run);
    }
  }

  /**
   * And when cancels may fail as well: no run trades with itself if and only if what had timed out is
   * harmless and, where orders are placed at all, no live order crosses to begin with.
   */
  lemma NoCycleSelfTradesIff(desired: seq<Quote>, stale: bool, resting: seq<OwnOrder>, live: set<OwnOrder>, unknown: set<Quote>)
    requires QuotesNotCrossed(set q | q in desired) && NotCrossed(live)
    ensures var start := StartCycle(stale, desired, resting, live, unknown);
      (forall run :: Possible(start, run) ==> NeverSelfTrades(start, run))
      <==> LateIsHarmless(start) && (start.phase == CancellingFirst ==> NoneCrosses(start))
  {
    hide Possible, NeverSelfTrades, NoCrossingCancelFails, After, Meets, Crosses, Reconciled, PlacesClear, Enabled, CrossingIds;
    var start := StartCycle(stale, desired, resting, live, unknown);
    if !LateIsHarmless(start) {
      UnsafeStart(start);
    } else if start.phase == CancellingFirst && !NoneCrosses(start) {
      PlacingUnsafely(start, true);
    } else {
      forall run | Possible(start, run) ensures NeverSelfTrades(start, run) {
        if start.phase == CancellingFirst {
          NoCrossingRunPlacesClear(start, run);
        } else {
          LaterRunPlacesClear(start, run);
        }
        MakerNeverCrossesItself(desired, stale, resting, live, unknown, run);
      }
    }
  }

  lemma NoCrossingStep(s: Cycle, a: Action)
    requires Clearing(s) && NoneCrosses(s) && Enabled(s, a) && Next(s, a).phase == CancellingFirst
    ensures NoneCrosses(Next(s, a)) && Clearing(Next(s, a))
  {
    hide Crosses;
    ClearingStep(s, a);
    NoneCrossesIsClear(s);
    NoneCrossesIsClear(Next(s, a));
  }

  lemma {:induction false} NoCrossingRunPlacesClear(s: Cycle, run: seq<Action>)
    requires Possible(s, run) && Clearing(s) && NoneCrosses(s)
    ensures PlacesClear(s, run)
    decreases |run|
  {
    hide Clearing, Enabled, NoneCrosses;
    if run != [] {
      var t := Next(s, run[0]);
      if t.phase == CancellingFirst {
        NoCrossingStep(s, run[0]);
        NoCrossingRunPlacesClear(t, run[1..]);
      } else {
        LaterRunPlacesClear(t, run[1..]);
      }
    }
  }

  lemma {:induction false} LaterRunPlacesClear(s: Cycle, run: seq<Action>)
    requires s.phase != CancellingFirst
    ensures PlacesClear(s, run)
    decreases |run|
  {
    hide NoneCrosses;
    if run != [] {
      NoWayBack(s, run[0]);
      LaterRunPlacesClear(Next(s, run[0]), run[1..]);
    }
  }

  // ----- three cycles that trade with themselves

  lemma OneBidIsPlaced(b: Quote, resting: seq<OwnOrder>)
    requires b.side == LONG && |resting| <= 1 && forall o :: o in resting ==> o.side == SHORT
    ensures Reconciled([b], resting).toPlace == [b]
  {
    assert [b][..0] == [] && QuotesOn([b], LONG) == [b] && QuotesOn([b], SHORT) == [];
    if resting != [] {
      assert resting[..0] == [] && resting[0] in resting;
      assert OnSide(resting, LONG) == OnSide(resting[..0], LONG);
    }
    assert BySide(resting, LONG) == [];
    assert Claimed([b], []) == Claims([None], [], []);
    var none: seq<Option<OwnOrder>> := [None];
    assert none[..0] == [] && Unadopted([b], none) == [b] && Somes(none) == [];
    assert Prices([]) == {} && NotAt([b], {}) == [b];
    assert SideDiff([b], []).toPlace == NotAt(Unadopted([b], none), Prices(Somes(none)));
    assert Unadopted([], []) == [] && SideDiff([], BySide(resting, SHORT)).toPlace == [];
  }

  /** An own ask at or below a bid the cycle wants to place. */
  ghost predicate InTheWay(a: OwnOrder, b: Quote) {
    a.side == SHORT && b.side == LONG && a.price <= b.price
  }

  lemma InTheWayCrosses(a: OwnOrder, b: Quote)
    requires InTheWay(a, b)
    ensures Crosses(a, [b]) && Meets(a, b)
  {
    CrossesIffMeetsSome(a, [b]);
    assert b in [b];
  }

  /** Its cancel fails: failures are logged and the bid goes out all the same. */
  lemma FailedCancelSelfTrades(a: OwnOrder, b: Quote)
    requires InTheWay(a, b)
    ensures exists run ::
      Possible(StartCycle(false, [b], [a], {a}, {}), run) && !NeverSelfTrades(StartCycle(false, [b], [a], {a}, {}), run)
  {
    hide Possible, NeverSelfTrades, Reconciled, Crosses, Meets;
    OneBidIsPlaced(b, [a]);
    InTheWayCrosses(a, b);
    NoCycleSelfTradesIff([b], false, [a], {a}, {});
  }

  /** It is missing from the list the cycle reads: nobody cancels it, and no cancel fails. */
  lemma UnlistedOrderSelfTrades(a: OwnOrder, b: Quote)
    requires InTheWay(a, b)
    ensures var start := StartCycle(false, [b], [], {a}, {});
      exists run :: Possible(start, run) && NoCrossingCancelFails(start, run) && !NeverSelfTrades(start, run)
  {
    hide Possible, NeverSelfTrades, NoCrossingCancelFails, Reconciled, Crosses, Meets;
    OneBidIsPlaced(b, []);
    InTheWayCrosses(a, b);
    CancelsClearTheWayIff([b], false, [], {a}, {});
  }

  /** It timed out in an earlier cycle and lands in this one. */
  lemma LatePlacementSelfTrades(a: Quote, b: Quote)
    requires InTheWay(Order(a, 0), b)
    ensures var start := StartCycle(false, [b], [], {}, {a});
      exists run :: Possible(start, run) && NoCrossingCancelFails(start, run) && !NeverSelfTrades(start, run)
  {
    hide Possible, NeverSelfTrades, NoCrossingCancelFails, Reconciled, Crosses, Meets;
    OneBidIsPlaced(b, []);
    assert b in [b];
    CancelsClearTheWayIff([b], false, [], {}, {a});
  }

  /** What `BuildLadder` builds is such a ladder, for every anchor, inventory and skew, once the spread is wide enough. */
  lemma BuiltLaddersAreUncrossed(anchor: real, signedNotional: real, grid: real, m: MarketSpec, c: LadderConfig, mult: Multiplier)
    requires LegalMarket(m) && LegalConfig(c) && IsGrid(grid, m.priceScale) && Spread(anchor, c) > 2.0 * TICK_EPSILON * grid
    ensures var bids, asks := SideOf(anchor, signedNotional, LONG, grid, m, c, mult), SideOf(anchor, signedNotional, SHORT, grid, m, c, mult);
      QuotesNotCrossed(set q | q in bids + asks)
  {
    hide SideOf, Spread;
    LadderIsUncrossed(anchor, signedNotional, grid, m, c, mult);
    BuiltSide(anchor, signedNotional, LONG, grid, m, c, mult);
    BuiltSide(anchor, signedNotional, SHORT, grid, m, c, mult);
  }
}
