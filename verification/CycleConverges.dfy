/** A cycle that settles. */
module CycleConverges {
  import opened Exchange
  import opened QuoteLadder
  import opened LadderReconcile
  import opened LadderConvergence
  import Cycles = MakerCycle
  import opened LadderTerms

  /** Every request of the run succeeds, the maker keeps running, and nobody trades meanwhile. */
  predicate Settles(run: seq<Cycles.Action>) {
    forall a :: a in run ==> a.Cancelled? || a.Accepted? || a == Cycles.AllSettled(true)
  }

  /** New orders get ids that no order still to be cancelled has. */
  predicate NewIds(run: seq<Cycles.Action>, taken: set<Uuid>) {
    forall a :: a in run && a.Accepted? ==> a.id !in taken
  }

  /** What is still to be cancelled from here on, and what is still to be placed. */
  function ToGo(s: Cycles.Cycle): set<Uuid> {
    s.cancels + if s.phase == Cycles.CancellingFirst || s.phase == Cycles.Placing then s.later else {}
  }

  function ToCome(s: Cycles.Cycle): set<Quote> {
    if s.phase == Cycles.CancellingFirst then Quotes(s.toPlace) else if s.phase == Cycles.Placing then s.places else {}
  }

  function AsSet(orders: seq<OwnOrder>): set<OwnOrder> {
    set o | o in orders
  }

  function Quotes(qs: seq<Quote>): set<Quote> {
    set q | q in qs
  }

  function PlacedSet(qs: set<Quote>, newId: Quote -> Uuid): set<OwnOrder> {
    set q | q in qs :: Cycles.Order(q, newId(q))
  }

  function Kept(live: set<OwnOrder>, gone: set<Uuid>): set<OwnOrder> {
    set o | o in live && o.id !in gone
  }

  /** The orders live at the end are those that were not cancelled and one for each quote. */
  ghost predicate EndsWith(s: Cycles.Cycle, end: Cycles.Cycle) {
    exists newId: Quote -> Uuid :: end.live == Kept(s.live, ToGo(s)) + PlacedSet(ToCome(s), newId)
  }

  lemma AllInPlace(s: Cycles.Cycle)
    requires s.phase == Cycles.Finished && s.cancels == {}
    ensures EndsWith(s, s)
  {
    var newId: Quote -> Uuid := _ => 0;
    assert s.live == Kept(s.live, ToGo(s)) + PlacedSet(ToCome(s), newId);
  }

  lemma OneStepNearer(s: Cycles.Cycle, a: Cycles.Action, end: Cycles.Cycle)
    requires Cycles.Enabled(s, a) && Settles([a]) && NewIds([a], ToGo(s)) && EndsWith(Cycles.Next(s, a), end)
    requires s.phase != Cycles.CancellingFirst && s.phase != Cycles.Placing ==> s.places == {}
    requires s.phase == Cycles.Placing ==> s.cancels == {}
    ensures EndsWith(s, end)
  {
    var t := Cycles.Next(s, a);
    var newId :| end.live == Kept(t.live, ToGo(t)) + PlacedSet(ToCome(t), newId);
    assert a in [a];
    if a.Accepted? {
      var next := (q: Quote) => if q == a.quote then a.id else newId(q);
      assert PlacedSet(ToCome(s), next) == PlacedSet(ToCome(t), newId) + {Cycles.Order(a.quote, a.id)} by {
        assert ToCome(s) == ToCome(t) + {a.quote} && a.quote !in ToCome(t);
        assert next(a.quote) == a.id;
        forall q | q in ToCome(t) ensures next(q) == newId(q) {
        }
      }
      assert Kept(t.live, ToGo(t)) == Kept(s.live, ToGo(s)) + {Cycles.Order(a.quote, a.id)};
      assert end.live == Kept(s.live, ToGo(s)) + PlacedSet(ToCome(s), next);
    } else {
      assert Kept(t.live, ToGo(t)) == Kept(s.live, ToGo(s)) && ToCome(t) == ToCome(s);
    }
  }

  /** In the middle of such a cycle nothing else is under way. */
  predicate OnCourse(s: Cycles.Cycle) {
    && (s.phase != Cycles.Placing ==> s.places == {})
    && (s.phase == Cycles.Placing || s.phase == Cycles.Finished ==> s.cancels == {})
  }

  lemma StaysOnCourse(s: Cycles.Cycle, a: Cycles.Action)
    requires OnCourse(s) && Cycles.Enabled(s, a)
    ensures OnCourse(Cycles.Next(s, a)) && ToGo(Cycles.Next(s, a)) <= ToGo(s)
  {
  }

  lemma {:induction false} SettledRunEnds(s: Cycles.Cycle, run: seq<Cycles.Action>)
    requires OnCourse(s) && Cycles.Possible(s, run) && Settles(run) && NewIds(run, ToGo(s)) && Cycles.After(s, run).phase == Cycles.Finished
    ensures EndsWith(s, Cycles.After(s, run))
    decreases |run|
  {
    hide Cycles.Enabled, EndsWith, ToGo;
    if run == [] {
      AllInPlace(s);
    } else {
      StaysOnCourse(s, run[0]);
      assert run[0] in run && forall a :: a in run[1..] ==> a in run;
      assert Settles([run[0]]) && NewIds([run[0]], ToGo(s));
      SettledRunEnds(Cycles.Next(s, run[0]), run[1..]);
      OneStepNearer(s, run[0], Cycles.After(s, run));
    }
  }

  // ----- adopted orders are not in the way

  /** A whole cell or more between any bid and any ask that is desired. */
  ghost predicate ACellApart(desired: seq<Quote>, grid: real) {
    forall b, a :: b in desired && a in desired && b.side == LONG && a.side == SHORT ==> b.price + grid <= a.price
  }

  lemma AdoptedRung(desired: seq<Quote>, resting: seq<OwnOrder>, o: OwnOrder) returns (q: Quote)
    requires UniqueIds(resting) && o in resting && o.id !in Ids(Reconciled(desired, resting).toCancel)
    ensures q in desired && q.side == o.side && Near(o, q)
  {
    var c := SideClaims(desired, resting, o.side);
    AdoptedSurvive(desired, resting, o);
    SurvivorCounts(resting, Ids(Reconciled(desired, resting).toCancel), o);
    CountIffIn(resting, o);
    CountIffIn(Somes(c.adopted), o);
    SomesWereAdopted(c.adopted, o);
    ClaimsSuit(QuotesOn(desired, o.side), BySide(resting, o.side));
    var i :| 0 <= i < |c.adopted| && c.adopted[i] == Some(o);
    q := QuotesOn(desired, o.side)[i];
    QuotesOnAreOnSide(desired, o.side);
    Cycles.QuotesOnIsPart(desired, o.side, q);
  }

  /**
   * An adopted order never crosses a quote that is placed: with tolerances below half a cell and the sides
   * a cell apart, only orders the difference cancels anyway can be in the way.
   */
  lemma AdoptedNeverCrosses(desired: seq<Quote>, resting: seq<OwnOrder>, grid: real)
    requires IsLadder(desired, grid) && ACellApart(desired, grid) && UniqueIds(resting)
    ensures Cycles.CrossingIds(resting, Reconciled(desired, resting).toPlace) <= Ids(Reconciled(desired, resting).toCancel)
  {
    hide Reconciled, Near, Cycles.Crosses;
    var d := Reconciled(desired, resting);
    forall o | o in resting && Cycles.Crosses(o, d.toPlace) ensures o.id in Ids(d.toCancel) {
      if o.id !in Ids(d.toCancel) {
        var q := AdoptedRung(desired, resting, o);
        Cycles.CrossesIffMeetsSome(o, d.toPlace);
        var p :| p in d.toPlace && Cycles.Meets(o, p);
        Cycles.ToPlaceWasDesired(desired, resting, p);
        NearMeans(desired, grid, o, q);
        assert false;
      }
    }
  }

  lemma NearMeans(desired: seq<Quote>, grid: real, o: OwnOrder, q: Quote)
    requires IsLadder(desired, grid) && q in desired && Near(o, q)
    ensures grid > 0.0 && q.price - 0.45 * grid <= o.price <= q.price + 0.45 * grid
  {
    var i := IndexOn(desired, q);
    assert QuotesOn(desired, q.side)[i] == q;
  }

  lemma {:induction false} IndexOn(desired: seq<Quote>, q: Quote) returns (i: nat)
    requires q in desired
    ensures i < |QuotesOn(desired, q.side)| && QuotesOn(desired, q.side)[i] == q
  {
    var n := |desired| - 1;
    if desired[n] == q {
      i := |QuotesOn(desired[..n], q.side)|;
    } else {
      i := IndexOn(desired[..n], q);
    }
  }

  // ----- the whole cycle

  lemma {:induction false} SurvivorsAre(orders: seq<OwnOrder>, gone: set<Uuid>, o: OwnOrder)
    ensures o in Survivors(orders, gone) <==> o in orders && o.id !in gone
  {
    SurvivorCounts(orders, gone, o);
    CountIffIn(orders, o);
    CountIffIn(Survivors(orders, gone), o);
  }

  lemma AfterAsASet(resting: seq<OwnOrder>, d: Diff, newId: Quote -> Uuid)
    ensures AsSet(LadderConvergence.After(resting, d, newId))
      == Kept(AsSet(resting), Ids(d.toCancel)) + PlacedSet(Quotes(d.toPlace), newId)
  {
    hide Survivors;
    var after := LadderConvergence.After(resting, d, newId);
    forall o ensures o in after <==> o in Kept(AsSet(resting), Ids(d.toCancel)) || o in PlacedSet(Quotes(d.toPlace), newId) {
      SurvivorsAre(resting, Ids(d.toCancel), o);
      var placed := PlacedAll(d.toPlace, newId);
      if o in placed {
        var i :| 0 <= i < |placed| && placed[i] == o;
        assert d.toPlace[i] in d.toPlace && o == Cycles.Order(d.toPlace[i], newId(d.toPlace[i]));
      }
      if o in PlacedSet(Quotes(d.toPlace), newId) {
        var q :| q in d.toPlace && o == Cycles.Order(q, newId(q));
        var i :| 0 <= i < |d.toPlace| && d.toPlace[i] == q;
        assert placed[i] == o;
      }
    }
  }

  /**
   * The maker's cycle carries the reconcile out. From a list that is what is live, with a ladder whose
   * sides are a cell apart, whatever order its requests settle in: when all of them succeed and nobody
   * trades meanwhile, exactly one fitting order per rung is live on each side, and the next cycle has
   * nothing to do.
   */
  lemma SettledCycleConverges(desired: seq<Quote>, resting: seq<OwnOrder>, grid: real, run: seq<Cycles.Action>)
    requires IsLadder(desired, grid) && ACellApart(desired, grid) && UniqueIds(resting)
    requires var start := Cycles.StartCycle(false, desired, resting, AsSet(resting), {});
      && Cycles.Possible(start, run) && Settles(run) && NewIds(run, Ids(resting)) && Cycles.After(start, run).phase == Cycles.Finished
    ensures var end := Cycles.After(Cycles.StartCycle(false, desired, resting, AsSet(resting), {}), run);
      exists orders: seq<OwnOrder> ::
        && end.live == AsSet(orders)
        && (forall side :: OnePerRung(BySide(orders, side), QuotesOn(desired, side)))
        && Reconciled(desired, orders) == Diff([], [])
  {
    hide Reconciled, Survivors, PlacedAll, OnePerRung, BySide, QuotesOn, IsLadder, ACellApart, Cycles.Possible, Cycles.After, Cycles.Crosses, LadderConvergence.After;
    var d := Reconciled(desired, resting);
    var start := Cycles.StartCycle(false, desired, resting, AsSet(resting), {});
    var end := Cycles.After(start, run);
    var newId := NewOrders(desired, resting, grid, run);
    AfterAsASet(resting, d, newId);
    OneReconcileConverges(desired, resting, grid, newId);
    var orders := LadderConvergence.After(resting, d, newId);
    assert end.live == AsSet(orders);
  }

  lemma NewOrders(desired: seq<Quote>, resting: seq<OwnOrder>, grid: real, run: seq<Cycles.Action>) returns (newId: Quote -> Uuid)
    requires IsLadder(desired, grid) && ACellApart(desired, grid) && UniqueIds(resting)
    requires var start := Cycles.StartCycle(false, desired, resting, AsSet(resting), {});
      && Cycles.Possible(start, run) && Settles(run) && NewIds(run, Ids(resting)) && Cycles.After(start, run).phase == Cycles.Finished
    ensures var d := Reconciled(desired, resting);
      Cycles.After(Cycles.StartCycle(false, desired, resting, AsSet(resting), {}), run).live
        == Kept(AsSet(resting), Ids(d.toCancel)) + PlacedSet(Quotes(d.toPlace), newId)
  {
    hide Reconciled, IsLadder, ACellApart, Cycles.Possible, Cycles.After, Cycles.Crosses;
    var d := Reconciled(desired, resting);
    var start := Cycles.StartCycle(false, desired, resting, AsSet(resting), {});
    AdoptedNeverCrosses(desired, resting, grid);
    CancelsAreListed(desired, resting);
    SettledRunEnds(start, run);
    newId :| Cycles.After(start, run).live == Kept(start.live, ToGo(start)) + PlacedSet(ToCome(start), newId);
    if d != Diff([], []) {
      assert ToGo(start) == Ids(d.toCancel);
    }
  }

  lemma CancelsAreListed(desired: seq<Quote>, resting: seq<OwnOrder>)
    ensures Ids(Reconciled(desired, resting).toCancel) <= Ids(resting)
  {
    hide Reconciled;
    forall o | o in Reconciled(desired, resting).toCancel ensures o in resting {
      CancelledWereResting(desired, resting, o);
    }
  }

  /** A cycle without a fresh anchor pulls everything: when its requests succeed none of the orders listed is live. */
  lemma StaleCyclePullsEverything(desired: seq<Quote>, resting: seq<OwnOrder>, live: set<OwnOrder>, run: seq<Cycles.Action>)
    requires var start := Cycles.StartCycle(true, desired, resting, live, {});
      && Cycles.Possible(start, run) && Settles(run) && NewIds(run, Ids(resting)) && Cycles.After(start, run).phase == Cycles.Finished
    ensures var end := Cycles.After(Cycles.StartCycle(true, desired, resting, live, {}), run);
      end.live == Kept(live, Ids(resting)) && (live == AsSet(resting) ==> end.live == {})
  {
    hide Cycles.Possible, Cycles.After;
    var start := Cycles.StartCycle(true, desired, resting, live, {});
    SettledRunEnds(start, run);
    var newId :| Cycles.After(start, run).live == Kept(start.live, ToGo(start)) + PlacedSet(ToCome(start), newId);
  }

  // ----- for the ladders the maker builds

  lemma OnACell(anchor: real, signedNotional: real, side: PositionType, grid: real, m: MarketSpec, c: LadderConfig, mult: Multiplier, q: Quote)
    returns (k: int)
    requires LegalMarket(m) && LegalConfig(c) && IsGrid(grid, m.priceScale) && q in SideOf(anchor, signedNotional, side, grid, m, c, mult)
    ensures q.side == side && q.price == Times(k, grid)
  {
    hide SideOf, OnTerms;
    BuiltRungsAreOnTerms(anchor, signedNotional, side, grid, m, c, mult, q);
    k :| q.price == k as real * grid && OnTerms(q, k, grid, m, c, mult);
  }

  lemma BuiltSidesAreApart(anchor: real, signedNotional: real, grid: real, m: MarketSpec, c: LadderConfig, mult: Multiplier)
    requires LegalMarket(m) && LegalConfig(c) && IsGrid(grid, m.priceScale) && Spread(anchor, c) > 2.0 * TICK_EPSILON * grid
    ensures ACellApart(SideOf(anchor, signedNotional, LONG, grid, m, c, mult) + SideOf(anchor, signedNotional, SHORT, grid, m, c, mult), grid)
  {
    hide SideOf, Spread, Times;
    var bids, asks := SideOf(anchor, signedNotional, LONG, grid, m, c, mult), SideOf(anchor, signedNotional, SHORT, grid, m, c, mult);
    LadderIsUncrossed(anchor, signedNotional, grid, m, c, mult);
    forall b: Quote, a: Quote | b in bids + asks && a in bids + asks && b.side == LONG && a.side == SHORT ensures b.price + grid <= a.price {
      var j := OnACell(anchor, signedNotional, if b in bids then LONG else SHORT, grid, m, c, mult, b);
      var k := OnACell(anchor, signedNotional, if a in bids then LONG else SHORT, grid, m, c, mult, a);
      TimesMonotone(j, k, grid);
    }
  }

  /** So every settled cycle of the maker ends with its built ladder live, one fitting order per rung. */
  lemma BuiltLadderSettles(anchor: real, signedNotional: real, grid: real, m: MarketSpec, c: LadderConfig, mult: Multiplier,
                           resting: seq<OwnOrder>, run: seq<Cycles.Action>)
    requires LegalMarket(m) && LegalConfig(c) && IsGrid(grid, m.priceScale) && Spread(anchor, c) > 2.0 * TICK_EPSILON * grid && UniqueIds(resting)
    requires var desired := SideOf(anchor, signedNotional, LONG, grid, m, c, mult) + SideOf(anchor, signedNotional, SHORT, grid, m, c, mult);
      var start := Cycles.StartCycle(false, desired, resting, AsSet(resting), {});
      && Cycles.Possible(start, run) && Settles(run) && NewIds(run, Ids(resting)) && Cycles.After(start, run).phase == Cycles.Finished
    ensures var desired := SideOf(anchor, signedNotional, LONG, grid, m, c, mult) + SideOf(anchor, signedNotional, SHORT, grid, m, c, mult);
      exists orders: seq<OwnOrder> ::
        && Cycles.After(Cycles.StartCycle(false, desired, resting, AsSet(resting), {}), run).live == AsSet(orders)
        && (forall side :: OnePerRung(BySide(orders, side), SideOf(anchor, signedNotional, side, grid, m, c, mult)))
        && Reconciled(desired, orders) == Diff([], [])
  {
    hide SideOf, Spread, ACellApart, IsLadder, Cycles.Possible, Cycles.After, Cycles.StartCycle, OnePerRung, BySide, QuotesOn, Reconciled;
    var desired := SideOf(anchor, signedNotional, LONG, grid, m, c, mult) + SideOf(anchor, signedNotional, SHORT, grid, m, c, mult);
    BuiltSidesAreApart(anchor, signedNotional, grid, m, c, mult);
    BuiltLaddersAreLadders(anchor, signedNotional, grid, m, c, mult);
    SettledCycleConverges(desired, resting, grid, run);
  }
}
