/** One reconcile is enough. */
module LadderConvergence {
  import opened Exchange
  import opened Sequences
  import opened QuoteLadder
  import opened LadderReconcile

  // ----- rungs that cannot be confused

  /** A cell or more between any two rungs, and tolerances that never reach half a cell. */
  ghost predicate Apart(qs: seq<Quote>, grid: real) {
    && grid > 0.0
    && (forall i :: 0 <= i < |qs| ==> 0.0 <= qs[i].tolerance <= MAX_TOLERANCE_OF_STEP * grid && qs[i].qty > 0.0)
    && (forall i, j :: 0 <= i < j < |qs| ==> Gap(qs[i].price, qs[j].price) >= grid)
  }

  lemma SidesAreApart(qs: seq<Quote>, cell: int, side: PositionType, n: nat, grid: real)
    requires InsideOut(qs, cell, side, n, grid) && grid > 0.0
    ensures Apart(qs, grid)
  {
    forall i | 0 <= i < |qs| ensures 0.0 <= qs[i].tolerance <= MAX_TOLERANCE_OF_STEP * grid && qs[i].qty > 0.0 {
      assert IsRung(qs[i], cell, side, grid);
    }
    forall i, j | 0 <= i < j < |qs| ensures Gap(qs[i].price, qs[j].price) >= grid {
      RungsAreACellApart(qs, cell, side, n, grid, i, j);
    }
  }

  /** An order is near at most one rung. */
  lemma NearIsUnique(qs: seq<Quote>, grid: real, o: OwnOrder, i: nat, j: nat)
    requires Apart(qs, grid) && i < |qs| && j < |qs|
    ensures Near(o, qs[i]) && Near(o, qs[j]) ==> i == j
  {
    if i < j {
      assert Gap(qs[i].price, qs[j].price) >= grid;
    } else if j < i {
      assert Gap(qs[j].price, qs[i].price) >= grid;
    }
  }

  // ----- what claiming keeps track of

  /** One rung takes an order from those left, to adopt it or to cancel it. */
  lemma ClaimAccounts(qs: seq<Quote>, c: Claims, q: Quote, x: OwnOrder)
    requires |c.adopted| == |qs|
    ensures var d := ClaimFor(c, q);
      Count(d.left, x) + Count(Somes(d.adopted), x) + Count(d.cancelled, x) == Count(c.left, x) + Count(Somes(c.adopted), x) + Count(c.cancelled, x)
  {
    hide Near, Fits, Nearest, Count, Somes;
    var i := Nearest(c.left, q.price);
    ClaimGrows(qs, c, q);
    if i >= 0 {
      CountRemove(c.left, i, x);
      CountPush(c.cancelled, c.left[i], x);
      CountPush(Somes(c.adopted), c.left[i], x);
    }
  }

  /** Every order ends up adopted, cancelled or left over, and only once. */
  lemma {:induction false} ClaimedAccounts(qs: seq<Quote>, av: seq<OwnOrder>, x: OwnOrder)
    ensures var c := Claimed(qs, av); Count(av, x) == Count(Somes(c.adopted), x) + Count(c.cancelled, x) + Count(c.left, x)
  {
    hide ClaimFor;
    if qs != [] {
      var n := |qs| - 1;
      ClaimedAccounts(qs[..n], av, x);
      ClaimAccounts(qs[..n], Claimed(qs[..n], av), qs[n], x);
    }
  }

  /** What a rung adopts is near it and fits it. */
  ghost predicate Suits(adopted: seq<Option<OwnOrder>>, qs: seq<Quote>) {
    && |adopted| == |qs|
    && forall i :: 0 <= i < |qs| && adopted[i].Some? ==> Near(adopted[i].value, qs[i]) && Fits(adopted[i].value, qs[i])
  }

  lemma {:induction false} ClaimsSuit(qs: seq<Quote>, av: seq<OwnOrder>)
    ensures Suits(Claimed(qs, av).adopted, qs)
  {
    hide Near, Fits, Nearest;
    if qs != [] {
      ClaimsSuit(qs[..|qs| - 1], av);
    }
  }

  lemma {:induction false} UnadoptedRungs(qs: seq<Quote>, adopted: seq<Option<OwnOrder>>, q: Quote)
    requires |qs| == |adopted| && q in Unadopted(qs, adopted)
    ensures exists i :: 0 <= i < |qs| && qs[i] == q && adopted[i] == None
  {
    var n := |qs| - 1;
    if adopted[n] == None && q == qs[n] {
    } else {
      UnadoptedRungs(qs[..n], adopted[..n], q);
    }
  }

  lemma {:induction false} SomesWereAdopted(adopted: seq<Option<OwnOrder>>, o: OwnOrder)
    requires o in Somes(adopted)
    ensures exists i :: 0 <= i < |adopted| && adopted[i] == Some(o)
  {
    var n := |adopted| - 1;
    if adopted[n] == Some(o) {
    } else {
      SomesWereAdopted(adopted[..n], o);
    }
  }

  lemma {:induction false} NotAtKeepsAll(qs: seq<Quote>, prices: set<real>)
    requires forall i :: 0 <= i < |qs| ==> qs[i].price !in prices
    ensures NotAt(qs, prices) == qs
  {
    if qs != [] {
      NotAtKeepsAll(qs[..|qs| - 1], prices);
    }
  }

  lemma AtThePriceIsNear(qs: seq<Quote>, grid: real, o: OwnOrder, i: nat)
    requires Apart(qs, grid) && i < |qs| && o.price == qs[i].price
    ensures Near(o, qs[i])
  {
  }

  /** The guard against placing onto an adopted price never has to drop a rung. */
  lemma NoRungIsDropped(qs: seq<Quote>, grid: real, adopted: seq<Option<OwnOrder>>)
    requires Apart(qs, grid) && |adopted| == |qs|
    requires forall i :: 0 <= i < |qs| && adopted[i].Some? ==> Near(adopted[i].value, qs[i])
    ensures NotAt(Unadopted(qs, adopted), Prices(Somes(adopted))) == Unadopted(qs, adopted)
  {
    hide Near, Apart, NotAt, Unadopted, Somes;
    var pending, prices := Unadopted(qs, adopted), Prices(Somes(adopted));
    forall k | 0 <= k < |pending| ensures pending[k].price !in prices {
      var q := pending[k];
      UnadoptedRungs(qs, adopted, q);
      var i :| 0 <= i < |qs| && qs[i] == q && adopted[i] == None;
      forall o | o in Somes(adopted) ensures o.price != q.price {
        SomesWereAdopted(adopted, o);
        var j :| 0 <= j < |adopted| && adopted[j] == Some(o);
        NearIsUnique(qs, grid, o, i, j);
        if o.price == q.price {
          AtThePriceIsNear(qs, grid, o, i);
        }
      }
    }
    NotAtKeepsAll(pending, prices);
  }

  // ----- the resting orders once the difference is carried out

  /** A placed quote, resting whole; `newId` is whatever id the exchange issues for it. */
  function PlacedAs(q: Quote, newId: Quote -> Uuid): OwnOrder {
    OwnOrder(newId(q), q.side, q.price, q.qty)
  }

  function PlacedAll(qs: seq<Quote>, newId: Quote -> Uuid): (os: seq<OwnOrder>)
    ensures |os| == |qs| && forall i :: 0 <= i < |qs| ==> os[i] == PlacedAs(qs[i], newId)
  {
    if qs == [] then [] else PlacedAll(qs[..|qs| - 1], newId) + [PlacedAs(qs[|qs| - 1], newId)]
  }

  function Ids(orders: seq<OwnOrder>): set<Uuid> {
    set o | o in orders :: o.id
  }

  function Survivors(orders: seq<OwnOrder>, gone: set<Uuid>): seq<OwnOrder> {
    if orders == [] then []
    else
      var n := |orders| - 1;
      var before := Survivors(orders[..n], gone);
      if orders[n].id in gone then before else before + [orders[n]]
  }

  function After(resting: seq<OwnOrder>, d: Diff, newId: Quote -> Uuid): seq<OwnOrder> {
    Survivors(resting, Ids(d.toCancel)) + PlacedAll(d.toPlace, newId)
  }

  ghost predicate UniqueIds(orders: seq<OwnOrder>) {
    forall i, j :: 0 <= i < j < |orders| ==> orders[i].id != orders[j].id
  }

  /** Rung by rung, the order that stands for it: the adopted one, or the one just placed. */
  function Standing(qs: seq<Quote>, adopted: seq<Option<OwnOrder>>, newId: Quote -> Uuid): (st: seq<OwnOrder>)
    requires |qs| == |adopted|
    ensures |st| == |qs|
    ensures forall i :: 0 <= i < |qs| ==> st[i] == if adopted[i].Some? then adopted[i].value else PlacedAs(qs[i], newId)
  {
    if qs == [] then []
    else
      var n := |qs| - 1;
      Standing(qs[..n], adopted[..n], newId) + [if adopted[n].Some? then adopted[n].value else PlacedAs(qs[n], newId)]
  }

  lemma {:induction false} StandingCounts(qs: seq<Quote>, adopted: seq<Option<OwnOrder>>, newId: Quote -> Uuid, x: OwnOrder)
    requires |qs| == |adopted|
    ensures Count(Standing(qs, adopted, newId), x) == Count(Somes(adopted), x) + Count(PlacedAll(Unadopted(qs, adopted), newId), x)
  {
    if qs != [] {
      var n := |qs| - 1;
      StandingCounts(qs[..n], adopted[..n], newId, x);
      var quotes, orders := Unadopted(qs[..n], adopted[..n]), Somes(adopted[..n]);
      if adopted[n] == None {
        PlacedAllPush(quotes, qs[n], newId);
        CountPush(PlacedAll(quotes, newId), PlacedAs(qs[n], newId), x);
        CountPush(Standing(qs[..n], adopted[..n], newId), PlacedAs(qs[n], newId), x);
      } else {
        CountPush(orders, adopted[n].value, x);
        CountPush(Standing(qs[..n], adopted[..n], newId), adopted[n].value, x);
      }
    }
  }

  lemma PlacedAllPush(qs: seq<Quote>, q: Quote, newId: Quote -> Uuid)
    ensures PlacedAll(qs + [q], newId) == PlacedAll(qs, newId) + [PlacedAs(q, newId)]
  {
  }

  lemma {:induction false} SurvivorCounts(orders: seq<OwnOrder>, gone: set<Uuid>, x: OwnOrder)
    ensures Count(Survivors(orders, gone), x) == if x.id in gone then 0 else Count(orders, x)
  {
    if orders != [] {
      var n := |orders| - 1;
      SurvivorCounts(orders[..n], gone, x);
      CountPush(Survivors(orders[..n], gone), orders[n], x);
    }
  }

  lemma {:induction false} UniqueIdsCountOnce(orders: seq<OwnOrder>, x: OwnOrder)
    requires UniqueIds(orders)
    ensures Count(orders, x) <= 1
  {
    if orders != [] {
      var n := |orders| - 1;
      UniqueIdsCountOnce(orders[..n], x);
      CountIffIn(orders[..n], x);
    }
  }

  lemma {:induction false} UniqueIdsAreOneOrder(orders: seq<OwnOrder>, x: OwnOrder, y: OwnOrder)
    requires UniqueIds(orders) && x in orders && y in orders && x.id == y.id
    ensures x == y
  {
  }

  // ----- the second reconcile

  lemma {:induction false} SomesPrefixCounts(want: seq<Option<OwnOrder>>, k: nat, x: OwnOrder)
    requires k <= |want|
    ensures Count(Somes(want[..k]), x) <= Count(Somes(want), x)
    decreases |want|
  {
    if k < |want| {
      var n := |want| - 1;
      assert want[..n][..k] == want[..k];
      SomesPrefixCounts(want[..n], k, x);
      if want[n].Some? {
        CountPush(Somes(want[..n]), want[n].value, x);
      }
    } else {
      assert want[..k] == want;
    }
  }

  lemma SomesStepCounts(want: seq<Option<OwnOrder>>, k: nat, x: OwnOrder)
    requires k < |want|
    ensures Count(Somes(want[..k + 1]), x) == Count(Somes(want[..k]), x) + if want[k] == Some(x) then 1 else 0
  {
    TakeSucc(want, k);
    if want[k].Some? {
      CountPush(Somes(want[..k]), want[k].value, x);
    }
  }

  /** The orders are one per wanted rung, and others that are near no rung at all. */
  ghost predicate Sorted(av: seq<OwnOrder>, qs: seq<Quote>, want: seq<Option<OwnOrder>>, rest: seq<OwnOrder>) {
    && Suits(want, qs)
    && (forall o, i :: o in rest && 0 <= i < |qs| ==> !Near(o, qs[i]))
    && forall x :: Count(av, x) == Count(Somes(want), x) + Count(rest, x)
  }

  /** What is left once the first `k` rungs have taken what is theirs. */
  ghost predicate LeftAfter(left: seq<OwnOrder>, av: seq<OwnOrder>, want: seq<Option<OwnOrder>>, k: nat)
    requires k <= |want|
  {
    forall x :: Count(left, x) + Count(Somes(want[..k]), x) == Count(av, x)
  }

  lemma NearMeansWanted(qs: seq<Quote>, grid: real, want: seq<Option<OwnOrder>>, rest: seq<OwnOrder>, av: seq<OwnOrder>,
                        left: seq<OwnOrder>, k: nat, o: OwnOrder)
    requires Apart(qs, grid) && Sorted(av, qs, want, rest) && k < |qs| && LeftAfter(left, av, want, k) && o in left
    ensures Near(o, qs[k]) ==> want[k] == Some(o)
  {
    hide Near, Fits;
    CountIffIn(left, o);
    CountIffIn(rest, o);
    CountIffIn(Somes(want), o);
    if o in Somes(want) {
      SomesWereAdopted(want, o);
      var j :| 0 <= j < |want| && want[j] == Some(o);
      NearIsUnique(qs, grid, o, j, k);
    }
  }

  lemma WantedIsThere(qs: seq<Quote>, want: seq<Option<OwnOrder>>, rest: seq<OwnOrder>, av: seq<OwnOrder>,
                      left: seq<OwnOrder>, k: nat)
    requires Sorted(av, qs, want, rest) && k < |qs| && LeftAfter(left, av, want, k) && want[k].Some?
    ensures want[k].value in left && Near(want[k].value, qs[k]) && Fits(want[k].value, qs[k])
  {
    var o := want[k].value;
    SomesPrefixCounts(want, k + 1, o);
    SomesStepCounts(want, k, o);
    CountIffIn(left, o);
  }

  lemma NearestIsNear(left: seq<OwnOrder>, q: Quote, o: OwnOrder)
    requires o in left && Near(o, q)
    ensures var i := Nearest(left, q.price); i >= 0 && Near(left[i], q)
  {
    var j :| 0 <= j < |left| && left[j] == o;
    var i := Nearest(left, q.price);
    assert Gap(left[i].price, q.price) <= Gap(left[j].price, q.price);
  }

  /** The nearest order left is the wanted one, if one is wanted, and is not near enough otherwise. */
  lemma NearestIsTheWanted(qs: seq<Quote>, grid: real, want: seq<Option<OwnOrder>>, rest: seq<OwnOrder>, av: seq<OwnOrder>,
                           left: seq<OwnOrder>, k: nat)
    requires Apart(qs, grid) && Sorted(av, qs, want, rest) && k < |qs| == |want| && LeftAfter(left, av, want, k)
    ensures var i := Nearest(left, qs[k].price);
      if want[k].Some? then i >= 0 && left[i] == want[k].value && Near(left[i], qs[k]) && Fits(left[i], qs[k])
      else i < 0 || !Near(left[i], qs[k])
  {
    hide Sorted, Apart, Near, Fits, Nearest, LeftAfter;
    var i := Nearest(left, qs[k].price);
    if want[k].Some? {
      WantedIsThere(qs, want, rest, av, left, k);
      NearestIsNear(left, qs[k], want[k].value);
    }
    if i >= 0 {
      NearMeansWanted(qs, grid, want, rest, av, left, k, left[i]);
    }
  }

  lemma TakingTheWanted(left: seq<OwnOrder>, av: seq<OwnOrder>, want: seq<Option<OwnOrder>>, k: nat, i: nat)
    requires k < |want| && LeftAfter(left, av, want, k)
    ensures want[k] == None ==> LeftAfter(left, av, want, k + 1)
    ensures i < |left| && want[k] == Some(left[i]) ==> LeftAfter(RemoveAt(left, i), av, want, k + 1)
  {
    hide Count, Somes;
    if want[k] == None {
      forall x ensures Count(left, x) + Count(Somes(want[..k + 1]), x) == Count(av, x) {
        SomesStepCounts(want, k, x);
      }
    } else if i < |left| && want[k] == Some(left[i]) {
      forall x ensures Count(RemoveAt(left, i), x) + Count(Somes(want[..k + 1]), x) == Count(av, x) {
        SomesStepCounts(want, k, x);
        CountRemove(left, i, x);
      }
    }
  }

  /** One rung takes exactly the order that is its own. */
  lemma ClaimTakesTheWanted(qs: seq<Quote>, grid: real, want: seq<Option<OwnOrder>>, rest: seq<OwnOrder>, av: seq<OwnOrder>,
                            c: Claims, k: nat)
    requires Apart(qs, grid) && Sorted(av, qs, want, rest) && k < |qs| == |want| && LeftAfter(c.left, av, want, k)
    ensures var after := ClaimFor(c, qs[k]);
      && after.adopted == c.adopted + [want[k]] && after.cancelled == c.cancelled
      && LeftAfter(after.left, av, want, k + 1)
  {
    hide Sorted, Apart, Near, Fits, Nearest, LeftAfter;
    NearestIsTheWanted(qs, grid, want, rest, av, c.left, k);
    var i := Nearest(c.left, qs[k].price);
    TakingTheWanted(c.left, av, want, k, if i >= 0 then i else 0);
  }

  lemma {:induction false} ClaimsFindTheWantedUpTo(qs: seq<Quote>, grid: real, want: seq<Option<OwnOrder>>, rest: seq<OwnOrder>,
                                                   av: seq<OwnOrder>, k: nat)
    requires Apart(qs, grid) && Sorted(av, qs, want, rest) && k <= |qs| == |want|
    ensures var c := Claimed(qs[..k], av);
      c.adopted == want[..k] && c.cancelled == [] && LeftAfter(c.left, av, want, k)
  {
    hide Sorted, Apart, ClaimFor;
    if k == 0 {
      assert qs[..0] == [] && want[..0] == [];
    } else {
      ClaimsFindTheWantedUpTo(qs, grid, want, rest, av, k - 1);
      TakeSucc(qs, k - 1);
      assert want[..k] == want[..k - 1] + [want[k - 1]];
      ClaimTakesTheWanted(qs, grid, want, rest, av, Claimed(qs[..k - 1], av), k - 1);
    }
  }

  /** When every order has at most one rung and every rung at most one order, greedy matching finds the pairs. */
  lemma ClaimsFindTheWanted(qs: seq<Quote>, grid: real, want: seq<Option<OwnOrder>>, rest: seq<OwnOrder>, av: seq<OwnOrder>)
    requires Apart(qs, grid) && Sorted(av, qs, want, rest)
    ensures var c := Claimed(qs, av); c.adopted == want && c.cancelled == [] && SameOrders(c.left, rest)
    ensures SideDiff(qs, av).toPlace == Unadopted(qs, want)
  {
    ClaimsFindTheWantedUpTo(qs, grid, want, rest, av, |qs|);
    assert qs[..|qs|] == qs && want[..|want|] == want;
    NoRungIsDropped(qs, grid, want);
  }

  // ----- one reconcile converges

  /** One order per rung and no other: close enough in price, close enough in size, no price twice. */
  ghost predicate OnePerRung(orders: seq<OwnOrder>, qs: seq<Quote>) {
    exists st: seq<OwnOrder> :: SameOrders(orders, st) && StandsFor(st, qs)
  }

  ghost predicate StandsFor(st: seq<OwnOrder>, qs: seq<Quote>) {
    && |st| == |qs|
    && (forall i :: 0 <= i < |qs| ==> Near(st[i], qs[i]) && Fits(st[i], qs[i]))
    && (forall i, j :: 0 <= i < j < |qs| ==> st[i].price != st[j].price)
  }

  lemma AdoptedOrPlacedStands(qs: seq<Quote>, grid: real, adopted: seq<Option<OwnOrder>>, newId: Quote -> Uuid)
    requires Apart(qs, grid) && Suits(adopted, qs)
    ensures StandsFor(Standing(qs, adopted, newId), qs)
  {
    var st := Standing(qs, adopted, newId);
    forall i | 0 <= i < |qs| ensures Near(st[i], qs[i]) && Fits(st[i], qs[i]) {
      NothingDrifts(qs[i], newId);
    }
    forall i, j | 0 <= i < j < |qs| ensures st[i].price != st[j].price {
      NearIsUnique(qs, grid, st[i], i, j);
      assert Near(st[j], qs[j]);
    }
  }

  lemma NothingDrifts(q: Quote, newId: Quote -> Uuid)
    requires q.tolerance >= 0.0
    ensures Near(PlacedAs(q, newId), q) && Fits(PlacedAs(q, newId), q)
  {
  }

  function AllSome(st: seq<OwnOrder>): (r: seq<Option<OwnOrder>>)
    ensures |r| == |st| && forall i :: 0 <= i < |st| ==> r[i] == Some(st[i])
    ensures Somes(r) == st
  {
    if st == [] then [] else AllSome(st[..|st| - 1]) + [Some(st[|st| - 1])]
  }

  lemma {:induction false} AllSomeAdopt(qs: seq<Quote>, st: seq<OwnOrder>)
    requires |qs| == |st|
    ensures Unadopted(qs, AllSome(st)) == []
  {
    if qs != [] {
      var n := |qs| - 1;
      AllSomeAdopt(qs[..n], st[..n]);
      assert AllSome(st)[..n] == AllSome(st[..n]);
    }
  }

  lemma {:induction false} EmptyIfNothingCounts(orders: seq<OwnOrder>)
    requires forall x :: Count(orders, x) == 0
    ensures orders == []
  {
    if orders != [] {
      CountIffIn(orders, orders[0]);
    }
  }

  lemma StandsForEach(st: seq<OwnOrder>, qs: seq<Quote>)
    requires StandsFor(st, qs)
    ensures |st| == |qs|
  {
  }

  lemma SettledIsSorted(qs: seq<Quote>, orders: seq<OwnOrder>, st: seq<OwnOrder>)
    requires SameOrders(orders, st) && StandsFor(st, qs)
    ensures Sorted(orders, qs, AllSome(st), [])
  {
    hide Near, Fits;
  }

  /** A side with one order per rung needs nothing done to it. */
  lemma SettledSideHasNoDiff(qs: seq<Quote>, grid: real, orders: seq<OwnOrder>)
    requires Apart(qs, grid) && OnePerRung(orders, qs)
    ensures SideDiff(qs, orders) == Diff([], [])
  {
    hide Sorted, StandsFor, Claimed;
    var st: seq<OwnOrder> :| SameOrders(orders, st) && StandsFor(st, qs);
    assert |st| == |qs| by { StandsForEach(st, qs); }
    SettledIsSorted(qs, orders, st);
    ClaimsFindTheWanted(qs, grid, AllSome(st), [], orders);
    AllSomeAdopt(qs, st);
    EmptyIfNothingCounts(Claimed(qs, orders).left);
  }

  // ----- carrying the difference out

  lemma {:induction false} QuotesOnAreOnSide(desired: seq<Quote>, side: PositionType)
    ensures forall i :: 0 <= i < |QuotesOn(desired, side)| ==> QuotesOn(desired, side)[i].side == side
  {
    if desired != [] {
      QuotesOnAreOnSide(desired[..|desired| - 1], side);
    }
  }

  lemma UnadoptedAreOnSide(qs: seq<Quote>, adopted: seq<Option<OwnOrder>>, side: PositionType)
    requires |qs| == |adopted| && forall i :: 0 <= i < |qs| ==> qs[i].side == side
    ensures forall q :: q in Unadopted(qs, adopted) ==> q.side == side
  {
    forall q | q in Unadopted(qs, adopted) ensures q.side == side {
      UnadoptedRungs(qs, adopted, q);
    }
  }

  lemma {:induction false} OtherSidePlacesNothing(qs: seq<Quote>, side: PositionType, newId: Quote -> Uuid, x: OwnOrder)
    requires (forall q :: q in qs ==> q.side == side) && x.side != side
    ensures Count(PlacedAll(qs, newId), x) == 0
  {
    if qs != [] {
      OtherSidePlacesNothing(qs[..|qs| - 1], side, newId, x);
    }
  }

  lemma {:induction false} PlacedAllConcat(a: seq<Quote>, b: seq<Quote>, newId: Quote -> Uuid)
    ensures PlacedAll(a + b, newId) == PlacedAll(a, newId) + PlacedAll(b, newId)
  {
  }

  ghost function SideClaims(desired: seq<Quote>, resting: seq<OwnOrder>, side: PositionType): (c: Claims)
    ensures |c.adopted| == |QuotesOn(desired, side)|
  {
    Claimed(QuotesOn(desired, side), BySide(resting, side))
  }

  lemma SideCancelsItsOwn(desired: seq<Quote>, resting: seq<OwnOrder>, side: PositionType, y: OwnOrder)
    requires var c := SideClaims(desired, resting, side); y in c.cancelled + c.left
    ensures y.side == side && y in resting
  {
    var c := SideClaims(desired, resting, side);
    CountIffIn(c.cancelled, y);
    CountIffIn(c.left, y);
    ClaimedAccounts(QuotesOn(desired, side), BySide(resting, side), y);
    BySideCounts(resting, side, y);
    CountIffIn(resting, y);
  }

  lemma CancelledWereResting(desired: seq<Quote>, resting: seq<OwnOrder>, y: OwnOrder)
    requires y in Reconciled(desired, resting).toCancel
    ensures y in resting
    ensures var c := SideClaims(desired, resting, y.side); y in c.cancelled + c.left
  {
    var bids, asks := SideClaims(desired, resting, LONG), SideClaims(desired, resting, SHORT);
    if y in bids.cancelled + bids.left {
      SideCancelsItsOwn(desired, resting, LONG, y);
    } else {
      SideCancelsItsOwn(desired, resting, SHORT, y);
    }
  }

  /** Of a side's orders exactly the adopted ones survive the cancels. */
  lemma AdoptedSurvive(desired: seq<Quote>, resting: seq<OwnOrder>, x: OwnOrder)
    requires UniqueIds(resting)
    ensures Count(Survivors(resting, Ids(Reconciled(desired, resting).toCancel)), x)
      == Count(Somes(SideClaims(desired, resting, x.side).adopted), x)
  {
    hide QuotesOn, BySide, Claimed, Somes, Survivors;
    var d, c := Reconciled(desired, resting), SideClaims(desired, resting, x.side);
    SurvivorCounts(resting, Ids(d.toCancel), x);
    ClaimedAccounts(QuotesOn(desired, x.side), BySide(resting, x.side), x);
    BySideCounts(resting, x.side, x);
    UniqueIdsCountOnce(resting, x);
    CountIffIn(resting, x);
    CountIffIn(c.cancelled, x);
    CountIffIn(c.left, x);
    if x.id in Ids(d.toCancel) {
      var y :| y in d.toCancel && y.id == x.id;
      CancelledWereResting(desired, resting, y);
      if x in resting {
        UniqueIdsAreOneOrder(resting, x, y);
      }
    } else {
      assert x !in d.toCancel;
    }
  }

  ghost predicate IsLadder(desired: seq<Quote>, grid: real) {
    Apart(QuotesOn(desired, LONG), grid) && Apart(QuotesOn(desired, SHORT), grid)
  }

  lemma PlacedOnSide(desired: seq<Quote>, resting: seq<OwnOrder>, grid: real, newId: Quote -> Uuid, x: OwnOrder)
    requires IsLadder(desired, grid)
    ensures Count(PlacedAll(Reconciled(desired, resting).toPlace, newId), x)
      == Count(PlacedAll(Unadopted(QuotesOn(desired, x.side), SideClaims(desired, resting, x.side).adopted), newId), x)
  {
    hide QuotesOn, BySide, Claimed, Unadopted, NotAt, Prices, Apart;
    var d := Reconciled(desired, resting);
    ToPlaceIsUnadopted(desired, resting, grid, LONG);
    ToPlaceIsUnadopted(desired, resting, grid, SHORT);
    var bids := Unadopted(QuotesOn(desired, LONG), SideClaims(desired, resting, LONG).adopted);
    var asks := Unadopted(QuotesOn(desired, SHORT), SideClaims(desired, resting, SHORT).adopted);
    PlacedAllConcat(bids, asks, newId);
    CountConcat(PlacedAll(bids, newId), PlacedAll(asks, newId), x);
    if x.side == LONG {
      OtherSidePlacesNothing(asks, SHORT, newId, x);
    } else {
      OtherSidePlacesNothing(bids, LONG, newId, x);
    }
  }

  lemma ToPlaceIsUnadopted(desired: seq<Quote>, resting: seq<OwnOrder>, grid: real, side: PositionType)
    requires IsLadder(desired, grid)
    ensures var qs, c := QuotesOn(desired, side), SideClaims(desired, resting, side);
      && SideDiff(qs, BySide(resting, side)).toPlace == Unadopted(qs, c.adopted)
      && forall q :: q in Unadopted(qs, c.adopted) ==> q.side == side
  {
    var qs := QuotesOn(desired, side);
    ClaimsSuit(qs, BySide(resting, side));
    NoRungIsDropped(qs, grid, Claimed(qs, BySide(resting, side)).adopted);
    QuotesOnAreOnSide(desired, side);
    UnadoptedAreOnSide(qs, SideClaims(desired, resting, side).adopted, side);
  }

  /** After the cancels and the placements, a side holds exactly the orders that stand for its rungs. */
  lemma SideAfterwards(desired: seq<Quote>, resting: seq<OwnOrder>, grid: real, newId: Quote -> Uuid, side: PositionType)
    requires IsLadder(desired, grid) && UniqueIds(resting)
    ensures OnePerRung(BySide(After(resting, Reconciled(desired, resting), newId), side), QuotesOn(desired, side))
  {
    hide QuotesOn, BySide, Claimed, Unadopted, Survivors, Standing, Count, Reconciled, Apart, Suits, StandsFor, Somes;
    var d, qs, c := Reconciled(desired, resting), QuotesOn(desired, side), SideClaims(desired, resting, side);
    var after := After(resting, d, newId);
    ClaimsSuit(qs, BySide(resting, side));
    AdoptedOrPlacedStands(qs, grid, c.adopted, newId);
    var st := Standing(qs, c.adopted, newId);
    forall x ensures Count(BySide(after, side), x) == Count(st, x) {
      BySideCounts(after, side, x);
      CountConcat(Survivors(resting, Ids(d.toCancel)), PlacedAll(d.toPlace, newId), x);
      StandingCounts(qs, c.adopted, newId, x);
      if x.side == side {
        AdoptedSurvive(desired, resting, x);
        PlacedOnSide(desired, resting, grid, newId, x);
      } else {
        ClaimedAccounts(qs, BySide(resting, side), x);
        BySideCounts(resting, side, x);
        ToPlaceIsUnadopted(desired, resting, grid, side);
        OtherSidePlacesNothing(Unadopted(qs, c.adopted), side, newId, x);
      }
    }
  }

  /**
   * One reconcile converges. Whatever was resting, carrying out its difference leaves exactly one
   * order per rung on each side, within the rung's tolerance and the size drift, no two at one
   * price; the guard against adopted prices dropped no rung; and a second reconcile asks for nothing.
   */
  lemma OneReconcileConverges(desired: seq<Quote>, resting: seq<OwnOrder>, grid: real, newId: Quote -> Uuid)
    requires IsLadder(desired, grid) && UniqueIds(resting)
    ensures var d := Reconciled(desired, resting);
      var after := After(resting, d, newId);
      && (forall side :: OnePerRung(BySide(after, side), QuotesOn(desired, side)))
      && d.toPlace == Unadopted(QuotesOn(desired, LONG), SideClaims(desired, resting, LONG).adopted)
           + Unadopted(QuotesOn(desired, SHORT), SideClaims(desired, resting, SHORT).adopted)
      && Reconciled(desired, after) == Diff([], [])
  {
    hide QuotesOn, BySide, SideDiff, After, Apart, OnePerRung, Claimed;
    var after := After(resting, Reconciled(desired, resting), newId);
    forall side ensures OnePerRung(BySide(after, side), QuotesOn(desired, side)) {
      SideAfterwards(desired, resting, grid, newId, side);
    }
    SettledSideHasNoDiff(QuotesOn(desired, LONG), grid, BySide(after, LONG));
    SettledSideHasNoDiff(QuotesOn(desired, SHORT), grid, BySide(after, SHORT));
    ToPlaceIsUnadopted(desired, resting, grid, LONG);
    ToPlaceIsUnadopted(desired, resting, grid, SHORT);
  }

  lemma {:induction false} QuotesOnConcat(a: seq<Quote>, b: seq<Quote>, side: PositionType)
    ensures QuotesOn(a + b, side) == QuotesOn(a, side) + QuotesOn(b, side)
  {
    if b == [] {
      assert a + b == a;
    } else {
      assert (a + b)[..|a + b| - 1] == a + b[..|b| - 1];
      QuotesOnConcat(a, b[..|b| - 1], side);
    }
  }

  lemma {:induction false} QuotesOnOneSide(qs: seq<Quote>, own: PositionType, side: PositionType)
    requires forall i :: 0 <= i < |qs| ==> qs[i].side == own
    ensures QuotesOn(qs, side) == if own == side then qs else []
  {
    if qs != [] {
      QuotesOnOneSide(qs[..|qs| - 1], own, side);
    }
  }

  /** What `BuildLadder` builds is a ladder in this sense, for every anchor and inventory. */
  lemma BuiltLaddersAreLadders(anchor: real, signedNotional: real, grid: real, m: MarketSpec, c: LadderConfig, mult: Multiplier)
    requires LegalMarket(m) && LegalConfig(c) && IsGrid(grid, m.priceScale)
    ensures IsLadder(SideOf(anchor, signedNotional, LONG, grid, m, c, mult) + SideOf(anchor, signedNotional, SHORT, grid, m, c, mult), grid)
    ensures forall side ::
      QuotesOn(SideOf(anchor, signedNotional, LONG, grid, m, c, mult) + SideOf(anchor, signedNotional, SHORT, grid, m, c, mult), side)
        == SideOf(anchor, signedNotional, side, grid, m, c, mult)
  {
    hide QuotesOn, LadderSide, Touch, TouchCell, BidRef, AskRef, Times, Apart;
    var bids, asks := SideOf(anchor, signedNotional, LONG, grid, m, c, mult), SideOf(anchor, signedNotional, SHORT, grid, m, c, mult);
    forall side ensures QuotesOn(bids + asks, side) == SideOf(anchor, signedNotional, side, grid, m, c, mult)
      && Apart(QuotesOn(bids + asks, side), grid) {
      BuiltSide(anchor, signedNotional, LONG, grid, m, c, mult);
      BuiltSide(anchor, signedNotional, SHORT, grid, m, c, mult);
      QuotesOnConcat(bids, asks, side);
      QuotesOnOneSide(bids, LONG, side);
      QuotesOnOneSide(asks, SHORT, side);
    }
  }

  lemma BuiltSide(anchor: real, signedNotional: real, side: PositionType, grid: real, m: MarketSpec, c: LadderConfig, mult: Multiplier)
    requires LegalMarket(m) && LegalConfig(c) && IsGrid(grid, m.priceScale)
    ensures var qs := SideOf(anchor, signedNotional, side, grid, m, c, mult);
      Apart(qs, grid) && forall i :: 0 <= i < |qs| ==> qs[i].side == side
  {
    hide LadderSide, Touch, TouchCell, BidRef, AskRef, Times;
    var inventory := NormalisedInventory(signedNotional, c.maxInventoryNotional);
    var ref := if side == LONG then BidRef(anchor, inventory, c) else AskRef(anchor, inventory, c);
    TouchIsACell(side, ref, grid, m.priceScale);
    SideIsInsideOut(TouchCell(side, ref, grid), side, c.levels, grid, m, c, mult);
    SidesAreApart(SideOf(anchor, signedNotional, side, grid, m, c, mult), TouchCell(side, ref, grid), side, c.levels, grid);
  }

  /**
   * So whatever the maker has resting, one reconcile against the ladder built for any anchor and inventory
   * leaves exactly one fitting order per rung on each side, and the next one has nothing to do.
   */
  lemma BuiltLadderConverges(anchor: real, signedNotional: real, grid: real, m: MarketSpec, c: LadderConfig, mult: Multiplier,
                             resting: seq<OwnOrder>, newId: Quote -> Uuid)
    requires LegalMarket(m) && LegalConfig(c) && IsGrid(grid, m.priceScale) && UniqueIds(resting)
    ensures var desired := SideOf(anchor, signedNotional, LONG, grid, m, c, mult) + SideOf(anchor, signedNotional, SHORT, grid, m, c, mult);
      var after := After(resting, Reconciled(desired, resting), newId);
      && (forall side :: OnePerRung(BySide(after, side), SideOf(anchor, signedNotional, side, grid, m, c, mult)))
      && Reconciled(desired, after) == Diff([], [])
  {
    hide SideOf, QuotesOn, BySide, Reconciled, After, OnePerRung, IsLadder;
    BuiltLaddersAreLadders(anchor, signedNotional, grid, m, c, mult);
    var desired := SideOf(anchor, signedNotional, LONG, grid, m, c, mult) + SideOf(anchor, signedNotional, SHORT, grid, m, c, mult);
    OneReconcileConverges(desired, resting, grid, newId);
  }
}
