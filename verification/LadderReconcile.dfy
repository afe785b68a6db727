/**
 * Greedy nearest-price matching of resting orders to rungs: the loops, and the claims they compute rung by rung.
 */
module LadderReconcile {
  import opened Exchange
  import opened Sequences
  import opened QuoteLadder
  import opened Books
  import Rounding

  const SIZE_DRIFT_TOLERANCE := 0.25

  /** A resting order of the maker; `remainingQty` is what is left on the book. */
  datatype OwnOrder = OwnOrder(id: Uuid, side: PositionType, price: real, remainingQty: real)

  function Gap(x: real, y: real): real {
    if x < y then y - x else x - y
  }

  function SizeDrift(o: OwnOrder, q: Quote): real {
    Gap(o.remainingQty, q.qty) / (if q.qty < 0.000000001 then 0.000000001 else q.qty)
  }

  predicate Near(o: OwnOrder, q: Quote) {
    Gap(o.price, q.price) <= q.tolerance
  }

  predicate Fits(o: OwnOrder, q: Quote) {
    SizeDrift(o, q) <= SIZE_DRIFT_TOLERANCE
  }

  // ----- one side of the resting orders, inside out

  function OnSide(orders: seq<OwnOrder>, side: PositionType): seq<OwnOrder> {
    if orders == [] then []
    else
      var n := |orders| - 1;
      var before := OnSide(orders[..n], side);
      if orders[n].side == side then before + [orders[n]] else before
  }

  /** Insertion behind every order at least as far inside: the stable sort by price. */
  function Insert(o: OwnOrder, sorted: seq<OwnOrder>): seq<OwnOrder> {
    if sorted == [] || Rank(o.side, o.price) < Rank(o.side, sorted[0].price) then [o] + sorted
    else [sorted[0]] + Insert(o, sorted[1..])
  }

  function Sort(orders: seq<OwnOrder>): seq<OwnOrder> {
    if orders == [] then [] else Insert(orders[|orders| - 1], Sort(orders[..|orders| - 1]))
  }

  function BySide(orders: seq<OwnOrder>, side: PositionType): seq<OwnOrder> {
    Sort(OnSide(orders, side))
  }

  /** How often an order is in a list. */
  function Count(orders: seq<OwnOrder>, x: OwnOrder): nat {
    if orders == [] then 0
    else Count(orders[..|orders| - 1], x) + if orders[|orders| - 1] == x then 1 else 0
  }

  lemma CountPush(orders: seq<OwnOrder>, o: OwnOrder, x: OwnOrder)
    ensures Count(orders + [o], x) == Count(orders, x) + if o == x then 1 else 0
  {
    assert (orders + [o])[..|orders|] == orders;
  }

  lemma {:induction false} CountConcat(a: seq<OwnOrder>, b: seq<OwnOrder>, x: OwnOrder)
    ensures Count(a + b, x) == Count(a, x) + Count(b, x)
  {
    if b == [] {
      assert a + b == a;
    } else {
      assert (a + b)[..|a + b| - 1] == a + b[..|b| - 1];
      CountConcat(a, b[..|b| - 1], x);
    }
  }

  lemma CountCons(o: OwnOrder, tail: seq<OwnOrder>, x: OwnOrder)
    ensures Count([o] + tail, x) == (if o == x then 1 else 0) + Count(tail, x)
  {
    CountConcat([o], tail, x);
    assert [o][..0] == [];
  }

  lemma CountRemove(orders: seq<OwnOrder>, i: nat, x: OwnOrder)
    requires i < |orders|
    ensures Count(RemoveAt(orders, i), x) == Count(orders, x) - if orders[i] == x then 1 else 0
  {
    assert orders == orders[..i] + ([orders[i]] + orders[i + 1..]);
    CountConcat(orders[..i], [orders[i]] + orders[i + 1..], x);
    CountCons(orders[i], orders[i + 1..], x);
    CountConcat(orders[..i], orders[i + 1..], x);
  }

  lemma {:induction false} CountIffIn(orders: seq<OwnOrder>, x: OwnOrder)
    ensures Count(orders, x) > 0 <==> x in orders
  {
    if orders != [] {
      CountIffIn(orders[..|orders| - 1], x);
    }
  }

  /** The same orders in some order. */
  ghost predicate SameOrders(a: seq<OwnOrder>, b: seq<OwnOrder>) {
    forall x :: Count(a, x) == Count(b, x)
  }

  lemma {:induction false} InsertCounts(o: OwnOrder, sorted: seq<OwnOrder>, x: OwnOrder)
    ensures Count(Insert(o, sorted), x) == Count(sorted, x) + if o == x then 1 else 0
  {
    CountCons(o, sorted, x);
    if sorted != [] {
      InsertCounts(o, sorted[1..], x);
      assert sorted == [sorted[0]] + sorted[1..];
      CountCons(sorted[0], sorted[1..], x);
      CountCons(sorted[0], Insert(o, sorted[1..]), x);
    }
  }

  lemma {:induction false} SortCounts(orders: seq<OwnOrder>, x: OwnOrder)
    ensures Count(Sort(orders), x) == Count(orders, x)
  {
    if orders != [] {
      var n := |orders| - 1;
      SortCounts(orders[..n], x);
      InsertCounts(orders[n], Sort(orders[..n]), x);
    }
  }

  lemma {:induction false} OnSideCounts(orders: seq<OwnOrder>, side: PositionType, x: OwnOrder)
    ensures Count(OnSide(orders, side), x) == if x.side == side then Count(orders, x) else 0
  {
    if orders != [] {
      var n := |orders| - 1;
      OnSideCounts(orders[..n], side, x);
      CountPush(OnSide(orders[..n], side), orders[n], x);
    }
  }

  /** From the inside out: bids from the highest, asks from the lowest. */
  ghost predicate RunsOutward(orders: seq<OwnOrder>, side: PositionType) {
    forall i, j :: 0 <= i < j < |orders| ==> if side == LONG then orders[i].price >= orders[j].price else orders[i].price <= orders[j].price
  }

  lemma {:induction false} InsertRunsOutward(o: OwnOrder, sorted: seq<OwnOrder>, side: PositionType)
    requires RunsOutward(sorted, side) && o.side == side
    ensures RunsOutward(Insert(o, sorted), side)
    ensures forall x :: x in Insert(o, sorted) ==> x == o || x in sorted
  {
    var all := Insert(o, sorted);
    if sorted == [] || Rank(o.side, o.price) < Rank(o.side, sorted[0].price) {
      forall i, j | 0 <= i < j < |all| ensures if side == LONG then all[i].price >= all[j].price else all[i].price <= all[j].price {
        assert all[j] == sorted[j - 1] && (i > 0 ==> all[i] == sorted[i - 1]);
      }
    } else {
      var rest := Insert(o, sorted[1..]);
      InsertRunsOutward(o, sorted[1..], side);
      forall i, j | 0 <= i < j < |all| ensures if side == LONG then all[i].price >= all[j].price else all[i].price <= all[j].price {
        assert all[j] == rest[j - 1] && rest[j - 1] in rest && (i > 0 ==> all[i] == rest[i - 1]);
      }
    }
  }

  lemma {:induction false} SortRunsOutward(orders: seq<OwnOrder>, side: PositionType)
    requires forall i :: 0 <= i < |orders| ==> orders[i].side == side
    ensures RunsOutward(Sort(orders), side)
  {
    if orders != [] {
      SortRunsOutward(orders[..|orders| - 1], side);
      InsertRunsOutward(orders[|orders| - 1], Sort(orders[..|orders| - 1]), side);
    }
  }

  lemma {:induction false} OnSideIsOnSide(orders: seq<OwnOrder>, side: PositionType)
    ensures forall i :: 0 <= i < |OnSide(orders, side)| ==> OnSide(orders, side)[i].side == side
  {
    if orders != [] {
      OnSideIsOnSide(orders[..|orders| - 1], side);
    }
  }

  lemma BySideRunsOutward(orders: seq<OwnOrder>, side: PositionType)
    ensures RunsOutward(BySide(orders, side), side)
  {
    OnSideIsOnSide(orders, side);
    SortRunsOutward(OnSide(orders, side), side);
  }

  /** An order may stand for a rung when its price is within the tolerance and its size within a quarter. */
  lemma StandsInIff(o: OwnOrder, q: Quote)
    requires q.qty >= 0.000000001
    ensures Near(o, q) && Fits(o, q) <==>
      && q.price - q.tolerance <= o.price <= q.price + q.tolerance
      && q.qty - q.qty / 4.0 <= o.remainingQty <= q.qty + q.qty / 4.0
  {
    WithinIff(Gap(o.remainingQty, q.qty), q.qty, 0.25);
  }

  lemma WithinIff(gap: real, qty: real, share: real)
    requires qty > 0.0
    ensures gap / qty <= share <==> gap <= share * qty
  {
    var drift := gap / qty;
    assert drift * qty == gap;
    if drift <= share {
      Rounding.NonNegativeProduct(share - drift, qty);
    } else {
      Positive(drift - share, qty);
    }
  }

  /** Sorting and filtering lose nothing of the side and add nothing to it. */
  lemma BySideCounts(orders: seq<OwnOrder>, side: PositionType, x: OwnOrder)
    ensures Count(BySide(orders, side), x) == if x.side == side then Count(orders, x) else 0
  {
    SortCounts(OnSide(orders, side), x);
    OnSideCounts(orders, side, x);
  }

  // ----- claiming

  /** The first of the orders closest to a price, or -1. */
  function Nearest(av: seq<OwnOrder>, price: real): (i: int)
    ensures -1 <= i < |av|
    ensures i < 0 <==> av == []
    ensures forall j :: 0 <= j < |av| ==> Gap(av[i].price, price) <= Gap(av[j].price, price)
    ensures forall j :: 0 <= j < i ==> Gap(av[i].price, price) < Gap(av[j].price, price)
  {
    if av == [] then -1
    else
      var n := |av| - 1;
      var k := Nearest(av[..n], price);
      assert forall j :: 0 <= j < n ==> av[..n][j] == av[j];
      if k < 0 || Gap(av[n].price, price) < Gap(av[k].price, price) then n else k
  }

  /** Rung by rung: the order it adopted; what was cancelled for its size; what nobody claimed yet. */
  datatype Claims = Claims(adopted: seq<Option<OwnOrder>>, cancelled: seq<OwnOrder>, left: seq<OwnOrder>)

  function ClaimFor(c: Claims, q: Quote): Claims {
    var i := Nearest(c.left, q.price);
    if i < 0 || !Near(c.left[i], q) then c.(adopted := c.adopted + [None])
    else
      var o := c.left[i];
      if Fits(o, q) then Claims(c.adopted + [Some(o)], c.cancelled, RemoveAt(c.left, i))
      else Claims(c.adopted + [None], c.cancelled + [o], RemoveAt(c.left, i))
  }

  /** The claims of the rungs `qs`, inside out, over the orders `av`. */
  function Claimed(qs: seq<Quote>, av: seq<OwnOrder>): (c: Claims)
    ensures |c.adopted| == |qs|
  {
    if qs == [] then Claims([], [], av) else ClaimFor(Claimed(qs[..|qs| - 1], av), qs[|qs| - 1])
  }

  /** The rungs that adopted nothing. */
  function Unadopted(qs: seq<Quote>, adopted: seq<Option<OwnOrder>>): seq<Quote>
    requires |qs| == |adopted|
  {
    if qs == [] then []
    else
      var n := |qs| - 1;
      var before := Unadopted(qs[..n], adopted[..n]);
      if adopted[n] == None then before + [qs[n]] else before
  }

  function Somes(adopted: seq<Option<OwnOrder>>): seq<OwnOrder> {
    if adopted == [] then []
    else
      var n := |adopted| - 1;
      var before := Somes(adopted[..n]);
      if adopted[n].Some? then before + [adopted[n].value] else before
  }

  function Prices(orders: seq<OwnOrder>): set<real> {
    set o | o in orders :: o.price
  }

  function NotAt(qs: seq<Quote>, prices: set<real>): seq<Quote> {
    if qs == [] then []
    else
      var n := |qs| - 1;
      var before := NotAt(qs[..n], prices);
      if qs[n].price in prices then before else before + [qs[n]]
  }

  datatype Diff = Diff(toCancel: seq<OwnOrder>, toPlace: seq<Quote>)

  function SideDiff(qs: seq<Quote>, av: seq<OwnOrder>): Diff {
    var c := Claimed(qs, av);
    Diff(c.cancelled + c.left, NotAt(Unadopted(qs, c.adopted), Prices(Somes(c.adopted))))
  }

  function QuotesOn(desired: seq<Quote>, side: PositionType): seq<Quote> {
    if desired == [] then []
    else
      var n := |desired| - 1;
      var before := QuotesOn(desired[..n], side);
      if desired[n].side == side then before + [desired[n]] else before
  }

  function Reconciled(desired: seq<Quote>, resting: seq<OwnOrder>): Diff {
    var bids := SideDiff(QuotesOn(desired, LONG), BySide(resting, LONG));
    var asks := SideDiff(QuotesOn(desired, SHORT), BySide(resting, SHORT));
    Diff(bids.toCancel + asks.toCancel, bids.toPlace + asks.toPlace)
  }

  // ----- the loops

  method FindNearest(av: seq<OwnOrder>, price: real) returns (bestIndex: int)
    ensures bestIndex == Nearest(av, price)
  {
    bestIndex := -1;
    for index := 0 to |av|
      invariant bestIndex == Nearest(av[..index], price)
    {
      TakeSucc(av, index);
      if bestIndex < 0 || Gap(av[index].price, price) < Gap(av[bestIndex].price, price) {
        bestIndex := index;
      }
    }
    assert av[..|av|] == av;
  }

  /** The loop's variables say what the claims so far come to. */
  ghost predicate Tallies(c: Claims, qs: seq<Quote>, available: seq<OwnOrder>, toCancel: seq<OwnOrder>, pending: seq<Quote>, prices: set<real>) {
    && |c.adopted| == |qs|
    && available == c.left
    && toCancel == c.cancelled
    && pending == Unadopted(qs, c.adopted)
    && prices == Prices(Somes(c.adopted))
  }

  lemma PricesGrow(orders: seq<OwnOrder>, o: OwnOrder)
    ensures Prices(orders + [o]) == Prices(orders) + {o.price}
  {
    assert o in orders + [o];
  }

  lemma ClaimGrows(qs: seq<Quote>, before: Claims, q: Quote)
    requires |before.adopted| == |qs|
    ensures var after := ClaimFor(before, q);
      && |after.adopted| == |qs| + 1
      && Unadopted(qs + [q], after.adopted) == (if after.adopted[|qs|] == None then Unadopted(qs, before.adopted) + [q] else Unadopted(qs, before.adopted))
      && Somes(after.adopted) == (if after.adopted[|qs|].Some? then Somes(before.adopted) + [after.adopted[|qs|].value] else Somes(before.adopted))
  {
    assert ClaimFor(before, q).adopted[..|qs|] == before.adopted;
    assert (qs + [q])[..|qs|] == qs;
  }

  lemma TalliesStep(c: Claims, qs: seq<Quote>, q: Quote, available: seq<OwnOrder>, toCancel: seq<OwnOrder>, pending: seq<Quote>, prices: set<real>)
    requires Tallies(c, qs, available, toCancel, pending, prices)
    ensures var i := Nearest(available, q.price);
      var after := ClaimFor(c, q);
      if i < 0 || !Near(available[i], q) then Tallies(after, qs + [q], available, toCancel, pending + [q], prices)
      else if !Fits(available[i], q) then
        Tallies(after, qs + [q], RemoveAt(available, i), toCancel + [available[i]], pending + [q], prices)
      else Tallies(after, qs + [q], RemoveAt(available, i), toCancel, pending, prices + {available[i].price})
  {
    hide Unadopted, Somes, Prices, Nearest, Near, Fits;
    ClaimGrows(qs, c, q);
    var i := Nearest(available, q.price);
    if i >= 0 {
      PricesGrow(Somes(c.adopted), available[i]);
    }
  }

  method ClaimRungs(desiredSide: seq<Quote>, orders: seq<OwnOrder>)
    returns (toCancel: seq<OwnOrder>, pending: seq<Quote>, adoptedPrices: set<real>)
    ensures var c := Claimed(desiredSide, orders);
      && toCancel == c.cancelled + c.left
      && pending == Unadopted(desiredSide, c.adopted)
      && adoptedPrices == Prices(Somes(c.adopted))
  {
    var available := orders;
    toCancel, pending, adoptedPrices := [], [], {};
    for i := 0 to |desiredSide|
      invariant Tallies(Claimed(desiredSide[..i], orders), desiredSide[..i], available, toCancel, pending, adoptedPrices)
    {
      hide Tallies, Nearest, Near, Fits, ClaimFor;
      var quote := desiredSide[i];
      TakeSucc(desiredSide, i);
      assert desiredSide[..i] + [quote] == desiredSide[..i + 1];
      TalliesStep(Claimed(desiredSide[..i], orders), desiredSide[..i], quote, available, toCancel, pending, adoptedPrices);
      var bestIndex := FindNearest(available, quote.price);
      if bestIndex < 0 || !Near(available[bestIndex], quote) {
        pending := pending + [quote];
      } else {
        var candidate := available[bestIndex];
        available := RemoveAt(available, bestIndex);
        if !Fits(candidate, quote) {
          toCancel := toCancel + [candidate];
          pending := pending + [quote];
        } else {
          adoptedPrices := adoptedPrices + {candidate.price};
        }
      }
    }
    assert desiredSide[..|desiredSide|] == desiredSide;
    toCancel := toCancel + available;
  }

  method ReconcileSide(desired: seq<Quote>, resting: seq<OwnOrder>, side: PositionType) returns (toCancel: seq<OwnOrder>, toPlace: seq<Quote>)
    ensures Diff(toCancel, toPlace) == SideDiff(QuotesOn(desired, side), BySide(resting, side))
  {
    var pending, adoptedPrices;
    toCancel, pending, adoptedPrices := ClaimRungs(QuotesOn(desired, side), BySide(resting, side));
    toPlace := [];
    for i := 0 to |pending|
      invariant toPlace == NotAt(pending[..i], adoptedPrices)
    {
      TakeSucc(pending, i);
      if pending[i].price !in adoptedPrices {
        toPlace := toPlace + [pending[i]];
      }
    }
    assert pending[..|pending|] == pending;
  }

  method ReconcileLadder(desired: seq<Quote>, resting: seq<OwnOrder>) returns (toCancel: seq<OwnOrder>, toPlace: seq<Quote>)
    ensures Diff(toCancel, toPlace) == Reconciled(desired, resting)
  {
    toCancel, toPlace := ReconcileSide(desired, resting, LONG);
    var askCancel, askPlace := ReconcileSide(desired, resting, SHORT);
    toCancel, toPlace := toCancel + askCancel, toPlace + askPlace;
  }
}
