/** One side of an order book: price levels, price priority, time priority. */
module Books {
  import opened Exchange
  import opened Sequences

  // ----- quantities on a level

  function Unfilled(o: OpenOrder): real {
    o.qty - o.filledQty
  }

  function Remaining(os: seq<OpenOrder>): real {
    if os == [] then 0.0 else Unfilled(os[0]) + Remaining(os[1..])
  }

  lemma {:induction false} RemainingConcat(a: seq<OpenOrder>, b: seq<OpenOrder>)
    ensures Remaining(a + b) == Remaining(a) + Remaining(b)
  {
    if a == [] {
      assert a + b == b;
    } else {
      RemainingConcat(a[1..], b);
      assert (a + b)[1..] == a[1..] + b;
    }
  }

  lemma RemainingSplit(os: seq<OpenOrder>, i: nat)
    requires i < |os|
    ensures Remaining(os) == Remaining(os[..i]) + Unfilled(os[i]) + Remaining(os[i + 1..])
  {
    RemainingConcat(os[..i], os[i..]);
    assert os == os[..i] + os[i..];
    assert os[i..][1..] == os[i + 1..];
  }

  lemma RemainingRemove(os: seq<OpenOrder>, i: nat)
    requires i < |os|
    ensures Remaining(RemoveAt(os, i)) == Remaining(os) - Unfilled(os[i])
  {
    RemainingSplit(os, i);
    RemainingConcat(os[..i], os[i + 1..]);
  }

  lemma RemainingUpdate(os: seq<OpenOrder>, i: nat, o: OpenOrder)
    requires i < |os|
    ensures Remaining(os[i := o]) == Remaining(os) - Unfilled(os[i]) + Unfilled(o)
  {
    RemainingSplit(os, i);
    RemainingSplit(os[i := o], i);
    assert os[i := o][..i] == os[..i] && os[i := o][i + 1..] == os[i + 1..];
  }

  ghost predicate Resting(o: OpenOrder, kind: PositionType, m: Uuid) {
    0.0 <= o.filledQty < o.qty && o.positionType == kind && o.marketId == m
  }

  ghost predicate AllResting(os: seq<OpenOrder>, kind: PositionType, m: Uuid) {
    forall i :: 0 <= i < |os| ==> Resting(os[i], kind, m)
  }

  lemma {:induction false} RemainingPositive(os: seq<OpenOrder>, kind: PositionType, m: Uuid)
    requires AllResting(os, kind, m)
    ensures if os == [] then Remaining(os) == 0.0 else Remaining(os) > 0.0
  {
    if os != [] {
      assert Resting(os[0], kind, m);
      RemainingPositive(os[1..], kind, m);
    }
  }

  // ----- well-formed sides

  ghost predicate WfLevel(level: Level, kind: PositionType, m: Uuid) {
    && level.openOrders != []
    && AllResting(level.openOrders, kind, m)
    && level.availableQty == Remaining(level.openOrders)
  }

  /** No empty level, every total exact, every order unfinished and on the side of its type. */
  ghost predicate WfLevels(levels: Levels, kind: PositionType, m: Uuid) {
    forall p :: p in levels ==> p > 0.0 && WfLevel(levels[p], kind, m)
  }

  // ----- price priority

  /** Lower rank is better: asks (SHORT orders) by rising price, bids by falling price. */
  function Rank(kind: PositionType, p: real): real {
    if kind == SHORT then p else -p
  }

  ghost predicate IsBest(kind: PositionType, levels: Levels, p: real) {
    p in levels && forall q :: q in levels ==> Rank(kind, p) <= Rank(kind, q)
  }

  lemma SomePrice(prices: set<real>)
    requires prices != {}
    ensures exists p :: p in prices
  {
    assert (forall p :: p !in prices) ==> prices == {};
  }

  lemma {:induction false} BestExists(kind: PositionType, levels: Levels)
    requires levels != map[]
    ensures exists p :: IsBest(kind, levels, p)
    decreases |levels|
  {
    SomePrice(levels.Keys);
    var p :| p in levels;
    var others := levels - {p};
    if others == map[] {
      forall q | q in levels ensures q == p {
        assert q == p || q in others;
      }
      assert IsBest(kind, levels, p);
    } else {
      BestExists(kind, others);
      var b :| IsBest(kind, others, b);
      assert forall q :: q in levels ==> q == p || q in others;
      assert IsBest(kind, levels, p) || IsBest(kind, levels, b);
    }
  }

  ghost function BestPrice(kind: PositionType, levels: Levels): (p: real)
    requires levels != map[]
    ensures IsBest(kind, levels, p)
  {
    BestExists(kind, levels);
    var p :| IsBest(kind, levels, p);
    p
  }

  // ----- time priority

  ghost predicate IsFirstCreated(os: seq<OpenOrder>, i: int) {
    && 0 <= i < |os|
    && (forall j :: 0 <= j < |os| ==> os[i].createdAt <= os[j].createdAt)
    && (forall j :: 0 <= j < i ==> os[i].createdAt < os[j].createdAt)
  }

  lemma {:induction false} FirstCreatedExists(os: seq<OpenOrder>)
    requires os != []
    ensures exists i :: IsFirstCreated(os, i)
  {
    var n := |os| - 1;
    if n == 0 {
      assert IsFirstCreated(os, 0);
    } else {
      FirstCreatedExists(os[..n]);
      var k :| IsFirstCreated(os[..n], k);
      assert forall j :: 0 <= j < n ==> os[..n][j] == os[j];
      assert IsFirstCreated(os, if os[k].createdAt > os[n].createdAt then n else k);
    }
  }

  ghost function FirstCreated(os: seq<OpenOrder>): (i: nat)
    requires os != []
    ensures IsFirstCreated(os, i)
  {
    FirstCreatedExists(os);
    var i :| IsFirstCreated(os, i);
    i
  }

  lemma FirstCreatedIsUnique(os: seq<OpenOrder>, i: nat)
    requires IsFirstCreated(os, i)
    ensures FirstCreated(os) == i
  {
    var k := FirstCreated(os);
    assert IsFirstCreated(os, k);
    assert os[i].createdAt <= os[k].createdAt && os[k].createdAt <= os[i].createdAt;
  }

  // ----- the queue a taker faces

  datatype Slot = Slot(price: real, order: OpenOrder)

  ghost function TimeQueue(p: real, os: seq<OpenOrder>): (q: seq<Slot>)
    ensures |q| == |os|
    decreases |os|
  {
    if os == [] then []
    else var i := FirstCreated(os); [Slot(p, os[i])] + TimeQueue(p, RemoveAt(os, i))
  }

  ghost function Queue(kind: PositionType, levels: Levels): seq<Slot>
    decreases |levels|
  {
    if levels == map[] then []
    else
      var p := BestPrice(kind, levels);
      TimeQueue(p, levels[p].openOrders) + Queue(kind, levels - {p})
  }

  /** The orders of a level that were created at `t`, in the order the level keeps them. */
  ghost function CreatedAt(os: seq<OpenOrder>, t: int): seq<OpenOrder> {
    if os == [] then []
    else (if os[0].createdAt == t then [os[0]] else []) + CreatedAt(os[1..], t)
  }

  ghost function Orders(q: seq<Slot>): seq<OpenOrder> {
    if q == [] then [] else [q[0].order] + Orders(q[1..])
  }

  lemma {:induction false} CreatedAtConcat(a: seq<OpenOrder>, b: seq<OpenOrder>, t: int)
    ensures CreatedAt(a + b, t) == CreatedAt(a, t) + CreatedAt(b, t)
  {
    if a == [] {
      assert a + b == b;
    } else {
      CreatedAtConcat(a[1..], b, t);
      assert (a + b)[0] == a[0] && (a + b)[1..] == a[1..] + b;
      var head := if a[0].createdAt == t then [a[0]] else [];
      assert head + (CreatedAt(a[1..], t) + CreatedAt(b, t)) == head + CreatedAt(a[1..], t) + CreatedAt(b, t);
    }
  }

  lemma {:induction false} NoneCreatedAt(os: seq<OpenOrder>, t: int)
    requires forall j :: 0 <= j < |os| ==> os[j].createdAt != t
    ensures CreatedAt(os, t) == []
  {
    if os != [] {
      NoneCreatedAt(os[1..], t);
    }
  }

  lemma FirstLeavesTheRest(os: seq<OpenOrder>, t: int)
    requires os != []
    ensures var i := FirstCreated(os);
      CreatedAt(os, t) == (if os[i].createdAt == t then [os[i]] else []) + CreatedAt(RemoveAt(os, i), t)
  {
    var i := FirstCreated(os);
    assert os == os[..i] + os[i..];
    CreatedAtConcat(os[..i], os[i..], t);
    CreatedAtConcat(os[..i], os[i + 1..], t);
    assert os[i..][0] == os[i] && os[i..][1..] == os[i + 1..];
    if os[i].createdAt == t {
      NoneCreatedAt(os[..i], t);
    }
  }

  /**
   * A level is served as a stable sort by creation time: never an order before an older one,
   * and orders of the same instant in the order they joined.
   */
  lemma {:induction false} TimeQueueIsStableSort(p: real, os: seq<OpenOrder>)
    ensures forall i, j :: 0 <= i < j < |os| ==>
      TimeQueue(p, os)[i].order.createdAt <= TimeQueue(p, os)[j].order.createdAt
    ensures forall i :: 0 <= i < |os| ==> TimeQueue(p, os)[i].price == p && TimeQueue(p, os)[i].order in os
    ensures forall t :: CreatedAt(Orders(TimeQueue(p, os)), t) == CreatedAt(os, t)
    decreases |os|
  {
    if os != [] {
      var i := FirstCreated(os);
      var rest := RemoveAt(os, i);
      var q, tail := TimeQueue(p, os), TimeQueue(p, rest);
      TimeQueueIsStableSort(p, rest);
      assert q == [Slot(p, os[i])] + tail;
      forall k | 0 <= k < |rest| ensures rest[k] in os && os[i].createdAt <= rest[k].createdAt {
        assert rest[k] == if k < i then os[k] else os[k + 1];
      }
      forall t ensures CreatedAt(Orders(q), t) == CreatedAt(os, t) {
        FirstLeavesTheRest(os, t);
        assert q[1..] == tail;
        assert CreatedAt(Orders(tail), t) == CreatedAt(rest, t);
        assert Orders(q) == [os[i]] + Orders(tail);
        CreatedAtConcat([os[i]], Orders(tail), t);
      }
    }
  }

  /** Price first: a slot never stands behind one of a worse price. Time second, within a price. */
  lemma {:induction false} QueueIsPriceTimeSorted(kind: PositionType, levels: Levels)
    ensures forall i, j :: 0 <= i < j < |Queue(kind, levels)| ==>
      var a, b := Queue(kind, levels)[i], Queue(kind, levels)[j];
      Rank(kind, a.price) < Rank(kind, b.price) || (a.price == b.price && a.order.createdAt <= b.order.createdAt)
    ensures forall i :: 0 <= i < |Queue(kind, levels)| ==>
      Queue(kind, levels)[i].price in levels
    decreases |levels|
  {
    if levels != map[] {
      var p := BestPrice(kind, levels);
      TimeQueueIsStableSort(p, levels[p].openOrders);
      QueueIsPriceTimeSorted(kind, levels - {p});
    }
  }

  ghost function AtPrice(q: seq<Slot>, p: real): seq<Slot> {
    if q == [] then [] else (if q[0].price == p then [q[0]] else []) + AtPrice(q[1..], p)
  }

  lemma {:induction false} AtPriceConcat(a: seq<Slot>, b: seq<Slot>, p: real)
    ensures AtPrice(a + b, p) == AtPrice(a, p) + AtPrice(b, p)
  {
    if a == [] {
      assert a + b == b;
    } else {
      AtPriceConcat(a[1..], b, p);
      assert (a + b)[0] == a[0] && (a + b)[1..] == a[1..] + b;
      var head := if a[0].price == p then [a[0]] else [];
      assert head + (AtPrice(a[1..], p) + AtPrice(b, p)) == head + AtPrice(a[1..], p) + AtPrice(b, p);
    }
  }

  lemma {:induction false} AtPriceUniform(q: seq<Slot>, r: real, p: real)
    requires forall i :: 0 <= i < |q| ==> q[i].price == r
    ensures AtPrice(q, p) == if r == p then q else []
  {
    if q != [] {
      AtPriceUniform(q[1..], r, p);
    }
  }

  /** The queue holds every level whole: nothing is missing from it and nothing is in it twice. */
  lemma {:induction false} QueueHoldsEveryLevel(kind: PositionType, levels: Levels, p: real)
    ensures AtPrice(Queue(kind, levels), p) == if p in levels then TimeQueue(p, levels[p].openOrders) else []
    decreases |levels|
  {
    if levels != map[] {
      var b := BestPrice(kind, levels);
      var front := TimeQueue(b, levels[b].openOrders);
      TimeQueueIsStableSort(b, levels[b].openOrders);
      AtPriceConcat(front, Queue(kind, levels - {b}), p);
      AtPriceUniform(front, b, p);
      QueueHoldsEveryLevel(kind, levels - {b}, p);
    }
  }

  // ----- the two selection loops

  /** Price priority: the best price strictly past `startFrom`, skipping levels with nothing on them. */
  method NextBestPrice(kind: PositionType, levels: Levels, startFrom: Option<real>) returns (best: Option<real>)
    ensures best == None ==> forall q :: q in levels && levels[q].availableQty > 0.0 ==> !Past(kind, startFrom, q)
    ensures best.Some? ==> best.value in levels && levels[best.value].availableQty > 0.0 && Past(kind, startFrom, best.value)
    ensures best.Some? ==> forall q :: q in levels && levels[q].availableQty > 0.0 && Past(kind, startFrom, q) ==>
      Rank(kind, best.value) <= Rank(kind, q)
  {
    best := None;
    var unseen := levels.Keys;
    while unseen != {}
      invariant unseen <= levels.Keys
      invariant best == None ==> forall q :: q in levels.Keys - unseen && levels[q].availableQty > 0.0 ==> !Past(kind, startFrom, q)
      invariant best.Some? ==> best.value in levels && levels[best.value].availableQty > 0.0 && Past(kind, startFrom, best.value)
      invariant best.Some? ==> forall q :: q in levels.Keys - unseen && levels[q].availableQty > 0.0 && Past(kind, startFrom, q) ==>
        Rank(kind, best.value) <= Rank(kind, q)
      decreases |unseen|
    {
      SomePrice(unseen);
      var price :| price in unseen;
      unseen := unseen - {price};
      if (best == None || Rank(kind, price) < Rank(kind, best.value))
        && Past(kind, startFrom, price) && levels[price].availableQty > 0.0 {
        best := Some(price);
      }
    }
  }

  predicate Past(kind: PositionType, startFrom: Option<real>, p: real) {
    startFrom == None || Rank(kind, startFrom.value) < Rank(kind, p)
  }

  /** Time priority: the oldest order, the earliest of them when several are as old. */
  method FirstCreatedOrder(os: seq<OpenOrder>) returns (index: int)
    ensures os == [] ==> index == -1
    ensures os != [] ==> 0 <= index && index == FirstCreated(os)
  {
    if |os| < 1 {
      return -1;
    }
    index := 0;
    for i := 1 to |os|
      invariant IsFirstCreated(os[..i], index)
    {
      if os[index].createdAt > os[i].createdAt {
        index := i;
      }
    }
    assert os[..|os|] == os;
  }
}
