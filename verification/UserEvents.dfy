/**
 * Building the private channel's payload: one ordered batch of events per account, and batches of several closes
 * merged account by account.
 */
module UserEvents {
  import opened Exchange
  import opened Sequences
  import opened Engine

  type Batches = map<Uuid, seq<UserEvent>>

  function Batch(b: Batches, u: Uuid): seq<UserEvent> {
    if u in b then b[u] else []
  }

  /** The batches hold, for every account, exactly its share of the log, in order. */
  ghost predicate Delivers(b: Batches, log: seq<Addressed>) {
    forall u :: Batch(b, u) == EventsFor(log, u)
  }

  function Pushed(b: Batches, u: Uuid, e: UserEvent): Batches {
    b[u := Batch(b, u) + [e]]
  }

  lemma PushDelivers(b: Batches, log: seq<Addressed>, u: Uuid, e: UserEvent)
    requires Delivers(b, log)
    ensures Delivers(Pushed(b, u, e), log + [Addressed(u, e)])
  {
    forall w ensures Batch(Pushed(b, u, e), w) == EventsFor(log + [Addressed(u, e)], w) {
      assert (log + [Addressed(u, e)])[..|log|] == log;
      assert Batch(b, w) == EventsFor(log, w);
    }
  }

  lemma PushTwiceDelivers(b: Batches, log: seq<Addressed>, x: Addressed, y: Addressed)
    requires Delivers(b, log)
    ensures Delivers(Pushed(Pushed(b, x.userId, x.event), y.userId, y.event), log + [x, y])
  {
    PushDelivers(b, log, x.userId, x.event);
    PushDelivers(Pushed(b, x.userId, x.event), log + [x], y.userId, y.event);
    assert log + [x] + [y] == log + [x, y];
  }

  lemma UpdatesGrow(us: seq<OrderUpdate>, i: nat, m: Uuid)
    requires i < |us|
    ensures UpdateEvents(us[..i + 1], m) == UpdateEvents(us[..i], m) + [UpdateEvent(us[i], m)]
  {
    TakeSucc(us, i);
  }

  lemma FillsGrow(fs: seq<Fill>, i: nat, m: Uuid, takerSide: PositionType)
    requires i < |fs|
    ensures FillEvents(fs[..i + 1], m, takerSide) == FillEvents(fs[..i], m, takerSide) + FillPair(fs[i], m, takerSide)
  {
    TakeSucc(fs, i);
  }

  method PushNewOrders(ns: seq<NewOrder>) returns (events: Batches, touched: seq<Uuid>)
    ensures Delivers(events, NewOrderEvents(ns))
    ensures touched == TouchedByNew([], ns)
  {
    events, touched := map[], [];
    for i := 0 to |ns|
      invariant Delivers(events, NewOrderEvents(ns[..i]))
      invariant touched == TouchedByNew([], ns[..i])
    {
      TakeSucc(ns, i);
      touched := Touch(touched, ns[i].order.userId);
      PushDelivers(events, NewOrderEvents(ns[..i]), ns[i].order.userId, OrderNew(UserOrderFrom(ns[i]), ns[i].origin));
      events := Pushed(events, ns[i].order.userId, OrderNew(UserOrderFrom(ns[i]), ns[i].origin));
    }
    assert ns[..|ns|] == ns;
  }

  method PushUpdates(before: Batches, ghost log: seq<Addressed>, seen: seq<Uuid>, us: seq<OrderUpdate>, m: Uuid)
    returns (events: Batches, touched: seq<Uuid>)
    requires Delivers(before, log)
    ensures Delivers(events, log + UpdateEvents(us, m))
    ensures touched == TouchedByUpdates(seen, us)
  {
    hide Delivers;
    events, touched := before, seen;
    assert log + UpdateEvents([], m) == log;
    for i := 0 to |us|
      invariant Delivers(events, log + UpdateEvents(us[..i], m))
      invariant touched == TouchedByUpdates(seen, us[..i])
    {
      TakeSucc(us, i);
      var e := UpdateEvent(us[i], m);
      touched := Touch(touched, us[i].userId);
      PushDelivers(events, log + UpdateEvents(us[..i], m), us[i].userId, e.event);
      UpdatesGrow(us, i, m);
      Regroup(log, UpdateEvents(us[..i], m), [e]);
      events := Pushed(events, us[i].userId, e.event);
    }
    assert us[..|us|] == us;
  }

  method PushFills(before: Batches, ghost log: seq<Addressed>, seen: seq<Uuid>, fs: seq<Fill>, m: Uuid, takerSide: PositionType)
    returns (events: Batches, touched: seq<Uuid>)
    requires Delivers(before, log)
    ensures Delivers(events, log + FillEvents(fs, m, takerSide))
    ensures touched == TouchedByFills(seen, fs)
  {
    hide Delivers;
    events, touched := before, seen;
    assert log + FillEvents([], m, takerSide) == log;
    for i := 0 to |fs|
      invariant Delivers(events, log + FillEvents(fs[..i], m, takerSide))
      invariant touched == TouchedByFills(seen, fs[..i])
    {
      TakeSucc(fs, i);
      var pair := FillPair(fs[i], m, takerSide);
      touched := Touch(Touch(touched, fs[i].makerId), fs[i].takerId);
      PushTwiceDelivers(events, log + FillEvents(fs[..i], m, takerSide), pair[0], pair[1]);
      FillsGrow(fs, i, m, takerSide);
      Regroup(log, FillEvents(fs[..i], m, takerSide), pair);
      events := Pushed(Pushed(events, pair[0].userId, pair[0].event), pair[1].userId, pair[1].event);
    }
    assert fs[..|fs|] == fs;
  }

  method PushStates(before: Batches, ghost log: seq<Addressed>, touched: seq<Uuid>, users: map<Uuid, User>, m: Uuid)
    returns (events: Batches)
    requires Delivers(before, log)
    ensures Delivers(events, log + AllStateEvents(touched, users, m))
  {
    hide Delivers;
    events := before;
    assert log + AllStateEvents([], users, m) == log;
    for i := 0 to |touched|
      invariant Delivers(events, log + AllStateEvents(touched[..i], users, m))
    {
      TakeSucc(touched, i);
      var facts := StateEvents(touched[i], users, m);
      assert log + AllStateEvents(touched[..i], users, m) + facts == log + AllStateEvents(touched[..i + 1], users, m);
      if touched[i] in users {
        PushTwiceDelivers(events, log + AllStateEvents(touched[..i], users, m), facts[0], facts[1]);
        assert facts == [facts[0], facts[1]];
        events := Pushed(Pushed(events, facts[0].userId, facts[0].event), facts[1].userId, facts[1].event);
      } else {
        assert log + AllStateEvents(touched[..i], users, m) + facts == log + AllStateEvents(touched[..i], users, m);
      }
    }
    assert touched[..|touched|] == touched;
  }

  /** New orders, then updates, then fills, then the two absolute facts: everything one match tells. */
  method UserEventsForMatch(users: map<Uuid, User>, m: Uuid, takerSide: PositionType,
                            fs: seq<Fill>, us: seq<OrderUpdate>, ns: seq<NewOrder>) returns (events: Batches)
    ensures Delivers(events, MatchEvents(users, m, takerSide, fs, us, ns))
  {
    var touched;
    events, touched := PushNewOrders(ns);
    ghost var log := NewOrderEvents(ns);
    events, touched := PushUpdates(events, log, touched, us, m);
    log := log + UpdateEvents(us, m);
    events, touched := PushFills(events, log, touched, fs, m, takerSide);
    log := log + FillEvents(fs, m, takerSide);
    events := PushStates(events, log, touched, users, m);
  }

  lemma SomeAccount(ids: set<Uuid>)
    requires ids != {}
    ensures exists u :: u in ids
  {
    assert (forall u :: u !in ids) ==> ids == {};
  }

  /** Merging appends, account by account: nothing the first payload said is lost. */
  method MergeUserEvents(into: Batches, from: Batches) returns (merged: Batches)
    ensures forall u :: Batch(merged, u) == Batch(into, u) + Batch(from, u)
  {
    merged := into;
    var left := from.Keys;
    while left != {}
      invariant left <= from.Keys
      invariant forall u :: Batch(merged, u) == Batch(into, u) + if u in left then [] else Batch(from, u)
      decreases |left|
    {
      SomeAccount(left);
      var u :| u in left;
      left := left - {u};
      if |from[u]| != 0 {
        merged := merged[u := Batch(merged, u) + from[u]];
      }
    }
  }
}
