/** Buffer, snapshot, drain, live. */
module UserFeedChannelClass {
  import opened Exchange
  import opened Engine
  import opened UserFeed

  const MAX_BUFFER: nat := 256

  class UserFeedChannel {
    var generation: nat
    var stopped: bool
    var buffering: bool
    var buffer: seq<UserEvent>
    /** The tables of the channel's subscribers. */
    var rows: seq<UserOrder>
    var entries: seq<Position>

    /** Everything the engine has told this account, delivered or not. */
    ghost var log: seq<UserEvent>
    /** How much of the log had been told when the socket opened. */
    ghost var openedAt: nat
    /** Where the kept events end: every batch after that found the buffer full. */
    ghost var keptTo: nat
    ghost var live: bool
    /** The tables are live and as of the whole log. */
    ghost var exact: bool

    ghost predicate Valid()
      reads this
    {
      && openedAt <= keptTo <= |log|
      && EngineLog(log)
      && (buffering ==> buffer == log[openedAt..keptTo])
      && (buffering && |buffer| < MAX_BUFFER ==> keptTo == |log|)
      && (live ==> !buffering)
      && (exact ==> live && TablesAsOf(rows, entries, log, |log|))
    }

    constructor ()
      ensures Valid() && !buffering && !live && !stopped && generation == 0
      ensures rows == [] && entries == [] && log == []
    {
      generation, stopped, buffering, buffer, rows, entries := 0, false, false, [], [], [];
      log, openedAt, keptTo, live, exact := [], 0, 0, false, false;
    }

    /** The engine tells the account something while no socket of this connection is open. */
    ghost method ToldWhileClosed(events: seq<UserEvent>)
      requires Valid() && !buffering && !live && EngineLog(log + events)
      modifies `log
      ensures Valid() && log == old(log) + events
    {
      log := log + events;
    }

    /** Buffering starts with the socket, not with the snapshot request, and only for the current connection. */
    method OnOpen(mine: nat)
      requires Valid()
      modifies `buffering, `buffer, `openedAt, `keptTo, `live, `exact
      ensures Valid()
      ensures stopped || mine != generation ==>
        && unchanged(`buffering) && unchanged(`buffer) && unchanged(`openedAt)
        && unchanged(`keptTo) && unchanged(`live) && unchanged(`exact)
      ensures !stopped && mine == generation ==>
        buffering && buffer == [] && openedAt == keptTo == |log| && !live && !exact
    {
      if stopped || mine != generation {
        return;
      }
      buffering := true;
      buffer := [];
      openedAt, keptTo, live, exact := |log|, |log|, false, false;
    }

    /** One batch arrives: dropped if its connection was abandoned, buffered while syncing, applied when live. */
    method OnMessage(mine: nat, events: seq<UserEvent>)
      requires Valid()
      requires !stopped && mine == generation ==> (buffering || live) && EngineLog(log + events)
      modifies `buffer, `rows, `entries, `log, `keptTo
      ensures Valid()
      ensures stopped || mine != generation ==>
        unchanged(`buffer) && unchanged(`rows) && unchanged(`entries) && unchanged(`log) && unchanged(`keptTo)
      ensures !stopped && mine == generation ==>
        && log == old(log) + events
        && buffer == (if buffering && |old(buffer)| < MAX_BUFFER then old(buffer) + events else old(buffer))
        && keptTo == (if buffering && |old(buffer)| < MAX_BUFFER then |log| else old(keptTo))
        && rows == (if buffering then old(rows) else ReduceAll(old(rows), events))
        && entries == (if buffering then old(entries) else ReduceAllPositions(old(entries), events))
    {
      if stopped || mine != generation {
        return;
      }
      ghost var before := log;
      log := log + events;
      if |events| == 0 {
        assert log == before;
        return;
      }
      if buffering {
        if |buffer| < MAX_BUFFER {
          buffer := buffer + events;
          keptTo := |log|;
          assert log[openedAt..|log|] == before[openedAt..|before|] + events;
        } else {
          assert log[openedAt..keptTo] == before[openedAt..keptTo];
        }
        return;
      }
      assert log[|before|..|log|] == events;
      if exact {
        LogGrows(rows, entries, before, events);
        SnapshotThenDrainConverges(log, rows, entries, |before|, |before|, |before|, |log|);
      }
      rows := ReduceAll(rows, events);
      entries := ReduceAllPositions(entries, events);
    }

    /**
     * The snapshots settled: the buffer drains over them and the channel is live. Each table has its own
     * request: a snapshot that arrived replaces the table, after one that failed the table is what it was,
     * and either is as of some point of the log. What the drained tables show is then exact, and they are
     * what the engine's whole log says if and only if `Settles` holds of those points.
     */
    method ResyncAndDrain(mine: nat, snapshotRows: Option<seq<UserOrder>>, snapshotEntries: Option<seq<Position>>,
                          ghost s: nat, ghost p: nat)
      requires Valid() && s <= |log| && p <= |log|
      requires RowsAsOf(if snapshotRows.Some? then snapshotRows.value else rows, log, s)
      requires EntriesAsOf(if snapshotEntries.Some? then snapshotEntries.value else entries, log, p)
      requires !stopped && mine == generation ==> buffering
      modifies `buffering, `buffer, `rows, `entries, `live, `exact
      ensures Valid()
      ensures stopped || mine != generation ==>
        && unchanged(`buffering) && unchanged(`buffer) && unchanged(`rows) && unchanged(`entries)
        && unchanged(`live) && unchanged(`exact)
      ensures !stopped && mine == generation ==>
        && live && !buffering && buffer == []
        && rows == ReduceAll(if snapshotRows.Some? then snapshotRows.value else old(rows), old(buffer))
        && entries == ReduceAllPositions(if snapshotEntries.Some? then snapshotEntries.value else old(entries), old(buffer))
        && (forall id :: Row(rows, id) == RowShown(log, id, s, openedAt, keptTo))
        && (forall m :: Entry(entries, m) == EntryShown(log, m, p, openedAt, keptTo))
        && (exact <==> TablesAsOf(rows, entries, log, |log|))
        && (exact <==> Settles(log, s, p, openedAt, keptTo))
    {
      hide RowShown, EntryShown, UniqueRows, UniqueEntries, EngineLog, RowsAsOf, EntriesAsOf, Settles;
      if stopped || mine != generation {
        return;
      }
      if snapshotRows.Some? {
        rows := snapshotRows.value;
      }
      if snapshotEntries.Some? {
        entries := snapshotEntries.value;
      }
      var pending := buffer;
      buffer := [];
      buffering := false;
      DrainSettlesIff(log, rows, entries, s, p, openedAt, keptTo);
      rows := ReduceAll(rows, pending);
      entries := ReduceAllPositions(entries, pending);
      live := true;
      exact := Settles(log, s, p, openedAt, keptTo);
    }

    /** Abandons the connection: whatever is still in flight for it will land nowhere. */
    method Teardown()
      requires Valid()
      modifies `generation, `buffering, `buffer, `live, `exact
      ensures Valid() && generation == old(generation) + 1 && !buffering && buffer == [] && !live && !exact
    {
      generation := generation + 1;
      buffering := false;
      buffer := [];
      live, exact := false, false;
    }
  }

  lemma LogGrows(rows: seq<UserOrder>, entries: seq<Position>, log: seq<UserEvent>, events: seq<UserEvent>)
    requires TablesAsOf(rows, entries, log, |log|)
    ensures TablesAsOf(rows, entries, log + events, |log|)
  {
    assert (log + events)[..|log|] == log[..|log|];
  }

  // ----- when a connection settles on the truth

  /** Every row and every position the drain shows is the one the whole log ends with. */
  ghost predicate Settles(log: seq<UserEvent>, s: nat, p: nat, openedAt: nat, keptTo: nat)
    requires s <= |log| && p <= |log| && openedAt <= keptTo <= |log|
  {
    && (forall id :: RowShown(log, id, s, openedAt, keptTo) == RowAfter(None, log, id))
    && (forall m :: EntryShown(log, m, p, openedAt, keptTo) == EntryAfter(None, log, m))
  }

  /** What the drain leaves, and when it is as of the whole log. */
  lemma DrainSettlesIff(log: seq<UserEvent>, rows: seq<UserOrder>, entries: seq<Position>, s: nat, p: nat, openedAt: nat, keptTo: nat)
    requires EngineLog(log) && s <= |log| && p <= |log| && openedAt <= keptTo <= |log|
    requires RowsAsOf(rows, log, s) && EntriesAsOf(entries, log, p)
    ensures var shown, held := ReduceAll(rows, log[openedAt..keptTo]), ReduceAllPositions(entries, log[openedAt..keptTo]);
      && (forall id :: Row(shown, id) == RowShown(log, id, s, openedAt, keptTo))
      && (forall m :: Entry(held, m) == EntryShown(log, m, p, openedAt, keptTo))
      && (TablesAsOf(shown, held, log, |log|) <==> Settles(log, s, p, openedAt, keptTo))
  {
    hide RowShown, EntryShown, UniqueRows, UniqueEntries, EngineLog, Row, Entry, ReduceAll, ReduceAllPositions;
    DrainedTablesShow(log, rows, entries, s, p, openedAt, keptTo);
    assert log[..|log|] == log;
  }

  /** Nothing of the log was told between `i` and `j` that moved the row or the position. */
  ghost predicate SameRow(log: seq<UserEvent>, id: Uuid, i: nat, j: nat)
    requires i <= |log| && j <= |log|
  {
    RowAfter(None, log[..i], id) == RowAfter(None, log[..j], id)
  }

  ghost predicate SameEntry(log: seq<UserEvent>, m: Uuid, i: nat, j: nat)
    requires i <= |log| && j <= |log|
  {
    EntryAfter(None, log[..i], m) == EntryAfter(None, log[..j], m)
  }

  /**
   * With no batch dropped a connection settles if and only if each snapshot that is older than the
   * socket's opening missed nothing that the buffer does not make good. In particular it always does
   * when both snapshots are no older than that.
   */
  lemma UndroppedSettlesIff(log: seq<UserEvent>, s: nat, p: nat, openedAt: nat)
    requires EngineLog(log) && s <= |log| && p <= |log| && openedAt <= |log|
    ensures Settles(log, s, p, openedAt, |log|) <==>
      && (s < openedAt ==> forall id :: GapIsHarmless(log, id, s, openedAt, |log|))
      && (p < openedAt ==> forall m :: SameEntry(log, m, p, openedAt) || ToldIn(log, openedAt, |log|, m))
  {
    hide GapIsHarmless, RowShown, WellTold;
    var n := |log|;
    assert log[..n] == log;
    forall id ensures RowShown(log, id, s, openedAt, n) == RowAfter(None, log, id)
      <==> (s < openedAt ==> GapIsHarmless(log, id, s, openedAt, n)) {
      if s < openedAt {
        LaggingRowIff(log, id, s, openedAt, n);
      } else {
        RowAfterReplay(log, id, s, openedAt, n);
        ReplayedRowConverges(log, id, openedAt, s, n);
      }
    }
    forall m ensures EntryShown(log, m, p, openedAt, n) == EntryAfter(None, log, m)
      <==> (p < openedAt ==> SameEntry(log, m, p, openedAt) || ToldIn(log, openedAt, n, m)) {
      MissedPositionIff(log, m, p, openedAt, n);
    }
  }

  lemma MissedPositionIff(log: seq<UserEvent>, m: Uuid, p: nat, i: nat, j: nat)
    requires p <= j <= |log| && i <= j
    ensures EntryShown(log, m, p, i, j) == EntryAfter(None, log[..j], m)
      <==> (p < i ==> SameEntry(log, m, p, i) || ToldIn(log, i, j, m))
  {
    if !ToldIn(log, i, j, m) {
      if p < i {
        QuietMarketStays(log, m, i, j);
      } else {
        assert !ToldIn(log, p, j, m);
        QuietMarketStays(log, m, p, j);
      }
    }
  }

  /** The kept events told this row anew: they introduce the order, or overtake or renew an older snapshot. */
  ghost predicate RetoldRow(log: seq<UserEvent>, id: Uuid, s: nat, openedAt: nat, keptTo: nat)
    requires s <= |log|
  {
    if s < openedAt then RenewedIn(log, openedAt, keptTo, id, RowAfter(None, log[..s], id))
    else s < keptTo || IntroducedIn(log, openedAt, keptTo, id)
  }

  /** How far the row shown is told: to the end of the kept events if they retell it, else to its snapshot. */
  ghost function RowPoint(log: seq<UserEvent>, id: Uuid, s: nat, openedAt: nat, keptTo: nat): nat
    requires s <= |log|
  {
    if RetoldRow(log, id, s, openedAt, keptTo) then keptTo else s
  }

  ghost function EntryPoint(log: seq<UserEvent>, m: Uuid, p: nat, openedAt: nat, keptTo: nat): nat {
    if ToldIn(log, openedAt, keptTo, m) then keptTo else p
  }

  /**
   * In general, with batches dropped or not and snapshots of any age, it settles if and only if the log
   * moves no row and no position after the point it is told to: the end of the kept events if they retell
   * it, and its snapshot otherwise.
   */
  lemma SettlesIff(log: seq<UserEvent>, s: nat, p: nat, openedAt: nat, keptTo: nat)
    requires EngineLog(log) && s <= |log| && p <= |log| && openedAt <= keptTo <= |log|
    ensures Settles(log, s, p, openedAt, keptTo) <==>
      && (forall id :: SameRow(log, id, RowPoint(log, id, s, openedAt, keptTo), |log|))
      && (forall m :: SameEntry(log, m, EntryPoint(log, m, p, openedAt, keptTo), |log|))
  {
    hide WellTold;
    assert log[..|log|] == log;
    forall id ensures RowShown(log, id, s, openedAt, keptTo) == RowAfter(None, log, id)
      <==> SameRow(log, id, RowPoint(log, id, s, openedAt, keptTo), |log|) {
    }
    forall m ensures EntryShown(log, m, p, openedAt, keptTo) == EntryAfter(None, log, m)
      <==> SameEntry(log, m, EntryPoint(log, m, p, openedAt, keptTo), |log|) {
    }
  }

  // ----- two ways to end up wrong

  function Filler(n: nat): seq<UserEvent> {
    seq(n, _ => BalanceNow(0.0, 0.0))
  }

  lemma {:induction false} FillerIsInert(rows: seq<UserOrder>, es: seq<UserEvent>, n: nat, id: Uuid)
    ensures ReduceAll(rows, es + Filler(n)) == ReduceAll(rows, es)
    ensures RowAfter(None, es + Filler(n), id) == RowAfter(None, es, id)
    ensures WellTold(es, id) ==> WellTold(es + Filler(n), id)
  {
    if n == 0 {
      assert es + Filler(0) == es;
    } else {
      assert Filler(n) == Filler(n - 1) + [BalanceNow(0.0, 0.0)];
      assert (es + Filler(n))[..|es + Filler(n)| - 1] == es + Filler(n - 1);
      FillerIsInert(rows, es, n - 1, id);
    }
  }

  lemma FirstIsAnEngineLog(o: UserOrder)
    requires o.status == Open && o.filledQty == 0.0
    ensures EngineLog([OrderNew(o, ByUser)])
    ensures forall id :: RowAfter(None, [OrderNew(o, ByUser)], id) == if id == o.id then Some(o) else None
    ensures ReduceAll([], [OrderNew(o, ByUser)]) == [o]
  {
    var first := [OrderNew(o, ByUser)];
    assert first[..|first| - 1] == [];
    forall id ensures WellTold(first, id) {
      assert !Introduced([], id);
      assert RowAfter(None, [], id) == None;
    }
  }

  /** The log of the overflow: the order, enough balance events to fill the buffer, the order's finish. */
  function Kept(o: UserOrder): seq<UserEvent> {
    [OrderNew(o, ByUser)] + Filler(MAX_BUFFER - 1)
  }

  function Lost(o: UserOrder): seq<UserEvent> {
    [OrderUpdated(o.id, o.marketId, Filled, o.qty)]
  }

  lemma KeptIsAnEngineLog(o: UserOrder)
    requires o.status == Open && o.filledQty == 0.0
    ensures |Kept(o)| == MAX_BUFFER && EngineLog(Kept(o)) && ReduceAll([], Kept(o)) == [o]
    ensures forall id :: RowAfter(None, Kept(o), id) == if id == o.id then Some(o) else None
  {
    hide WellTold, ReduceAll, RowAfter;
    var first := [OrderNew(o, ByUser)];
    FirstIsAnEngineLog(o);
    forall id ensures WellTold(Kept(o), id) && RowAfter(None, Kept(o), id) == if id == o.id then Some(o) else None {
      FillerIsInert([], first, MAX_BUFFER - 1, id);
    }
    FillerIsInert([], first, MAX_BUFFER - 1, o.id);
  }

  lemma FinishedIsAnEngineLog(o: UserOrder)
    requires o.status == Open && o.filledQty == 0.0 && o.qty > 0.0
    ensures EngineLog(Kept(o) + Lost(o))
    ensures forall id :: RowAfter(None, Kept(o) + Lost(o), id) == None
  {
    hide Kept;
    var log := Kept(o) + Lost(o);
    KeptIsAnEngineLog(o);
    assert log[..|log| - 1] == Kept(o) && log[|log| - 1] == Lost(o)[0];
    assert Introduced(Kept(o), o.id) by { KeptIntroduces(o); }
    forall id ensures WellTold(log, id) && RowAfter(None, log, id) == None {
    }
    forall e | e in log ensures NamesItsMarket(e) {
      assert e in Kept(o) || e in Lost(o);
    }
  }

  lemma KeptIntroduces(o: UserOrder)
    ensures Introduced(Kept(o), o.id)
  {
    assert Kept(o)[0] == OrderNew(o, ByUser);
  }

  lemma FillerTellsNoPositions(o: UserOrder, m: Uuid)
    ensures EntryAfter(None, Kept(o) + Lost(o), m) == None
  {
    NoPositionsTold(Kept(o) + Lost(o), m);
  }

  lemma NothingAsOfFinish(o: UserOrder)
    requires o.status == Open && o.filledQty == 0.0 && o.qty > 0.0
    ensures TablesAsOf([], [], Kept(o) + Lost(o), |Kept(o) + Lost(o)|)
  {
    hide Kept, Lost, RowAfter, EntryAfter;
    var log := Kept(o) + Lost(o);
    assert log[..|log|] == log;
    FinishedIsAnEngineLog(o);
    forall m ensures EntryAfter(None, log, m) == None {
      FillerTellsNoPositions(o, m);
    }
  }

  lemma {:induction false} NoPositionsTold(es: seq<UserEvent>, m: Uuid)
    requires forall e :: e in es ==> !e.PositionNow?
    ensures EntryAfter(None, es, m) == None
  {
    if es != [] {
      NoPositionsTold(es[..|es| - 1], m);
    }
  }

  lemma OverflowIsTold(o: UserOrder)
    requires o.status == Open && o.filledQty == 0.0 && o.qty > 0.0
    ensures |Kept(o)| == MAX_BUFFER && EngineLog(Kept(o)) && ReduceAll([], Kept(o)) == [o]
    ensures var log := Kept(o) + Lost(o); EngineLog(log) && RowAfter(None, log, o.id) == None && TablesAsOf([], [], log, |log|)
  {
    KeptIsAnEngineLog(o);
    FinishedIsAnEngineLog(o);
    NothingAsOfFinish(o);
  }

  /**
   * Dropping the newest batches is not harmless. The buffer fills up on a batch that introduces an
   * order, the next batch finishes it and is dropped, the snapshot no longer has it; the drained table
   * shows the order as open.
   */
  method OverflowBringsBackAFinishedOrder(o: UserOrder) returns (shown: seq<UserOrder>, ghost log: seq<UserEvent>)
    requires o.status == Open && o.filledQty == 0.0 && o.qty > 0.0
    ensures EngineLog(log) && RowAfter(None, log, o.id) == None
    ensures shown == [o]
  {
    hide Kept, Lost, EngineLog, RowAfter, ReduceAll, ReduceAllPositions, TablesAsOf, RowsAsOf, EntriesAsOf, RowShown, EntryShown, Settles, Row, Entry;
    OverflowIsTold(o);
    var c := new UserFeedChannel();
    c.OnOpen(0);
    assert c.log + Kept(o) == Kept(o);
    c.OnMessage(0, Kept(o));
    c.OnMessage(0, Lost(o));
    assert c.buffer == Kept(o) && c.log == Kept(o) + Lost(o);
    AsOfBoth([], [], c.log, |c.log|);
    c.ResyncAndDrain(0, Some([]), Some([]), |c.log|, |c.log|);
    shown, log := c.rows, c.log;
  }

  lemma AsOfBoth(rows: seq<UserOrder>, entries: seq<Position>, log: seq<UserEvent>, s: nat)
    requires s <= |log| && TablesAsOf(rows, entries, log, s)
    ensures RowsAsOf(rows, log, s) && EntriesAsOf(entries, log, s)
  {
  }

  /**
   * A snapshot that lags behind the socket hides an order. It is told before the socket opens, the
   * database does not have it yet, and no later event introduces it again.
   */
  method LaggingSnapshotHidesAnOrder(o: UserOrder) returns (shown: seq<UserOrder>, ghost log: seq<UserEvent>)
    requires o.status == Open && o.filledQty == 0.0
    ensures EngineLog(log) && RowAfter(None, log, o.id) == Some(o)
    ensures shown == []
  {
    var c := new UserFeedChannel();
    ghost var told := [OrderNew(o, ByUser)];
    FirstIsAnEngineLog(o);
    assert c.log + told == told;
    c.ToldWhileClosed(told);
    c.OnOpen(0);
    c.ResyncAndDrain(0, Some([]), Some([]), 0, 0);
    shown, log := c.rows, c.log;
  }
}
