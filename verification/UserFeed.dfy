/** The private channel's reducers, and replaying over a snapshot. */
module UserFeed {
  import opened Exchange
  import opened Positions
  import opened Engine

  predicate IsResting(s: Status) {
    s == Open || s == PartiallyFilled
  }

  // ----- the open-orders table

  function FindRow(rows: seq<UserOrder>, id: Uuid): (i: int)
    ensures -1 <= i < |rows|
    ensures i < 0 ==> forall j :: 0 <= j < |rows| ==> rows[j].id != id
    ensures 0 <= i ==> rows[i].id == id
  {
    if rows == [] then -1
    else if rows[0].id == id then 0
    else var k := FindRow(rows[1..], id); if k < 0 then -1 else k + 1
  }

  function Without(rows: seq<UserOrder>, id: Uuid): seq<UserOrder> {
    if rows == [] then [] else (if rows[0].id != id then [rows[0]] else []) + Without(rows[1..], id)
  }

  /** Terminal is terminal, and a filled quantity never goes down. */
  predicate Supersedes(held: UserOrder, filledQty: real) {
    IsResting(held.status) && filledQty >= held.filledQty
  }

  function ReduceOpenOrders(rows: seq<UserOrder>, e: UserEvent): seq<UserOrder> {
    match e
    case OrderNew(o, _) =>
      if !IsResting(o.status) then rows
      else
        var i := FindRow(rows, o.id);
        if i < 0 then rows + [o] else rows[i := o]
    case OrderUpdated(id, _, status, filledQty) =>
      var i := FindRow(rows, id);
      if i < 0 || !Supersedes(rows[i], filledQty) then rows
      else if !IsResting(status) then Without(rows, id)
      else rows[i := rows[i].(status := status, filledQty := filledQty)]
    case _ => rows
  }

  function ReduceAll(rows: seq<UserOrder>, es: seq<UserEvent>): seq<UserOrder> {
    if es == [] then rows else ReduceOpenOrders(ReduceAll(rows, es[..|es| - 1]), es[|es| - 1])
  }

  /** The table as a map: the row of an id. */
  function Row(rows: seq<UserOrder>, id: Uuid): Option<UserOrder> {
    var i := FindRow(rows, id);
    if i < 0 then None else Some(rows[i])
  }

  ghost predicate UniqueRows(rows: seq<UserOrder>) {
    forall i, j :: 0 <= i < j < |rows| ==> rows[i].id != rows[j].id
  }

  /** What an event does to the row of one id. */
  function ReduceRow(held: Option<UserOrder>, e: UserEvent, id: Uuid): Option<UserOrder> {
    match e
    case OrderNew(o, _) => if o.id == id && IsResting(o.status) then Some(o) else held
    case OrderUpdated(oid, _, status, filledQty) =>
      if oid != id || held == None || !Supersedes(held.value, filledQty) then held
      else if !IsResting(status) then None
      else Some(held.value.(status := status, filledQty := filledQty))
    case _ => held
  }

  function RowAfter(held: Option<UserOrder>, es: seq<UserEvent>, id: Uuid): Option<UserOrder> {
    if es == [] then held else ReduceRow(RowAfter(held, es[..|es| - 1], id), es[|es| - 1], id)
  }

  lemma RowCons(r: UserOrder, tail: seq<UserOrder>, id: Uuid)
    ensures Row([r] + tail, id) == if r.id == id then Some(r) else Row(tail, id)
  {
    assert ([r] + tail)[1..] == tail;
  }

  lemma {:induction false} WithoutKeepsOthers(rows: seq<UserOrder>, id: Uuid, other: Uuid)
    requires UniqueRows(rows)
    ensures UniqueRows(Without(rows, id))
    ensures Row(Without(rows, id), other) == if other == id then None else Row(rows, other)
    ensures forall r :: r in Without(rows, id) ==> r in rows
  {
    if rows != [] {
      WithoutKeepsOthers(rows[1..], id, other);
      var tail := Without(rows[1..], id);
      forall r | r in tail ensures r in rows && r.id != rows[0].id {
        var k :| 0 <= k < |rows[1..]| && rows[1..][k] == r;
        assert rows[k + 1] == r;
      }
      assert rows == [rows[0]] + rows[1..];
      RowCons(rows[0], rows[1..], other);
      if rows[0].id != id {
        RowCons(rows[0], tail, other);
      } else {
        assert Without(rows, id) == tail;
        assert forall j :: 0 <= j < |rows[1..]| ==> rows[1..][j] == rows[j + 1];
      }
    }
  }

  lemma RowIsUnique(rows: seq<UserOrder>, i: nat)
    requires UniqueRows(rows) && i < |rows|
    ensures Row(rows, rows[i].id) == Some(rows[i])
  {
  }

  lemma RowAfterReplace(rows: seq<UserOrder>, i: nat, o: UserOrder, id: Uuid)
    requires UniqueRows(rows) && i < |rows| && o.id == rows[i].id
    ensures UniqueRows(rows[i := o])
    ensures Row(rows[i := o], id) == if id == o.id then Some(o) else Row(rows, id)
  {
    var after := rows[i := o];
    assert forall j :: 0 <= j < |rows| ==> after[j].id == rows[j].id;
    if id == o.id {
      RowIsUnique(after, i);
    } else {
      var k := FindRow(rows, id);
      if k >= 0 {
        RowIsUnique(after, k);
      }
    }
  }

  lemma RowAfterPush(rows: seq<UserOrder>, o: UserOrder, id: Uuid)
    requires UniqueRows(rows) && FindRow(rows, o.id) < 0
    ensures UniqueRows(rows + [o])
    ensures Row(rows + [o], id) == if id == o.id then Some(o) else Row(rows, id)
  {
    var after := rows + [o];
    assert forall j :: 0 <= j < |rows| ==> after[j] == rows[j];
    if id == o.id {
      RowIsUnique(after, |rows|);
    } else {
      var k := FindRow(rows, id);
      if k >= 0 {
        RowIsUnique(after, k);
      }
    }
  }

  /** The list reducer is the row reducer, id by id, and never doubles a row. */
  lemma ReducerWorksRowByRow(rows: seq<UserOrder>, e: UserEvent, id: Uuid)
    requires UniqueRows(rows)
    ensures UniqueRows(ReduceOpenOrders(rows, e))
    ensures Row(ReduceOpenOrders(rows, e), id) == ReduceRow(Row(rows, id), e, id)
  {
    match e
    case OrderNew(o, _) =>
      var i := FindRow(rows, o.id);
      if i >= 0 {
        RowAfterReplace(rows, i, o, id);
      } else {
        RowAfterPush(rows, o, id);
      }
    case OrderUpdated(oid, _, status, filledQty) =>
      var i := FindRow(rows, oid);
      if i >= 0 {
        RowAfterReplace(rows, i, rows[i].(status := status, filledQty := filledQty), id);
        WithoutKeepsOthers(rows, oid, id);
      }
    case _ =>
  }

  lemma {:induction false} TableWorksRowByRow(rows: seq<UserOrder>, es: seq<UserEvent>, id: Uuid)
    requires UniqueRows(rows)
    ensures UniqueRows(ReduceAll(rows, es))
    ensures Row(ReduceAll(rows, es), id) == RowAfter(Row(rows, id), es, id)
  {
    if es != [] {
      TableWorksRowByRow(rows, es[..|es| - 1], id);
      ReducerWorksRowByRow(ReduceAll(rows, es[..|es| - 1]), es[|es| - 1], id);
    }
  }

  // ----- the logs an engine writes

  function StatusFor(filledQty: real): Status {
    if filledQty > 0.0 then PartiallyFilled else Open
  }

  ghost predicate Introduced(es: seq<UserEvent>, id: Uuid) {
    exists k :: 0 <= k < |es| && es[k].OrderNew? && es[k].order.id == id
  }

  /** Whether `e` may follow a log in which the order `id` stands at `held`. */
  predicate Follows(held: Option<UserOrder>, introduced: bool, e: UserEvent, id: Uuid) {
    match e
    case OrderNew(o, _) =>
      o.id == id ==> !introduced && (IsResting(o.status) ==> o.status == StatusFor(o.filledQty))
    case OrderUpdated(oid, _, status, filledQty) =>
      oid == id ==>
        && introduced
        && (held == None ==> !IsResting(status))
        && (held.Some? ==> filledQty >= held.value.filledQty && (IsResting(status) ==> status == StatusFor(filledQty)))
    case _ => true
  }

  /**
   * The order of events the engine keeps for one order: introduced once before anything else is said
   * about it, then filled ever further, and once finished never resting again.
   */
  ghost predicate WellTold(es: seq<UserEvent>, id: Uuid) {
    es == [] ||
    (var before := es[..|es| - 1];
     WellTold(before, id) && Follows(RowAfter(None, before, id), Introduced(before, id), es[|es| - 1], id))
  }

  lemma {:induction false} WellToldPrefix(es: seq<UserEvent>, id: Uuid, k: nat)
    requires WellTold(es, id) && k <= |es|
    ensures WellTold(es[..k], id)
  {
    if k < |es| {
      WellToldPrefix(es[..|es| - 1], id, k);
      assert es[..|es| - 1][..k] == es[..k];
    } else {
      assert es[..k] == es;
    }
  }

  lemma RowStep(held: Option<UserOrder>, es: seq<UserEvent>, id: Uuid, k: nat)
    requires k < |es|
    ensures RowAfter(held, es[..k + 1], id) == ReduceRow(RowAfter(held, es[..k], id), es[k], id)
  {
    assert es[..k + 1][..k] == es[..k];
  }

  lemma WellToldStep(es: seq<UserEvent>, id: Uuid, k: nat)
    requires WellTold(es, id) && k < |es|
    ensures Follows(RowAfter(None, es[..k], id), Introduced(es[..k], id), es[k], id)
  {
    WellToldPrefix(es, id, k + 1);
    assert es[..k + 1][..k] == es[..k];
  }

  lemma IntroducedGrows(es: seq<UserEvent>, id: Uuid, k: nat, n: nat)
    requires k <= n <= |es| && Introduced(es[..k], id)
    ensures Introduced(es[..n], id)
  {
    var j :| 0 <= j < k && es[..k][j].OrderNew? && es[..k][j].order.id == id;
    assert es[..n][j] == es[j];
  }

  /** A held row's status is the one its filled quantity calls for. */
  lemma {:induction false} RowsAreConsistent(es: seq<UserEvent>, id: Uuid)
    requires WellTold(es, id)
    ensures var r := RowAfter(None, es, id); r.Some? ==> r.value.id == id && r.value.status == StatusFor(r.value.filledQty)
  {
    if es != [] {
      RowsAreConsistent(es[..|es| - 1], id);
    }
  }

  /** Once introduced, a row that is still there was there all along, and had filled no further. */
  lemma {:induction false} RowsOnlyFill(es: seq<UserEvent>, id: Uuid, k: nat, s: nat)
    requires WellTold(es, id) && k <= s <= |es| && Introduced(es[..k], id)
    requires RowAfter(None, es[..s], id).Some?
    ensures RowAfter(None, es[..k], id).Some?
    ensures var early, late := RowAfter(None, es[..k], id).value, RowAfter(None, es[..s], id).value;
      early.filledQty <= late.filledQty && late == early.(status := late.status, filledQty := late.filledQty)
    decreases s
  {
    if k < s {
      RowStep(None, es, id, s - 1);
      WellToldStep(es, id, s - 1);
      IntroducedGrows(es, id, k, s - 1);
      RowsOnlyFill(es, id, k, s - 1);
    }
  }

  /** Replaying an event the snapshot already contains changes nothing on a row it is about. */
  lemma StaleUpdateChangesNothing(es: seq<UserEvent>, id: Uuid, k: nat, s: nat)
    requires WellTold(es, id) && k < s <= |es| && !(es[k].OrderNew? && es[k].order.id == id)
    ensures ReduceRow(RowAfter(None, es[..s], id), es[k], id) == RowAfter(None, es[..s], id)
  {
    var late := RowAfter(None, es[..s], id);
    WellToldStep(es, id, k);
    RowStep(None, es, id, k);
    if es[k].OrderUpdated? && es[k].orderId == id && late.Some? {
      RowsOnlyFill(es, id, k, s);
      IntroducedGrows(es, id, k, k + 1);
      RowsOnlyFill(es, id, k + 1, s);
      WellToldPrefix(es, id, k);
      RowsAreConsistent(es[..k], id);
      WellToldPrefix(es, id, s);
      RowsAreConsistent(es[..s], id);
    }
  }

  lemma SliceStep(es: seq<UserEvent>, i: nat, k: nat)
    requires i <= k < |es|
    ensures es[i..k + 1] == es[i..k] + [es[k]]
    ensures es[i..k + 1][..|es[i..k + 1]| - 1] == es[i..k]
  {
  }

  lemma ReplayStep(held: Option<UserOrder>, es: seq<UserEvent>, id: Uuid, i: nat, k: nat)
    requires i <= k < |es|
    ensures RowAfter(held, es[i..k + 1], id) == ReduceRow(RowAfter(held, es[i..k], id), es[k], id)
  {
    SliceStep(es, i, k);
  }

  ghost predicate IntroducedIn(es: seq<UserEvent>, i: nat, k: nat, id: Uuid) {
    exists j :: i <= j < k <= |es| && es[j].OrderNew? && es[j].order.id == id
  }

  /**
   * While old events are replayed over a newer snapshot, a row that is re-introduced follows its
   * own past, and any other row stays as the snapshot had it.
   */
  lemma {:induction false} ReplayCatchesUp(es: seq<UserEvent>, id: Uuid, i: nat, k: nat, s: nat)
    requires WellTold(es, id) && i <= k <= s <= |es|
    ensures RowAfter(RowAfter(None, es[..s], id), es[i..k], id)
      == if IntroducedIn(es, i, k, id) then RowAfter(None, es[..k], id) else RowAfter(None, es[..s], id)
    decreases k
  {
    hide WellTold, Introduced;
    var snapshot := RowAfter(None, es[..s], id);
    if i == k {
      assert es[i..k] == [];
    } else {
      ReplayCatchesUp(es, id, i, k - 1, s);
      ReplayStep(snapshot, es, id, i, k - 1);
      RowStep(None, es, id, k - 1);
      var e := es[k - 1];
      if e.OrderNew? && e.order.id == id {
        assert IntroducedIn(es, i, k, id);
        WellToldStep(es, id, k - 1);
        if !IsResting(e.order.status) {
          RestsOnlyAfterIntroduction(es[..k - 1], id);
          NeverRestsAfterFinish(es, id, k, s);
        }
      } else if !IntroducedIn(es, i, k - 1, id) {
        StaleUpdateChangesNothing(es, id, k - 1, s);
      }
    }
  }

  lemma {:induction false} RestsOnlyAfterIntroduction(es: seq<UserEvent>, id: Uuid)
    requires !Introduced(es, id)
    ensures RowAfter(None, es, id) == None
  {
    if es != [] {
      var before := es[..|es| - 1];
      assert !Introduced(before, id) by {
        assert forall j :: 0 <= j < |before| ==> before[j] == es[j];
      }
      RestsOnlyAfterIntroduction(before, id);
      assert !(es[|es| - 1].OrderNew? && es[|es| - 1].order.id == id);
    }
  }

  lemma NeverRestsAfterFinish(es: seq<UserEvent>, id: Uuid, k: nat, s: nat)
    requires WellTold(es, id) && k <= s <= |es| && Introduced(es[..k], id) && RowAfter(None, es[..k], id) == None
    ensures RowAfter(None, es[..s], id) == None
  {
    if RowAfter(None, es[..s], id).Some? {
      RowsOnlyFill(es, id, k, s);
    }
  }

  lemma {:induction false} RowAfterConcat(held: Option<UserOrder>, a: seq<UserEvent>, b: seq<UserEvent>, id: Uuid)
    ensures RowAfter(held, a + b, id) == RowAfter(RowAfter(held, a, id), b, id)
  {
    if b == [] {
      assert a + b == a;
    } else {
      assert (a + b)[..|a + b| - 1] == a + b[..|b| - 1];
      RowAfterConcat(held, a, b[..|b| - 1], id);
    }
  }

  // ----- the positions table

  function WithoutMarket(entries: seq<Position>, m: Uuid): seq<Position> {
    if entries == [] then []
    else (if entries[0].marketId != m then [entries[0]] else []) + WithoutMarket(entries[1..], m)
  }

  function ReducePositions(entries: seq<Position>, e: UserEvent): seq<Position> {
    match e
    case PositionNow(m, None) => WithoutMarket(entries, m)
    case PositionNow(m, Some(p)) =>
      var i := FindPosition(entries, m);
      if i < 0 then entries + [p] else entries[i := p]
    case _ => entries
  }

  function ReduceAllPositions(entries: seq<Position>, es: seq<UserEvent>): seq<Position> {
    if es == [] then entries else ReducePositions(ReduceAllPositions(entries, es[..|es| - 1]), es[|es| - 1])
  }

  function Entry(entries: seq<Position>, m: Uuid): Option<Position> {
    var i := FindPosition(entries, m);
    if i < 0 then None else Some(entries[i])
  }

  ghost predicate UniqueEntries(entries: seq<Position>) {
    forall i, j :: 0 <= i < j < |entries| ==> entries[i].marketId != entries[j].marketId
  }

  function ReduceEntry(held: Option<Position>, e: UserEvent, m: Uuid): Option<Position> {
    if e.PositionNow? && e.marketId == m then e.position else held
  }

  function EntryAfter(held: Option<Position>, es: seq<UserEvent>, m: Uuid): Option<Position> {
    if es == [] then held else ReduceEntry(EntryAfter(held, es[..|es| - 1], m), es[|es| - 1], m)
  }

  /** A position event speaks of the market it names. */
  predicate NamesItsMarket(e: UserEvent) {
    e.PositionNow? && e.position.Some? ==> e.position.value.marketId == e.marketId
  }

  lemma EntryCons(p: Position, tail: seq<Position>, m: Uuid)
    ensures Entry([p] + tail, m) == if p.marketId == m then Some(p) else Entry(tail, m)
  {
    assert ([p] + tail)[1..] == tail;
  }

  lemma {:induction false} WithoutMarketKeepsOthers(entries: seq<Position>, m: Uuid, other: Uuid)
    requires UniqueEntries(entries)
    ensures UniqueEntries(WithoutMarket(entries, m))
    ensures Entry(WithoutMarket(entries, m), other) == if other == m then None else Entry(entries, other)
    ensures forall p :: p in WithoutMarket(entries, m) ==> p in entries
  {
    if entries != [] {
      WithoutMarketKeepsOthers(entries[1..], m, other);
      var tail := WithoutMarket(entries[1..], m);
      forall p | p in tail ensures p in entries && p.marketId != entries[0].marketId {
        var k :| 0 <= k < |entries[1..]| && entries[1..][k] == p;
        assert entries[k + 1] == p;
      }
      assert entries == [entries[0]] + entries[1..];
      EntryCons(entries[0], entries[1..], other);
      if entries[0].marketId != m {
        EntryCons(entries[0], tail, other);
      } else {
        assert WithoutMarket(entries, m) == tail;
        assert forall j :: 0 <= j < |entries[1..]| ==> entries[1..][j] == entries[j + 1];
      }
    }
  }

  lemma EntryIsUnique(entries: seq<Position>, i: nat)
    requires UniqueEntries(entries) && i < |entries|
    ensures Entry(entries, entries[i].marketId) == Some(entries[i])
  {
  }

  lemma PositionUpsert(entries: seq<Position>, p: Position, m: Uuid)
    requires UniqueEntries(entries)
    ensures var i := FindPosition(entries, p.marketId);
      var after := if i < 0 then entries + [p] else entries[i := p];
      UniqueEntries(after) && Entry(after, m) == if m == p.marketId then Some(p) else Entry(entries, m)
  {
    var i := FindPosition(entries, p.marketId);
    var after := if i < 0 then entries + [p] else entries[i := p];
    var at := if i < 0 then |entries| else i;
    assert after[at] == p && forall j :: 0 <= j < |entries| && j != at ==> after[j] == entries[j];
    EntryIsUnique(after, at);
    var k := FindPosition(entries, m);
    if m != p.marketId && k >= 0 {
      EntryIsUnique(after, k);
    }
  }

  lemma PositionsWorkMarketByMarket(entries: seq<Position>, e: UserEvent, m: Uuid)
    requires UniqueEntries(entries) && NamesItsMarket(e)
    ensures UniqueEntries(ReducePositions(entries, e))
    ensures Entry(ReducePositions(entries, e), m) == ReduceEntry(Entry(entries, m), e, m)
  {
    match e
    case PositionNow(n, None) => WithoutMarketKeepsOthers(entries, n, m);
    case PositionNow(n, Some(p)) => PositionUpsert(entries, p, m);
    case _ =>
  }

  lemma {:induction false} PositionTableWorksMarketByMarket(entries: seq<Position>, es: seq<UserEvent>, m: Uuid)
    requires UniqueEntries(entries) && forall e :: e in es ==> NamesItsMarket(e)
    ensures UniqueEntries(ReduceAllPositions(entries, es))
    ensures Entry(ReduceAllPositions(entries, es), m) == EntryAfter(Entry(entries, m), es, m)
  {
    if es != [] {
      PositionTableWorksMarketByMarket(entries, es[..|es| - 1], m);
      PositionsWorkMarketByMarket(ReduceAllPositions(entries, es[..|es| - 1]), es[|es| - 1], m);
    }
  }

  ghost predicate ToldIn(es: seq<UserEvent>, i: nat, k: nat, m: Uuid) {
    exists j :: i <= j < k <= |es| && es[j].PositionNow? && es[j].marketId == m
  }

  lemma EntryStep(held: Option<Position>, es: seq<UserEvent>, m: Uuid, i: nat, k: nat)
    requires i <= k < |es|
    ensures EntryAfter(held, es[i..k + 1], m) == ReduceEntry(EntryAfter(held, es[i..k], m), es[k], m)
  {
    SliceStep(es, i, k);
  }

  /** Position events are absolute: the last one replayed is all that counts, whatever was held. */
  lemma {:induction false} LastPositionWins(held: Option<Position>, es: seq<UserEvent>, m: Uuid, i: nat, k: nat)
    requires i <= k <= |es|
    ensures EntryAfter(held, es[i..k], m) == if ToldIn(es, i, k, m) then EntryAfter(None, es[..k], m) else held
    decreases k
  {
    if i == k {
      assert es[i..k] == [];
    } else {
      LastPositionWins(held, es, m, i, k - 1);
      EntryStep(held, es, m, i, k - 1);
      EntryStep(None, es, m, 0, k - 1);
      assert es[0..k] == es[..k] && es[0..k - 1] == es[..k - 1];
      var e := es[k - 1];
      if e.PositionNow? && e.marketId == m {
        assert ToldIn(es, i, k, m);
      }
    }
  }

  lemma {:induction false} QuietMarketStays(es: seq<UserEvent>, m: Uuid, i: nat, k: nat)
    requires i <= k <= |es| && !ToldIn(es, i, k, m)
    ensures EntryAfter(None, es[..i], m) == EntryAfter(None, es[..k], m)
    decreases k
  {
    if i < k {
      assert !ToldIn(es, i, k - 1, m);
      QuietMarketStays(es, m, i, k - 1);
      EntryStep(None, es, m, 0, k - 1);
      assert es[0..k] == es[..k] && es[0..k - 1] == es[..k - 1];
    }
  }

  // ----- snapshot, then drain

  /** The rows are what the log up to `s` says. */
  ghost predicate RowsAsOf(rows: seq<UserOrder>, es: seq<UserEvent>, s: nat)
    requires s <= |es|
  {
    UniqueRows(rows) && forall id :: Row(rows, id) == RowAfter(None, es[..s], id)
  }

  ghost predicate EntriesAsOf(entries: seq<Position>, es: seq<UserEvent>, s: nat)
    requires s <= |es|
  {
    UniqueEntries(entries) && forall m :: Entry(entries, m) == EntryAfter(None, es[..s], m)
  }

  /** Both tables hold what the whole log up to `s` says. */
  ghost predicate TablesAsOf(rows: seq<UserOrder>, entries: seq<Position>, es: seq<UserEvent>, s: nat)
    requires s <= |es|
  {
    RowsAsOf(rows, es, s) && EntriesAsOf(entries, es, s)
  }

  /** What the engine guarantees of one account's log. */
  ghost predicate EngineLog(es: seq<UserEvent>) {
    (forall id :: WellTold(es, id)) && (forall e :: e in es ==> NamesItsMarket(e))
  }

  /** A row as of `s` over which a replay that starts no later and ends no earlier ran is as of its end. */
  lemma ReplayedRowConverges(es: seq<UserEvent>, id: Uuid, i: nat, s: nat, j: nat)
    requires WellTold(es, id) && i <= s <= j <= |es|
    ensures RowAfter(RowAfter(None, es[..s], id), es[i..j], id) == RowAfter(None, es[..j], id)
  {
    hide WellTold, RowAfter, IntroducedIn;
    ReplayCatchesUp(es, id, i, s, s);
    var snapshot := RowAfter(None, es[..s], id);
    assert es[i..j] == es[i..s] + es[s..j] && es[..j] == es[..s] + es[s..j];
    RowAfterConcat(snapshot, es[i..s], es[s..j], id);
    RowAfterConcat(None, es[..s], es[s..j], id);
  }

  /** The event sets a row held as `held` right: it introduces the order or fills it no less far. */
  predicate Renews(e: UserEvent, id: Uuid, held: Option<UserOrder>) {
    match e
    case OrderNew(o, _) => o.id == id
    case OrderUpdated(oid, _, _, filledQty) => oid == id && held.Some? && filledQty >= held.value.filledQty
    case _ => false
  }

  ghost predicate RenewedIn(es: seq<UserEvent>, i: nat, k: nat, id: Uuid, held: Option<UserOrder>) {
    exists j :: i <= j < k <= |es| && Renews(es[j], id, held)
  }

  ghost predicate FinishedIn(es: seq<UserEvent>, i: nat, k: nat, id: Uuid) {
    exists j :: i <= j < k <= |es| && es[j].OrderUpdated? && es[j].orderId == id && !IsResting(es[j].status)
  }

  /** What an event that renews an old row makes of it is what it makes of the row as it stood. */
  lemma RenewalCatchesUp(es: seq<UserEvent>, id: Uuid, s: nat, k: nat)
    requires WellTold(es, id) && s <= k < |es| && Renews(es[k], id, RowAfter(None, es[..s], id))
    ensures ReduceRow(RowAfter(None, es[..s], id), es[k], id) == RowAfter(None, es[..k + 1], id)
  {
    var stale := RowAfter(None, es[..s], id);
    RowStep(None, es, id, k);
    WellToldStep(es, id, k);
    if es[k].OrderNew? {
      RestsOnlyAfterIntroduction(es[..k], id);
      if Introduced(es[..s], id) {
        IntroducedGrows(es, id, s, k);
      } else {
        RestsOnlyAfterIntroduction(es[..s], id);
      }
    } else {
      if !Introduced(es[..s], id) {
        RestsOnlyAfterIntroduction(es[..s], id);
      }
      WellToldPrefix(es, id, s);
      RowsAreConsistent(es[..s], id);
      if RowAfter(None, es[..k], id).Some? {
        RowsOnlyFill(es, id, s, k);
        WellToldPrefix(es, id, k);
        RowsAreConsistent(es[..k], id);
      }
    }
  }

  /** Replaying newer events over an older row: it stays as it was until an event renews it. */
  lemma {:induction false} ReplayOverAnOldRow(es: seq<UserEvent>, id: Uuid, s: nat, i: nat, k: nat)
    requires WellTold(es, id) && s <= i <= k <= |es|
    ensures var stale := RowAfter(None, es[..s], id);
      RowAfter(stale, es[i..k], id) == if RenewedIn(es, i, k, id, stale) then RowAfter(None, es[..k], id) else stale
    decreases k
  {
    var stale := RowAfter(None, es[..s], id);
    if i == k {
      assert es[i..k] == [];
    } else {
      ReplayOverAnOldRow(es, id, s, i, k - 1);
      ReplayStep(stale, es, id, i, k - 1);
      RowStep(None, es, id, k - 1);
      if Renews(es[k - 1], id, stale) {
        assert RenewedIn(es, i, k, id, stale);
        if !RenewedIn(es, i, k - 1, id, stale) {
          RenewalCatchesUp(es, id, s, k - 1);
        }
      }
    }
  }

  /**
   * The row of `id` once the events `i..k` are replayed over the snapshot as of `s`, wherever the
   * snapshot lies: after the replay's end, within it, or before its start.
   */
  ghost function RowShown(es: seq<UserEvent>, id: Uuid, s: nat, i: nat, k: nat): Option<UserOrder>
    requires s <= |es| && i <= k <= |es|
  {
    var snapshot, end := RowAfter(None, es[..s], id), RowAfter(None, es[..k], id);
    if k <= s then (if IntroducedIn(es, i, k, id) then end else snapshot)
    else if i <= s then end
    else if RenewedIn(es, i, k, id, snapshot) then end else snapshot
  }

  /** The same for a market: the last position replayed, or the snapshot's. */
  ghost function EntryShown(es: seq<UserEvent>, m: Uuid, p: nat, i: nat, k: nat): Option<Position>
    requires p <= |es| && i <= k <= |es|
  {
    if ToldIn(es, i, k, m) then EntryAfter(None, es[..k], m) else EntryAfter(None, es[..p], m)
  }

  lemma RowAfterReplay(es: seq<UserEvent>, id: Uuid, s: nat, i: nat, k: nat)
    requires WellTold(es, id) && s <= |es| && i <= k <= |es|
    ensures RowAfter(RowAfter(None, es[..s], id), es[i..k], id) == RowShown(es, id, s, i, k)
  {
    if k <= s {
      ReplayCatchesUp(es, id, i, k, s);
    } else if i <= s {
      ReplayedRowConverges(es, id, i, s, k);
    } else {
      ReplayOverAnOldRow(es, id, s, i, k);
    }
  }

  /**
   * Exactly what the two tables show after a drain, for any two snapshots, each as of its own point of
   * the log, and any stretch of events kept.
   */
  lemma DrainedTablesShow(es: seq<UserEvent>, rows: seq<UserOrder>, entries: seq<Position>, s: nat, p: nat, i: nat, k: nat)
    requires EngineLog(es) && s <= |es| && p <= |es| && i <= k <= |es| && RowsAsOf(rows, es, s) && EntriesAsOf(entries, es, p)
    ensures UniqueRows(ReduceAll(rows, es[i..k]))
    ensures UniqueEntries(ReduceAllPositions(entries, es[i..k]))
    ensures forall id :: Row(ReduceAll(rows, es[i..k]), id) == RowShown(es, id, s, i, k)
    ensures forall m :: Entry(ReduceAllPositions(entries, es[i..k]), m) == EntryShown(es, m, p, i, k)
  {
    hide RowShown, WellTold, UniqueRows, UniqueEntries, NamesItsMarket;
    assert forall e :: e in es[i..k] ==> e in es;
    TableWorksRowByRow(rows, es[i..k], 0);
    PositionTableWorksMarketByMarket(entries, es[i..k], 0);
    forall id ensures Row(ReduceAll(rows, es[i..k]), id) == RowShown(es, id, s, i, k) {
      TableWorksRowByRow(rows, es[i..k], id);
      RowAfterReplay(es, id, s, i, k);
    }
    forall m ensures Entry(ReduceAllPositions(entries, es[i..k]), m) == EntryShown(es, m, p, i, k) {
      PositionTableWorksMarketByMarket(entries, es[i..k], m);
      LastPositionWins(EntryAfter(None, es[..p], m), es, m, i, k);
    }
  }

  /**
   * Snapshot-then-drain converges: replaying events `i..j` over tables as of `s` and `p` gives both
   * tables as of `j`, whenever the replay starts no later than either snapshot and ends no earlier.
   */
  lemma SnapshotThenDrainConverges(es: seq<UserEvent>, rows: seq<UserOrder>, entries: seq<Position>, i: nat, s: nat, p: nat, j: nat)
    requires EngineLog(es) && i <= s <= j <= |es| && i <= p <= j && RowsAsOf(rows, es, s) && EntriesAsOf(entries, es, p)
    ensures TablesAsOf(ReduceAll(rows, es[i..j]), ReduceAllPositions(entries, es[i..j]), es, j)
  {
    DrainedTablesShow(es, rows, entries, s, p, i, j);
    forall m ensures EntryShown(es, m, p, i, j) == EntryAfter(None, es[..j], m) {
      if !ToldIn(es, i, j, m) {
        assert !ToldIn(es, p, j, m);
        QuietMarketStays(es, m, p, j);
      }
    }
  }

  // ----- when events were lost

  /**
   * What losing the newest events costs. The kept events end at `k`, before the snapshot: the drained
   * rows are the snapshot's if and only if every order the kept events introduce stands at `k` as it
   * does in the snapshot; that is, nothing that was lost moved an order they bring back.
   */
  lemma OverflowIsHarmlessIff(es: seq<UserEvent>, rows: seq<UserOrder>, entries: seq<Position>, i: nat, k: nat, s: nat, p: nat)
    requires EngineLog(es) && i <= k <= s <= |es| && k <= p <= |es| && RowsAsOf(rows, es, s) && EntriesAsOf(entries, es, p)
    ensures RowsAsOf(ReduceAll(rows, es[i..k]), es, s)
      <==> forall id :: IntroducedIn(es, i, k, id) ==> RowAfter(None, es[..k], id) == RowAfter(None, es[..s], id)
    ensures EntriesAsOf(ReduceAllPositions(entries, es[i..k]), es, p)
      <==> forall m :: ToldIn(es, i, k, m) ==> EntryAfter(None, es[..k], m) == EntryAfter(None, es[..p], m)
  {
    hide UniqueRows, UniqueEntries, WellTold;
    DrainedTablesShow(es, rows, entries, s, p, i, k);
  }

  // ----- when the snapshot lags behind the socket

  /** An old row the replay never renews is wrong at the end exactly when it was wrong at the start. */
  lemma {:induction false} UnrenewedRowStays(es: seq<UserEvent>, id: Uuid, s: nat, i: nat, k: nat)
    requires WellTold(es, id) && s <= i <= k <= |es| && !RenewedIn(es, i, k, id, RowAfter(None, es[..s], id))
    ensures RowAfter(None, es[..s], id).Some? || RowAfter(None, es[..i], id) == None ==>
      RowAfter(None, es[..k], id) == RowAfter(None, es[..i], id)
    ensures RowAfter(None, es[..i], id).Some? && RowAfter(None, es[..s], id) == None ==>
      (RowAfter(None, es[..k], id) == None <==> FinishedIn(es, i, k, id))
    decreases k
  {
    hide WellTold, Introduced;
    var stale, start := RowAfter(None, es[..s], id), RowAfter(None, es[..i], id);
    if i < k {
      assert !RenewedIn(es, i, k - 1, id, stale);
      UnrenewedRowStays(es, id, s, i, k - 1);
      RowStep(None, es, id, k - 1);
      WellToldStep(es, id, k - 1);
      assert !Renews(es[k - 1], id, stale);
      var e, now := es[k - 1], RowAfter(None, es[..k - 1], id);
      WellToldPrefix(es, id, k - 1);
      RowsAreConsistent(es[..k - 1], id);
      if e.OrderUpdated? && e.orderId == id && stale.Some? && now.Some? {
        if !Introduced(es[..s], id) {
          RestsOnlyAfterIntroduction(es[..s], id);
        }
        RowsOnlyFill(es, id, s, k - 1);
      }
      if e.OrderUpdated? && e.orderId == id && !IsResting(e.status) {
        assert FinishedIn(es, i, k, id);
      }
    }
  }

  /**
   * The gap between an old snapshot and the first event of the replay does no harm to a row: it left
   * the row as it was, or the replay renews it, or the order came and the replay sees it go.
   */
  ghost predicate GapIsHarmless(es: seq<UserEvent>, id: Uuid, s: nat, i: nat, j: nat)
    requires s <= i <= j <= |es|
  {
    var stale := RowAfter(None, es[..s], id);
    || RowAfter(None, es[..i], id) == stale
    || RenewedIn(es, i, j, id, stale)
    || (stale == None && FinishedIn(es, i, j, id))
  }

  lemma LaggingRowIff(es: seq<UserEvent>, id: Uuid, s: nat, i: nat, j: nat)
    requires WellTold(es, id) && s <= i <= j <= |es|
    ensures RowShown(es, id, s, i, j) == RowAfter(None, es[..j], id) <==> GapIsHarmless(es, id, s, i, j)
  {
    RowAfterReplay(es, id, s, i, j);
    ReplayOverAnOldRow(es, id, s, i, j);
    if !RenewedIn(es, i, j, id, RowAfter(None, es[..s], id)) {
      UnrenewedRowStays(es, id, s, i, j);
    }
  }

  /**
   * What a snapshot older than the replay costs: the drained tables are those as of `j` if and only if
   * the gap is harmless to every row, and every market a position changed in is told of again.
   */
  lemma LagIsHarmlessIff(es: seq<UserEvent>, rows: seq<UserOrder>, entries: seq<Position>, s: nat, p: nat, i: nat, j: nat)
    requires EngineLog(es) && s <= i <= j <= |es| && p <= i && RowsAsOf(rows, es, s) && EntriesAsOf(entries, es, p)
    ensures RowsAsOf(ReduceAll(rows, es[i..j]), es, j) <==> forall id :: GapIsHarmless(es, id, s, i, j)
    ensures EntriesAsOf(ReduceAllPositions(entries, es[i..j]), es, j)
      <==> forall m :: EntryAfter(None, es[..p], m) == EntryAfter(None, es[..i], m) || ToldIn(es, i, j, m)
  {
    hide UniqueRows, UniqueEntries, WellTold, GapIsHarmless, RowShown;
    DrainedTablesShow(es, rows, entries, s, p, i, j);
    forall id ensures RowShown(es, id, s, i, j) == RowAfter(None, es[..j], id) <==> GapIsHarmless(es, id, s, i, j) {
      LaggingRowIff(es, id, s, i, j);
    }
    forall m ensures EntryShown(es, m, p, i, j) == EntryAfter(None, es[..j], m)
      <==> EntryAfter(None, es[..p], m) == EntryAfter(None, es[..i], m) || ToldIn(es, i, j, m) {
      if !ToldIn(es, i, j, m) {
        QuietMarketStays(es, m, i, j);
      }
    }
  }

  /** A gap that says nothing of orders is harmless to every row. */
  lemma QuietGapIsHarmless(es: seq<UserEvent>, id: Uuid, s: nat, i: nat, j: nat)
    requires s <= i <= j <= |es| && forall k :: s <= k < i ==> !es[k].OrderNew? && !es[k].OrderUpdated?
    ensures GapIsHarmless(es, id, s, i, j)
  {
    QuietRowStays(es, id, s, i);
  }

  lemma {:induction false} QuietRowStays(es: seq<UserEvent>, id: Uuid, s: nat, i: nat)
    requires s <= i <= |es| && forall k :: s <= k < i ==> !es[k].OrderNew? && !es[k].OrderUpdated?
    ensures RowAfter(None, es[..i], id) == RowAfter(None, es[..s], id)
    decreases i
  {
    if s < i {
      QuietRowStays(es, id, s, i - 1);
      RowStep(None, es, id, i - 1);
    }
  }
}
