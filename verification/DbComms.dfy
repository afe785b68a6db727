/** Delivered at least once, applied once. */
module DbComms {
  import opened Exchange
  import opened WriterTables
  import opened DbWriterClass

  /** What an entry holds: text that is no JSON, JSON or fields of the wrong shape, or an engine reply. */
  datatype Content = NotJson | WrongShape | Reply(reply: Payload)

  datatype Message = Message(id: Uuid, content: Content)

  /** Entries never acknowledged are claimed again on start; new ones are read as they come. */
  datatype Path = ClaimedAgain | JustRead

  /** One step of the system: what was attempted, how it went, and whether the acknowledgement landed. */
  datatype Action =
    | Skipped(message: Message, acked: bool)
    | Choked(message: Message)
    | Handled(path: Path, message: Message, result: Result, acked: bool)
    | PlacedByBackend(row: OrderRow)

  datatype Sys = Sys(tables: Tables, acked: set<Message>)

  /** Whether a handled delivery is acknowledged: a duplicate only on the pending path. */
  predicate Acknowledges(path: Path, r: Result) {
    r == Returned || (r == Duplicate && path == ClaimedAgain)
  }

  predicate Enabled(s: Sys, a: Action) {
    match a
    case Skipped(m, _) => m.content == WrongShape
    case Choked(m) => m.content == NotJson
    case Handled(path, m, r, acked) =>
      && m.content.Reply?
      && (r == Returned && HasRows(m.content.reply) ==> Effect(s.tables, m.content.reply).Some?)
      && (r == Duplicate ==> HasRows(m.content.reply) && Effect(s.tables, m.content.reply) == None)
      && (acked ==> Acknowledges(path, r))
    case PlacedByBackend(row) => row.order.id !in s.tables.orders
  }

  /** The reply an action committed, if it committed one. */
  function CommittedBy(a: Action): Option<Payload> {
    if a.Handled? && a.result == Returned && a.message.content.Reply? && HasRows(a.message.content.reply)
    then Some(a.message.content.reply) else None
  }

  function Next(s: Sys, a: Action): Sys
    requires Enabled(s, a)
  {
    match a
    case Skipped(m, acked) => if acked then s.(acked := s.acked + {m}) else s
    case Choked(_) => s
    case Handled(_, m, _, acked) =>
      var t := if CommittedBy(a).Some? then Effect(s.tables, CommittedBy(a).value).value else s.tables;
      Sys(t, if acked then s.acked + {m} else s.acked)
    case PlacedByBackend(row) => s.(tables := s.tables.(orders := s.tables.orders[row.order.id := row]))
  }

  ghost predicate Possible(s: Sys, run: seq<Action>)
    decreases |run|, 0
  {
    run == [] ||
    (var before := run[..|run| - 1]; Possible(s, before) && Enabled(After(s, before), run[|run| - 1]))
  }

  ghost function After(s: Sys, run: seq<Action>): Sys
    requires Possible(s, run)
    decreases |run|, 1
  {
    if run == [] then s else Next(After(s, run[..|run| - 1]), run[|run| - 1])
  }

  /** The replies a run committed, in commit order. */
  function Committed(run: seq<Action>): seq<Payload> {
    if run == [] then []
    else
      var before := Committed(run[..|run| - 1]);
      var c := CommittedBy(run[|run| - 1]);
      if c.Some? then before + [c.value] else before
  }

  // ----- exactly once

  ghost predicate Start(s: Sys) {
    s.tables.processed == {} && s.acked == {}
  }

  ghost predicate DistinctKeys(ps: seq<Payload>) {
    forall i, j :: 0 <= i < j < |ps| ==> ps[i].correlationId != ps[j].correlationId
  }

  /** The database is what the committed replies say: each once, each whole, and no key without its rows. */
  ghost predicate AppliedOnce(t: Tables, ps: seq<Payload>) {
    && DistinctKeys(ps)
    && (forall key :: key in t.processed <==> exists p :: p in ps && p.correlationId == key)
    && (forall p :: p in ps ==> HasRows(p) && Holds(t, p))
  }

  lemma KeptWhileGrowing(t: Tables, after: Tables, ps: seq<Payload>)
    requires AppliedOnce(t, ps) && Grows(t, after) && after.processed == t.processed
    ensures AppliedOnce(after, ps)
  {
    forall p | p in ps ensures HasRows(p) && Holds(after, p) {
      HoldsOn(t, after, p);
    }
  }

  lemma OneMoreApplied(t: Tables, ps: seq<Payload>, p: Payload)
    requires AppliedOnce(t, ps) && HasRows(p) && Effect(t, p).Some?
    ensures AppliedOnce(Effect(t, p).value, ps + [p])
  {
    hide Holds, Grows, Effect, HasRows;
    var after, qs := Effect(t, p).value, ps + [p];
    EffectIsWhole(t, p);
    EffectFailsIff(t, p);
    forall q | q in qs ensures HasRows(q) && Holds(after, q) {
      if q in ps {
        HoldsOn(t, after, q);
      }
    }
    forall i, j | 0 <= i < j < |qs| ensures qs[i].correlationId != qs[j].correlationId {
      assert ps[i] in ps;
    }
    forall key ensures key in after.processed <==> exists q :: q in qs && q.correlationId == key {
      if q :| q in ps && q.correlationId == key {
        assert q in qs;
      }
      assert p in qs;
    }
  }

  lemma PlacingGrows(t: Tables, row: OrderRow)
    requires row.order.id !in t.orders
    ensures Grows(t, t.(orders := t.orders[row.order.id := row]))
  {
  }

  /**
   * Exactly-once effect under at-least-once delivery. Through any deliveries and redeliveries, on either
   * path, with database failures and with crashes before the acknowledgement lands, the committed replies
   * have distinct correlation ids, these are exactly the processed ones, and each reply's rows stand whole.
   */
  lemma {:induction false} ExactlyOnce(s: Sys, run: seq<Action>)
    requires Start(s) && Possible(s, run)
    ensures AppliedOnce(After(s, run).tables, Committed(run))
  {
    hide AppliedOnce, Grows, Effect, HasRows;
    if run == [] {
      assert AppliedOnce(s.tables, []) by { NothingApplied(s.tables); }
    } else {
      var before, a := run[..|run| - 1], run[|run| - 1];
      ExactlyOnce(s, before);
      var t := After(s, before).tables;
      if a.PlacedByBackend? {
        PlacingGrows(t, a.row);
        KeptWhileGrowing(t, After(s, run).tables, Committed(before));
      } else if CommittedBy(a).Some? {
        OneMoreApplied(t, Committed(before), CommittedBy(a).value);
      }
    }
  }

  lemma NothingApplied(t: Tables)
    requires t.processed == {}
    ensures AppliedOnce(t, [])
  {
  }

  // ----- the tables as a fold

  datatype Change = Placed(row: OrderRow) | Applied(reply: Payload)

  function Changes(run: seq<Action>): seq<Change> {
    if run == [] then []
    else
      var before, a := Changes(run[..|run| - 1]), run[|run| - 1];
      if a.PlacedByBackend? then before + [Placed(a.row)]
      else if CommittedBy(a).Some? then before + [Applied(CommittedBy(a).value)]
      else before
  }

  /** Each change on the tables the ones before it left; a reply that cannot be applied whole changes nothing. */
  function Replay(t: Tables, changes: seq<Change>): Tables {
    if changes == [] then t
    else
      var n := |changes| - 1;
      var before := Replay(t, changes[..n]);
      match changes[n]
      case Placed(row) => before.(orders := before.orders[row.order.id := row])
      case Applied(p) => if HasRows(p) && Effect(before, p).Some? then Effect(before, p).value else before
  }

  function RepliesIn(changes: seq<Change>): seq<Payload> {
    if changes == [] then []
    else
      var before := RepliesIn(changes[..|changes| - 1]);
      if changes[|changes| - 1].Applied? then before + [changes[|changes| - 1].reply] else before
  }

  /** The tables are the fold of what was placed and of the committed replies: deliveries without a commit leave no trace. */
  lemma {:induction false} TablesAreTheFold(s: Sys, run: seq<Action>)
    requires Possible(s, run)
    ensures After(s, run).tables == Replay(s.tables, Changes(run))
    ensures RepliesIn(Changes(run)) == Committed(run)
  {
    if run != [] {
      hide Effect, HasRows;
      TablesAreTheFold(s, run[..|run| - 1]);
    }
  }

  // ----- what an order row ends with

  /** All updates of a list of replies, in that order. */
  function UpdatesIn(ps: seq<Payload>): seq<OrderUpdate> {
    if ps == [] then []
    else UpdatesIn(ps[..|ps| - 1]) + if ps[|ps| - 1].writer.Some? then UpdatesOf(ps[|ps| - 1].writer.value) else []
  }

  /** An order row ends with the last update committed of it: last in the order of the commits. */
  lemma {:induction false} RowShowsTheLastCommitted(s: Sys, run: seq<Action>, id: Uuid)
    requires Possible(s, run) && id in s.tables.orders
    ensures var row := s.tables.orders[id];
      && id in After(s, run).tables.orders
      && After(s, run).tables.orders[id] == WithUpdate(row, LastUpdate(UpdatesIn(Committed(run)), id, row.order.userId))
  {
    hide Effect, HasRowsToWrite, UpdatesOf;
    if run != [] {
      var before, a := run[..|run| - 1], run[|run| - 1];
      RowShowsTheLastCommitted(s, before, id);
      if CommittedBy(a).Some? {
        var p := CommittedBy(a).value;
        EffectLeavesTheLast(After(s, before).tables, p, id);
        LastUpdateConcat(UpdatesIn(Committed(before)), UpdatesOf(p.writer.value), id, s.tables.orders[id].order.userId);
      }
    }
  }

  /** What a row shows of an order: its status and filled quantity. */
  function Column(row: OrderRow): (Status, real) {
    (row.status, row.filledQty)
  }

  /**
   * Against what the engine told: after the replies `told`, in the engine's order, an order row shows what
   * they say if and only if the last update committed of it says the same as the last one told. Commits
   * in the engine's order always do.
   */
  lemma RowIsAsToldIff(s: Sys, run: seq<Action>, told: seq<Payload>, id: Uuid)
    requires Possible(s, run) && id in s.tables.orders
    ensures var row := s.tables.orders[id];
      var said, done := LastUpdate(UpdatesIn(told), id, row.order.userId), LastUpdate(UpdatesIn(Committed(run)), id, row.order.userId);
      && id in After(s, run).tables.orders
      && (Column(After(s, run).tables.orders[id]) == Column(WithUpdate(row, said)) <==> Column(WithUpdate(row, done)) == Column(WithUpdate(row, said)))
      && (Committed(run) == told ==> After(s, run).tables.orders[id] == WithUpdate(row, said))
  {
    hide WithUpdate, UpdatesIn;
    RowShowsTheLastCommitted(s, run, id);
  }

  /** A reply with one update of an order. */
  function Told(key: Uuid, u: OrderUpdate): Payload {
    Payload(key, Some([OrderUpdates([u])]))
  }

  lemma ToldUpdates(key: Uuid, u: OrderUpdate, t: Tables)
    ensures HasRows(Told(key, u)) && UpdatesOf(Told(key, u).writer.value) == [u]
    ensures Effect(t, Told(key, u)).Some? <==> key !in t.processed
    ensures key !in t.processed ==> Effect(t, Told(key, u)).value.processed == t.processed + {key}
  {
    var w := [OrderUpdates([u])];
    assert w[1..] == [] && Size(w[0]) == 1;
    var none: seq<Entry> := [];
    assert InsertsOf(w) == InsertsOf(none) == [] && FillsOf(w) == FillsOf(none) == [];
    NothingIsFresh(t.orders.Keys);
    NothingIsFresh(t.fills.Keys);
    EffectFailsIff(t, Told(key, u));
    if key !in t.processed {
      EffectIsWhole(t, Told(key, u));
    }
  }

  /** The write of `early` fails, `late` is committed, and `early` is claimed and committed after it. */
  function RetriedLate(early: Payload, late: Payload): seq<Action> {
    [Handled(JustRead, Message(1, Reply(early)), Threw, false),
     Handled(JustRead, Message(2, Reply(late)), Returned, true),
     Handled(ClaimedAgain, Message(1, Reply(early)), Returned, true)]
  }

  /**
   * A reply that is retried late takes a finished order back. Both replies are acknowledged in the end, and
   * the row says partially filled for good.
   */
  lemma LateRetryReopensAnOrder(s: Sys, id: Uuid, filled: real)
    requires id in s.tables.orders && 1 !in s.tables.processed && 2 !in s.tables.processed
    ensures var user := s.tables.orders[id].order.userId;
      var early, late := Told(1, OrderUpdate(id, user, PartiallyFilled, filled)), Told(2, OrderUpdate(id, user, Filled, s.tables.orders[id].order.qty));
      var run := RetriedLate(early, late);
      && Possible(s, run)
      && Message(1, Reply(early)) in After(s, run).acked && Message(2, Reply(late)) in After(s, run).acked
      && id in After(s, run).tables.orders
      && Column(After(s, run).tables.orders[id]) == (PartiallyFilled, filled)
  {
    hide Effect, HasRows, UpdatesOf;
    var user := s.tables.orders[id].order.userId;
    var u, v := OrderUpdate(id, user, PartiallyFilled, filled), OrderUpdate(id, user, Filled, s.tables.orders[id].order.qty);
    var early, late := Told(1, u), Told(2, v);
    var run := RetriedLate(early, late);
    ToldUpdates(1, u, s.tables);
    ToldUpdates(2, v, s.tables);
    EffectLeavesTheLast(s.tables, late, id);
    var a, b, c := run[0], run[1], run[2];
    assert [] + [a] == [a] && [a] + [b] == [a, b] && [a, b] + [c] == run;
    OneMore(s, [], a);
    OneMore(s, [a], b);
    var two := After(s, [a, b]);
    assert two.tables == Effect(s.tables, late).value;
    ToldUpdates(1, u, two.tables);
    OneMore(s, [a, b], c);
    EffectLeavesTheLast(two.tables, early, id);
    assert [u][..0] == [];
  }

  lemma OneMore(s: Sys, run: seq<Action>, a: Action)
    requires Possible(s, run) && Enabled(After(s, run), a)
    ensures Possible(s, run + [a]) && After(s, run + [a]) == Next(After(s, run), a)
  {
    assert (run + [a])[..|run + [a]| - 1] == run;
  }

  // ----- acknowledged means applied

  function InsertedOrders(p: Payload): seq<Uuid> {
    if p.writer == None then [] else OrderIds(InsertsOf(p.writer.value))
  }

  function InsertedFills(p: Payload): seq<Uuid> {
    if p.writer == None then [] else FillIds(FillsOf(p.writer.value))
  }

  /** The run handles replies of the stream, and the backend places orders under ids of its own. */
  ghost predicate Draws(run: seq<Action>, replies: set<Payload>, placed: set<Uuid>) {
    forall a :: a in run ==>
      && (a.Handled? && a.message.content.Reply? ==> a.message.content.reply in replies)
      && (a.PlacedByBackend? ==> a.row.order.id in placed)
  }

  /** No two replies of the stream share a correlation id or a row id, and none reuses an id that exists without it. */
  ghost predicate UniqueRowIds(t: Tables, replies: set<Payload>, placed: set<Uuid>) {
    && (forall p :: p in replies ==>
          FreshIds(t.orders.Keys + placed, InsertedOrders(p)) && FreshIds(t.fills.Keys, InsertedFills(p)))
    && (forall p, q :: p in replies && q in replies && p != q ==>
          && p.correlationId != q.correlationId
          && (forall id :: id in InsertedOrders(p) ==> id !in InsertedOrders(q))
          && (forall id :: id in InsertedFills(p) ==> id !in InsertedFills(q)))
  }

  /** Every id in the tables was there at the start, was placed by the backend, or came with a committed reply. */
  ghost predicate KnownOrigins(start: Tables, t: Tables, done: seq<Payload>, replies: set<Payload>, placed: set<Uuid>) {
    && (forall p :: p in done ==> p in replies)
    && (forall id :: id in t.orders ==> id in start.orders.Keys + placed || exists p :: p in done && id in InsertedOrders(p))
    && (forall id :: id in t.fills ==> id in start.fills.Keys || exists p :: p in done && id in InsertedFills(p))
  }

  lemma CommitAddsItsOwn(t: Tables, p: Payload)
    requires HasRows(p) && Effect(t, p).Some?
    ensures var after := Effect(t, p).value;
      && (forall id :: id in after.orders ==> id in t.orders || id in InsertedOrders(p))
      && (forall id :: id in after.fills ==> id in t.fills || id in InsertedFills(p))
  {
    EffectIsWhole(t, p);
  }

  lemma CommitKeepsOrigins(start: Tables, t: Tables, done: seq<Payload>, replies: set<Payload>, placed: set<Uuid>, p: Payload)
    requires KnownOrigins(start, t, done, replies, placed) && p in replies && HasRows(p) && Effect(t, p).Some?
    ensures KnownOrigins(start, Effect(t, p).value, done + [p], replies, placed)
  {
    hide Effect, HasRows, InsertedOrders, InsertedFills;
    CommitAddsItsOwn(t, p);
    assert forall q :: q in done ==> q in done + [p];
    assert p in done + [p];
  }

  lemma {:induction false} OriginsAreKnown(s: Sys, run: seq<Action>, replies: set<Payload>, placed: set<Uuid>)
    requires Possible(s, run) && Draws(run, replies, placed)
    ensures KnownOrigins(s.tables, After(s, run).tables, Committed(run), replies, placed)
  {
    if run != [] {
      hide Effect, HasRows, KnownOrigins;
      var before, a := run[..|run| - 1], run[|run| - 1];
      OriginsAreKnown(s, before, replies, placed);
      var t := After(s, before).tables;
      if a.PlacedByBackend? {
        PlacingKeepsOrigins(s.tables, t, Committed(before), replies, placed, a.row);
      } else if CommittedBy(a).Some? {
        CommitKeepsOrigins(s.tables, t, Committed(before), replies, placed, CommittedBy(a).value);
      }
    } else {
      assert KnownOrigins(s.tables, s.tables, [], replies, placed);
    }
  }

  lemma PlacingKeepsOrigins(start: Tables, t: Tables, done: seq<Payload>, replies: set<Payload>, placed: set<Uuid>, row: OrderRow)
    requires KnownOrigins(start, t, done, replies, placed) && row.order.id in placed
    ensures KnownOrigins(start, t.(orders := t.orders[row.order.id := row]), done, replies, placed)
  {
  }

  /** With unique row ids, the one way to be refused as a duplicate is to have been applied already. */
  lemma DuplicateWasApplied(start: Tables, t: Tables, done: seq<Payload>, replies: set<Payload>, placed: set<Uuid>, p: Payload)
    requires UniqueRowIds(start, replies, placed) && KnownOrigins(start, t, done, replies, placed) && AppliedOnce(t, done)
    requires p in replies && HasRows(p) && Effect(t, p) == None
    ensures p in done
  {
    EffectFailsIff(t, p);
    if p.correlationId in t.processed {
      var q :| q in done && q.correlationId == p.correlationId;
    } else if p !in done {
      IdsAreFree(start, t, done, replies, placed, p);
    }
  }

  lemma IdsAreFree(start: Tables, t: Tables, done: seq<Payload>, replies: set<Payload>, placed: set<Uuid>, p: Payload)
    requires UniqueRowIds(start, replies, placed) && KnownOrigins(start, t, done, replies, placed)
    requires p in replies && p !in done && HasRows(p)
    ensures FreshIds(t.orders.Keys, OrderIds(InsertsOf(p.writer.value)))
    ensures FreshIds(t.fills.Keys, FillIds(FillsOf(p.writer.value)))
  {
    forall id | id in InsertedOrders(p) ensures id !in t.orders {
    }
    forall id | id in InsertedFills(p) ensures id !in t.fills {
    }
  }

  /**
   * Acknowledged means applied. With unique row ids, every parseable reply that was ever acknowledged
   * either has no rows or stands in the tables whole, however often and on whichever path it was handled.
   */
  lemma {:induction false} AcknowledgedMeansApplied(s: Sys, run: seq<Action>, replies: set<Payload>, placed: set<Uuid>, m: Message)
    requires Start(s) && Possible(s, run) && Draws(run, replies, placed) && UniqueRowIds(s.tables, replies, placed)
    requires m in After(s, run).acked && m.content.Reply? && HasRows(m.content.reply)
    ensures m.content.reply in Committed(run) && Holds(After(s, run).tables, m.content.reply)
  {
    hide Effect, HasRows, KnownOrigins, UniqueRowIds, Holds;
    var before, a := run[..|run| - 1], run[|run| - 1];
    var p := m.content.reply;
    ExactlyOnce(s, run);
    if m in After(s, before).acked {
      AcknowledgedMeansApplied(s, before, replies, placed, m);
    } else if a.result == Duplicate {
      OriginsAreKnown(s, before, replies, placed);
      ExactlyOnce(s, before);
      DuplicateWasApplied(s.tables, After(s, before).tables, Committed(before), replies, placed, p);
    }
  }

  /** A reply whose row ids are taken is lost: refused as a duplicate, and acknowledged when claimed again. */
  lemma CollisionLosesAReply(s: Sys, m: Message)
    requires m.content.Reply? && HasRows(m.content.reply) && m.content.reply.correlationId !in s.tables.processed
    ensures var lost := Handled(ClaimedAgain, m, Duplicate, true);
      Enabled(s, lost) <==>
        || !FreshIds(s.tables.orders.Keys, InsertedOrders(m.content.reply))
        || !FreshIds(s.tables.fills.Keys, InsertedFills(m.content.reply))
  {
    hide FreshIds, HasRowsToWrite;
    EffectFailsIff(s.tables, m.content.reply);
  }

  // ----- the two consumer loops

  /** Claiming went on at least to page `i`: it stops at the first empty page. */
  ghost predicate NoEmptyPage(pages: seq<seq<Message>>, i: nat) {
    forall k :: 0 <= k <= i && k < |pages| ==> pages[k] != []
  }

  class Consumer {
    const writer: DbWriter
    var acked: set<Message>

    ghost const start: Sys
    /** Everything that happened to the tables and the acknowledgements so far. */
    ghost var trace: seq<Action>

    ghost predicate Valid()
      reads this, writer
    {
      Possible(start, trace) && After(start, trace) == Sys(writer.tables, acked)
    }

    constructor (writer: DbWriter)
      ensures Valid() && this.writer == writer && trace == [] && start == Sys(writer.tables, {})
    {
      this.writer := writer;
      acked := {};
      start := Sys(writer.tables, {});
      trace := [];
    }

    ghost method Record(a: Action)
      requires Possible(start, trace) && Enabled(After(start, trace), a)
      modifies `trace
      ensures trace == old(trace) + [a] && Possible(start, trace)
      ensures After(start, trace) == Next(After(start, old(trace)), a)
    {
      trace := trace + [a];
      assert trace[..|trace| - 1] == old(trace);
    }

    /**
     * One entry, on either path. Text that is no JSON throws before anything is done, an entry of the
     * wrong shape is acknowledged and skipped. `died` is the process ending before the acknowledgement lands.
     */
    method HandleMessage(path: Path, m: Message, healthy: bool) returns (r: Result, died: bool)
      requires Valid()
      modifies this, writer
      ensures Valid() && |trace| == |old(trace)| + 1 && trace[..|old(trace)|] == old(trace)
      ensures m.content == NotJson ==> trace[|old(trace)|] == Choked(m) && r == Threw
      ensures m.content == WrongShape ==> trace[|old(trace)|] == Skipped(m, !died) && r == Returned
      ensures m.content.Reply? ==> trace[|old(trace)|] == Handled(path, m, r, Acknowledges(path, r) && !died)
      ensures healthy ==> (r == Threw <==> m.content == NotJson)
      ensures acked == if Acknowledges(path, r) && !died then old(acked) + {m} else old(acked)
    {
      died := *;
      match m.content
      case NotJson =>
        Record(Choked(m));
        return Threw, died;
      case WrongShape =>
        if !died {
          acked := acked + {m};
        }
        Record(Skipped(m, !died));
        return Returned, died;
      case Reply(reply) =>
        hide Effect, HasRows, Possible, After;
        r := writer.HandleResponse(reply, healthy);
        if Acknowledges(path, r) && !died {
          acked := acked + {m};
        }
        Record(Handled(path, m, r, Acknowledges(path, r) && !died));
    }

    /**
     * Claim page after page of entries nobody acknowledged; a duplicate is acknowledged and skipped. While
     * the database is healthy it throws exactly on an entry that is no JSON, which no later start gets past.
     */
    method HandlePendingEntries(pages: seq<seq<Message>>, healthy: bool) returns (threw: bool, died: bool)
      requires Valid()
      modifies this, writer
      ensures Valid() && |trace| >= |old(trace)| && trace[..|old(trace)|] == old(trace)
      ensures healthy && !died ==>
        (threw <==> exists i, j :: 0 <= i < |pages| && 0 <= j < |pages[i]| && NoEmptyPage(pages, i) && pages[i][j].content == NotJson)
      ensures !threw && !died ==>
        forall i, j :: 0 <= i < |pages| && 0 <= j < |pages[i]| && NoEmptyPage(pages, i) ==> pages[i][j] in acked
    {
      threw, died := false, false;
      var page := 0;
      while page < |pages|
        invariant page <= |pages| && !threw && !died
        invariant forall k :: 0 <= k < page ==> pages[k] != []
        invariant Valid() && |trace| >= |old(trace)| && trace[..|old(trace)|] == old(trace)
        invariant forall i, j :: 0 <= i < page && 0 <= j < |pages[i]| ==> pages[i][j] in acked
        invariant healthy ==> forall i, j :: 0 <= i < page && 0 <= j < |pages[i]| ==> pages[i][j].content != NotJson
      {
        var messages := pages[page];
        if |messages| == 0 {
          break;
        }
        for j := 0 to |messages|
          invariant !threw && !died
          invariant Valid() && |trace| >= |old(trace)| && trace[..|old(trace)|] == old(trace)
          invariant forall i, k :: 0 <= i < page && 0 <= k < |pages[i]| ==> pages[i][k] in acked
          invariant forall k :: 0 <= k < j ==> messages[k] in acked
          invariant healthy ==> forall k :: 0 <= k < j ==> messages[k].content != NotJson
        {
          hide Possible, After, Enabled, Next;
          var r;
          r, died := HandleMessage(ClaimedAgain, messages[j], healthy);
          if died || r == Threw {
            threw := r == Threw;
            assert NoEmptyPage(pages, page) && pages[page][j] == messages[j];
            return;
          }
        }
        page := page + 1;
      }
    }

    /**
     * One batch of new entries. It works through a prefix of the batch, entry by entry; an entry that throws
     * or is a duplicate ends it, and a duplicate stays unacknowledged.
     */
    method ReadOneBatch(messages: seq<Message>, healthy: bool) returns (threw: bool, died: bool, ghost added: seq<Action>)
      requires Valid()
      modifies this, writer
      ensures Valid() && trace == old(trace) + added
      ensures WorksThrough(added, messages)
      ensures |added| < |messages| ==> added != [] && (died || EndsBatch(added[|added| - 1]))
      ensures threw <==> added != [] && Throws(added[|added| - 1])
      ensures healthy && threw ==> messages[|added| - 1].content == NotJson
      ensures forall m :: m in acked ==> m in old(acked) || exists k :: 0 <= k < |added| && messages[k] == m && !EndsBatch(added[k])
    {
      threw, died, added := false, false, [];
      for j := 0 to |messages|
        invariant Valid() && trace == old(trace) + added && |added| == j && !threw && !died
        invariant WorksThrough(added, messages)
        invariant forall k :: 0 <= k < j ==> !EndsBatch(added[k])
        invariant forall m :: m in acked ==> m in old(acked) || exists k :: 0 <= k < j && messages[k] == m && !EndsBatch(added[k])
      {
        hide Possible, After, Enabled, Next;
        ghost var n, before := |trace|, added;
        var r;
        r, died := HandleMessage(JustRead, messages[j], healthy);
        added := added + [trace[n]];
        assert trace == old(trace) + added;
        assert forall k :: 0 <= k < j ==> added[k] == before[k];
        assert added[j] == trace[n] && Concerns(added[j], JustRead, messages[j]);
        if died || r != Returned {
          threw := r == Threw;
          return;
        }
      }
    }
  }

  /** The action is about that entry, met on that path. */
  predicate Concerns(a: Action, path: Path, m: Message) {
    match a
    case Skipped(x, _) => x == m
    case Choked(x) => x == m
    case Handled(p, x, _, _) => p == path && x == m
    case PlacedByBackend(_) => false
  }

  predicate Throws(a: Action) {
    a.Choked? || (a.Handled? && a.result == Threw)
  }

  predicate EndsBatch(a: Action) {
    Throws(a) || (a.Handled? && a.result == Duplicate)
  }

  /** The actions handle the first entries of the batch in order, and only the last of them may end it. */
  ghost predicate WorksThrough(added: seq<Action>, messages: seq<Message>) {
    && |added| <= |messages|
    && forall k :: 0 <= k < |added| ==> Concerns(added[k], JustRead, messages[k]) && (EndsBatch(added[k]) ==> k == |added| - 1)
  }
}
