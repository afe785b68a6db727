/** From the engine's books to the depth a page shows. */
module DepthFeed {
  import opened Exchange
  import opened Engine
  import opened EngineSteps
  import opened EngineDepth
  import Feed = MarketFeed

  // ----- one request

  /** The depth a reply publishes, if it publishes one. */
  function PublishedBy(reply: Reply<seq<Addressed>>): seq<Depth> {
    if reply.Replied? && reply.wsServer.Some? then [reply.wsServer.value.depth] else []
  }

  /** The levels rest as they did in every market but one. */
  ghost predicate OnlyMoved(s: Store, t: Store, m: Uuid) {
    && t.books.Keys == s.books.Keys && m in s.books
    && forall n :: n in s.books && n != m ==> t.books[n].bids == s.books[n].bids && t.books[n].asks == s.books[n].asks
  }

  lemma OnlyMovedTwice(s: Store, t: Store, v: Store, m: Uuid)
    requires OnlyMoved(s, t, m) && OnlyMoved(t, v, m)
    ensures OnlyMoved(s, v, m)
  {
  }

  lemma PlaceMovesItsMarket(s: Store, row: Order, now: int)
    requires WfStore(s) && row.qty > 0.0
    ensures var p := Place(s, row, now); p.Placed? ==> OnlyMoved(s, p.store, row.marketId) && p.store.lastUpdateId == s.lastUpdateId
  {
    hide Matched, BookAfter, UsersAfter, BookingsAfter, AveragePrice, StatusAfter;
    if Admit(s, row).Admitted? {
      AdmittedKeepsIdentity(s, row);
    }
  }

  lemma {:induction false} SweepMovesItsMarket(s: Store, m: Uuid, price: real, ids: seq<Uuid>, now: int, k: nat)
    requires WfStore(s) && k <= |s.userIds| <= |ids| && m in s.books
    ensures var sw := SweepTo(s, m, price, ids, now, k); OnlyMoved(s, sw.store, m) && sw.store.lastUpdateId == s.lastUpdateId
    decreases k
  {
    hide WfStore, Place, OnlyMoved;
    if k == 0 {
      assert OnlyMoved(s, s, m) by { NothingMoved(s, m); }
    } else {
      SweepMovesItsMarket(s, m, price, ids, now, k - 1);
      var sw := SweepTo(s, m, price, ids, now, k - 1);
      var row := ForcedClose(sw.store, s.userIds[k - 1], m, price, ids[k - 1]);
      if row.Some? {
        ForcedCloseIsLegal(sw.store, s.userIds[k - 1], m, price, ids[k - 1]);
        PlaceMovesItsMarket(sw.store, row.value, now);
        var p := Place(sw.store, row.value, now);
        if p.Placed? {
          OnlyMovedTwice(s, sw.store, p.store, m);
        }
      }
    }
  }

  lemma NothingMoved(s: Store, m: Uuid)
    requires m in s.books
    ensures OnlyMoved(s, s, m)
  {
  }

  /** A request publishes the depth of the one market it moved, under the next update id, or moves nothing. */
  ghost predicate Publishes(s: Store, t: Store, ds: seq<Depth>) {
    if ds == [] then t.lastUpdateId == s.lastUpdateId && t.books == s.books
    else
      && |ds| == 1 && t.lastUpdateId == s.lastUpdateId + 1
      && ds[0].market in t.books && ds[0] == DepthOf(t, ds[0].market) && OnlyMoved(s, t, ds[0].market)
  }

  lemma TickPublishes(s: Store, a: Asset, price: real, ids: seq<Uuid>, now: int)
    requires WfStore(s) && price != 0.0 && |s.userIds| <= |ids|
    ensures var out := SweptOutcome(s, a, price, ids, now); Publishes(s, out.store, PublishedBy(out.reply))
  {
    hide SweepTo, TopLevels, WfBook;
    var m := MarketOf(a);
    var t := WithIndexPrice(s, m, price);
    WithIndexPriceKeepsWf(s, m, price);
    SweepMovesItsMarket(t, m, price, ids, now, |s.userIds|);
  }

  lemma CreatePublishes(s: Store, row: Order, now: int)
    requires WfStore(s) && LegalRow(row)
    ensures WfStore(WithUser(s, row.userId))
    ensures var out := Created(WithUser(s, row.userId), row, now); Publishes(s, out.store, PublishedBy(out.reply))
  {
    hide Place, TopLevels, WfStore, PlacementEvents;
    WithUserKeepsWf(s, row.userId);
    PlaceMovesItsMarket(WithUser(s, row.userId), row, now);
    PlacedIsAdmitted(WithUser(s, row.userId), row, now);
  }

  lemma PlacedIsAdmitted(s: Store, row: Order, now: int)
    requires WfStore(s) && row.qty > 0.0
    ensures Place(s, row, now).Placed? ==> Admit(s, row).Admitted?
  {
  }

  lemma CancelPublishes(s: Store, row: Order)
    requires WfStore(s)
    ensures var out := CancelledOutcome(s, row); Publishes(s, out.store, PublishedBy(out.reply))
  {
    hide TopLevels, WithoutOrder, MatchEvents;
  }

  lemma StepPublishes(s: Store, req: Request)
    requires WfStore(s) && LegalRequest(s, req)
    ensures var out := Step(s, req); Publishes(s, out.store, PublishedBy(out.reply))
  {
    hide WfStore, Created, CancelledOutcome, SweptOutcome, TopLevels, InMarket, OnlyMoved;
    match req
    case CreateOrder(row, now) => CreatePublishes(s, row, now);
    case CancelOrder(row) => CancelPublishes(s, row);
    case SpotPriceUpdate(prices, ids, now) =>
      if TickedAsset(prices).Some? {
        TickPublishes(s, TickedAsset(prices).value, prices[TickedAsset(prices).value], ids, now);
      }
    case _ =>
  }

  // ----- a run

  /** Every depth a run publishes, in order. */
  ghost function Published(s: Store, reqs: seq<Request>): seq<Depth>
    requires WfStore(s) && LegalRun(s, reqs)
    decreases |reqs|
  {
    if reqs == [] then []
    else
      StepKeepsWf(s, reqs[0]);
      PublishedBy(Step(s, reqs[0]).reply) + Published(Step(s, reqs[0]).store, reqs[1..])
  }

  datatype Levels20 = Levels20(bids: seq<(real, real)>, asks: seq<(real, real)>)

  function LevelsOf(d: Depth): Levels20 {
    Levels20(d.bids, d.asks)
  }

  /** The levels last published for a market, or those at the start. */
  function LastLevels(ds: seq<Depth>, m: Uuid, base: Levels20): Levels20 {
    if ds == [] then base else LastLevels(ds[1..], m, if ds[0].market == m then LevelsOf(ds[0]) else base)
  }

  ghost predicate Ascending(ds: seq<Depth>, above: nat, upTo: nat) {
    && (forall i :: 0 <= i < |ds| ==> above < ds[i].lastUpdateId <= upTo)
    && (forall i, j :: 0 <= i < j < |ds| ==> ds[i].lastUpdateId < ds[j].lastUpdateId)
  }

  lemma AscendingCons(ds: seq<Depth>, more: seq<Depth>, low: nat, mid: nat, high: nat)
    requires low <= mid <= high && Ascending(ds, low, mid) && Ascending(more, mid, high)
    ensures Ascending(ds + more, low, high)
  {
  }

  lemma {:induction false} LastLevelsConcat(a: seq<Depth>, b: seq<Depth>, m: Uuid, base: Levels20)
    ensures LastLevels(a + b, m, base) == LastLevels(b, m, LastLevels(a, m, base))
  {
    if a == [] {
      assert a + b == b;
    } else {
      assert (a + b)[0] == a[0] && (a + b)[1..] == a[1..] + b;
      LastLevelsConcat(a[1..], b, m, if a[0].market == m then LevelsOf(a[0]) else base);
    }
  }

  lemma PublishesOne(s: Store, t: Store, ds: seq<Depth>, m: Uuid)
    requires Publishes(s, t, ds) && m in s.books
    ensures m in t.books && s.lastUpdateId <= t.lastUpdateId && Ascending(ds, s.lastUpdateId, t.lastUpdateId)
    ensures LevelsOf(DepthOf(t, m)) == LastLevels(ds, m, LevelsOf(DepthOf(s, m)))
    ensures t.lastUpdateId == s.lastUpdateId ==> DepthOf(t, m) == DepthOf(s, m)
  {
    hide TopLevels;
    if ds != [] {
      assert ds[1..] == [];
    }
  }

  /**
   * Update ids tell depths apart. Along any run they never go down and each published depth has a greater
   * one than every depth before it; as long as the id stands, so does every market's depth, and what a
   * market's levels are at the end is what was last published of it.
   */
  lemma {:induction false} IdsTellDepthsApart(s: Store, reqs: seq<Request>, m: Uuid)
    requires WfStore(s) && LegalRun(s, reqs) && m in s.books
    ensures var t, ds := Run(s, reqs), Published(s, reqs);
      && m in t.books
      && s.lastUpdateId <= t.lastUpdateId
      && (t.lastUpdateId == s.lastUpdateId ==> DepthOf(t, m) == DepthOf(s, m))
      && Ascending(ds, s.lastUpdateId, t.lastUpdateId)
      && LevelsOf(DepthOf(t, m)) == LastLevels(ds, m, LevelsOf(DepthOf(s, m)))
    decreases |reqs|
  {
    hide WfStore, Step, LegalRequest, Publishes, TopLevels, Ascending, LastLevels, DepthOf;
    if reqs == [] {
      NothingPublished(m, LevelsOf(DepthOf(s, m)), s.lastUpdateId);
    } else {
      StepKeepsWf(s, reqs[0]);
      StepPublishes(s, reqs[0]);
      var out := Step(s, reqs[0]);
      PublishesOne(s, out.store, PublishedBy(out.reply), m);
      IdsTellDepthsApart(out.store, reqs[1..], m);
      var more := Published(out.store, reqs[1..]);
      AscendingCons(PublishedBy(out.reply), more, s.lastUpdateId, out.store.lastUpdateId, Run(out.store, reqs[1..]).lastUpdateId);
      LastLevelsConcat(PublishedBy(out.reply), more, m, LevelsOf(DepthOf(s, m)));
    }
  }

  lemma NothingPublished(m: Uuid, base: Levels20, id: nat)
    ensures Ascending([], id, id) && LastLevels([], m, base) == base
  {
  }

  // ----- what a page shows

  /** How a depth is written on the wire: the id as it is, the levels as text. */
  datatype Wire = Wire(stamp: Depth -> int, text: seq<(real, real)> -> seq<(string, string)>)

  function OnWire(d: Depth, w: Wire): Feed.FeedDepth {
    Feed.FeedDepth(d.market, d.lastUpdateId, w.stamp(d), w.text(d.bids), w.text(d.asks))
  }

  /** The depth frames of one market's channel. */
  function FramesOf(ds: seq<Depth>, m: Uuid, w: Wire): seq<Feed.Frame> {
    if ds == [] then []
    else
      var rest := FramesOf(ds[1..], m, w);
      if ds[0].market == m then [Feed.DepthFrame(OnWire(ds[0], w))] + rest else rest
  }

  predicate ShowsLevels(st: Feed.FeedState, levels: Levels20, w: Wire) {
    st.depth.Some? && st.depth.value.bids == w.text(levels.bids) && st.depth.value.asks == w.text(levels.asks)
  }

  /** The page shows the best twenty levels of both sides of the book, or all there are. */
  ghost predicate ShowsTheBook(st: Feed.FeedState, b: Book, w: Wire) {
    && st.depth.Some?
    && (exists bids :: IsTop(LONG, b.bids, bids) && st.depth.value.bids == w.text(bids))
    && (exists asks :: IsTop(SHORT, b.asks, asks) && st.depth.value.asks == w.text(asks))
  }

  lemma {:induction false} DrainCons(st: Feed.FeedState, f: Feed.Frame, fs: seq<Feed.Frame>)
    ensures Feed.Drain(st, [f] + fs) == Feed.Drain(Feed.ApplyFrame(st, f), fs)
  {
    if fs == [] {
      assert [f] + fs == [f] && [f][..0] == [];
    } else {
      var n := |fs| - 1;
      assert ([f] + fs)[..|[f] + fs| - 1] == [f] + fs[..n];
      DrainCons(st, f, fs[..n]);
    }
  }

  lemma AscendingTail(ds: seq<Depth>, above: nat, upTo: nat)
    requires Ascending(ds, above, upTo) && ds != []
    ensures above < ds[0].lastUpdateId <= upTo && Ascending(ds[1..], ds[0].lastUpdateId, upTo)
  {
    assert forall i :: 0 <= i < |ds[1..]| ==> ds[1..][i] == ds[i + 1];
  }

  lemma {:induction false} InOrderShowsTheLast(st: Feed.FeedState, ds: seq<Depth>, m: Uuid, w: Wire, base: Levels20, above: nat, upTo: nat)
    requires Ascending(ds, above, upTo) && ShowsLevels(st, base, w) && st.depth.value.lastUpdateId <= above
    ensures ShowsLevels(Feed.Drain(st, FramesOf(ds, m, w)), LastLevels(ds, m, base), w)
    decreases |ds|
  {
    if ds != [] {
      AscendingTail(ds, above, upTo);
      var rest := FramesOf(ds[1..], m, w);
      if ds[0].market == m {
        var f := Feed.DepthFrame(OnWire(ds[0], w));
        DrainCons(st, f, rest);
        InOrderShowsTheLast(Feed.ApplyFrame(st, f), ds[1..], m, w, LevelsOf(ds[0]), ds[0].lastUpdateId, upTo);
      } else {
        InOrderShowsTheLast(st, ds[1..], m, w, base, ds[0].lastUpdateId, upTo);
      }
    }
  }

  /** Every frame of the channel carries one of the published ids, so no two carry the same. */
  lemma {:induction false} FramesAreDistinct(ds: seq<Depth>, m: Uuid, w: Wire, above: nat, upTo: nat)
    requires Ascending(ds, above, upTo)
    ensures Feed.DistinctIds(FramesOf(ds, m, w))
    ensures forall f :: f in FramesOf(ds, m, w) ==> f.DepthFrame? && above < f.depth.lastUpdateId
    decreases |ds|
  {
    if ds != [] {
      AscendingTail(ds, above, upTo);
      var fs, rest := FramesOf(ds, m, w), FramesOf(ds[1..], m, w);
      FramesAreDistinct(ds[1..], m, w, ds[0].lastUpdateId, upTo);
      if ds[0].market == m {
        assert fs == [Feed.DepthFrame(OnWire(ds[0], w))] + rest;
        forall i, j | 0 <= i < j < |fs| && fs[i].DepthFrame? && fs[j].DepthFrame?
          ensures fs[i].depth.lastUpdateId != fs[j].depth.lastUpdateId {
          assert fs[j] == rest[j - 1] && rest[j - 1] in rest;
          if i > 0 {
            assert fs[i] == rest[i - 1];
          }
        }
      }
    }
  }

  lemma {:induction false} FramesOfConcat(a: seq<Depth>, b: seq<Depth>, m: Uuid, w: Wire)
    ensures FramesOf(a + b, m, w) == FramesOf(a, m, w) + FramesOf(b, m, w)
  {
    if a == [] {
      assert a + b == b;
    } else {
      assert (a + b)[0] == a[0] && (a + b)[1..] == a[1..] + b;
      FramesOfConcat(a[1..], b, m, w);
    }
  }

  lemma {:induction false} FramesReach(ds: seq<Depth>, m: Uuid, w: Wire, above: nat, upTo: nat)
    requires Ascending(ds, above, upTo)
    ensures forall f :: f in FramesOf(ds, m, w) ==> f.DepthFrame? && f.depth.lastUpdateId <= upTo
    decreases |ds|
  {
    if ds != [] {
      AscendingTail(ds, above, upTo);
      FramesReach(ds[1..], m, w, ds[0].lastUpdateId, upTo);
    }
  }

  /** In published order: frames from before the snapshot change nothing, those after it show the last one. */
  lemma InOrderOverSnapshot(st: Feed.FeedState, before: seq<Depth>, after: seq<Depth>, m: Uuid, w: Wire, base: Levels20, low: nat, at: nat, high: nat)
    requires Ascending(before, low, at) && Ascending(after, at, high)
    requires ShowsLevels(st, base, w) && st.depth.value.lastUpdateId == at
    ensures ShowsLevels(Feed.Drain(st, FramesOf(before, m, w) + FramesOf(after, m, w)), LastLevels(after, m, base), w)
  {
    hide FramesOf, Feed.Drain, LastLevels, Ascending;
    FramesReach(before, m, w, low, at);
    assert [] + FramesOf(before, m, w) == FramesOf(before, m, w);
    Feed.OlderFramesChangeNothing(st, [], FramesOf(before, m, w), st.depth.value);
    NothingDrained(st);
    Feed.DrainConcat(st, FramesOf(before, m, w), FramesOf(after, m, w));
    InOrderShowsTheLast(Feed.Drain(st, FramesOf(before, m, w)), after, m, w, base, at, high);
  }

  lemma NothingDrained(st: Feed.FeedState)
    ensures Feed.Drain(st, []) == st
  {
  }

  /** Two runs of frames with the same depth frames have the same greatest id. */
  lemma SameMaxId(id: nat, fs: seq<Feed.Frame>, gs: seq<Feed.Frame>)
    requires forall d :: Feed.DepthFrame(d) in fs <==> Feed.DepthFrame(d) in gs
    ensures Feed.MaxId(id, fs) == Feed.MaxId(id, gs)
  {
    Feed.MaxIdIs(id, fs);
    Feed.MaxIdIs(id, gs);
    forall f: Feed.Frame | f.DepthFrame? ensures f in fs <==> f in gs {
      assert f == Feed.DepthFrame(f.depth);
    }
  }

  /** Every depth frame of the connection was published, and every one published arrived. */
  ghost predicate AllArrive(early: seq<Feed.Arrival>, late: seq<Feed.Arrival>, published: seq<Feed.Frame>) {
    forall d :: Feed.DepthFrame(d) in Feed.FramesOf(early + late) <==> Feed.DepthFrame(d) in published
  }

  lemma ArrivedDepth(mach: Feed.Machine, early: seq<Feed.Arrival>, snapshot: Feed.FeedDepth, late: seq<Feed.Arrival>, published: seq<Feed.Frame>)
    requires AllArrive(early, late, published) && Feed.NothingNewerDropped(early, snapshot, late) && Feed.DistinctIds(published)
    ensures Feed.Connection(mach, early, snapshot, late).state.depth
      == Feed.Drain(mach.state.(depth := Some(snapshot), source := Feed.Live), published).depth
  {
    hide Feed.Drain, Feed.Connection, Feed.Kept, Feed.MaxId, Feed.FramesOf, Feed.IsShown, Feed.DistinctIds, Feed.LostFrames, Feed.NothingNewerDropped;
    var base := mach.state.(depth := Some(snapshot), source := Feed.Live);
    var kept := Feed.Kept(early) + Feed.FramesOf(late);
    Feed.ConnectionDepth(mach, early, snapshot, late);
    Feed.FullIdIff(early, snapshot, late);
    Feed.FramesOfConcat(early, late);
    SameMaxId(snapshot.lastUpdateId, Feed.FramesOf(early + late), published);
    Feed.DrainShows(base, snapshot, kept);
    Feed.DrainShows(base, snapshot, published);
    Feed.ShownIdIsTheMaximum(base, kept, 0);
    Feed.ShownIdIsTheMaximum(base, published, 0);
    forall f | f in kept && f.DepthFrame? ensures f in published {
      assert f in Feed.FramesOf(early + late) && f == Feed.DepthFrame(f.depth);
    }
    Feed.SameIdSameDepth(snapshot, kept, published, Feed.Drain(base, kept).depth.value, Feed.Drain(base, published).depth.value);
  }

  /**
   * The page shows the book. The socket opens in one state of the engine, the snapshot is read in a later
   * one, and frames go on arriving until a third. Let every depth frame the market published since the
   * socket opened arrive, in any order, any number of times, before the snapshot or after it, among any
   * other frames; if the buffer dropped none newer than all it kept, the levels shown are those of the
   * market's book in the last state.
   */
  lemma ShownDepthIsTheBook(s: Store, before: seq<Request>, after: seq<Request>, m: Uuid, w: Wire,
                            mach: Feed.Machine, early: seq<Feed.Arrival>, late: seq<Feed.Arrival>)
    requires WfStore(s) && LegalRun(s, before) && LegalRun(Run(s, before), after) && m in s.books
    requires m in Run(s, before).books
    requires AllArrive(early, late, FramesOf(Published(s, before), m, w) + FramesOf(Published(Run(s, before), after), m, w))
    requires Feed.NothingNewerDropped(early, OnWire(DepthOf(Run(s, before), m), w), late)
    ensures m in Run(Run(s, before), after).books
    ensures var shown := Feed.Connection(mach, early, OnWire(DepthOf(Run(s, before), m), w), late).state;
      ShowsTheBook(shown, Run(Run(s, before), after).books[m], w)
  {
    hide IsTop, WfStore, LegalRun, Run, Published, FramesOf, Feed.Drain, Feed.Connection, Ascending, TopLevels, LastLevels, Feed.DistinctIds, AllArrive,
      Feed.NothingNewerDropped;
    var at, end := Run(s, before), Run(Run(s, before), after);
    var ds, es := Published(s, before), Published(at, after);
    IdsTellDepthsApart(s, before, m);
    IdsTellDepthsApart(at, after, m);
    AscendingCons(ds, es, s.lastUpdateId, at.lastUpdateId, end.lastUpdateId);
    FramesOfConcat(ds, es, m, w);
    FramesAreDistinct(ds + es, m, w, s.lastUpdateId, end.lastUpdateId);
    var snapshot := OnWire(DepthOf(at, m), w);
    ArrivedDepth(mach, early, snapshot, late, FramesOf(ds, m, w) + FramesOf(es, m, w));
    InOrderOverSnapshot(mach.state.(depth := Some(snapshot), source := Feed.Live), ds, es, m, w, LevelsOf(DepthOf(at, m)),
      s.lastUpdateId, at.lastUpdateId, end.lastUpdateId);
    DepthIsTheTopOfTheBook(end, m);
  }
}
