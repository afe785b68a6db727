/** The depth feed: buffer from socket open, snapshot, drain, live. */
module MarketFeed {
  import opened Exchange

  datatype FeedDepth = FeedDepth(market: Uuid, lastUpdateId: nat, timestamp: int, bids: seq<(string, string)>, asks: seq<(string, string)>)

  datatype FeedTrade = FeedTrade(id: string, price: string, qty: string, buy: bool, ts: int)

  datatype Source = Connecting | Live | Reconnecting | Disconnected

  datatype FeedState = FeedState(
    depth: Option<FeedDepth>,
    trades: seq<FeedTrade>,
    lastPrice: Option<real>,
    prevPrice: Option<real>,
    markPrice: Option<real>,
    source: Source,
    lastFrameAt: Option<int>)

  datatype Frame =
    | DepthFrame(depth: FeedDepth)
    | LastTradedPrice(price: real)
    | MarkPrice(price: real)
    | TradeFrame(trade: FeedTrade)

  datatype Machine = Machine(state: FeedState, buffer: seq<Frame>, buffering: bool)

  const MAX_TRADES: nat := 40
  const MAX_BUFFER: nat := 256

  function InitialMachine(): Machine {
    Machine(FeedState(None, [], None, None, None, Connecting, None), [], false)
  }

  function Newest(trades: seq<FeedTrade>): seq<FeedTrade> {
    if |trades| > MAX_TRADES then trades[..MAX_TRADES] else trades
  }

  function ApplyFrame(s: FeedState, f: Frame): FeedState {
    match f
    case DepthFrame(d) => if s.depth.Some? && d.lastUpdateId <= s.depth.value.lastUpdateId then s else s.(depth := Some(d))
    case LastTradedPrice(p) => s.(prevPrice := s.lastPrice, lastPrice := Some(p))
    case MarkPrice(p) => s.(markPrice := Some(p))
    case TradeFrame(t) => s.(trades := Newest([t] + s.trades))
  }

  function OnOpen(m: Machine): Machine {
    m.(buffer := [], buffering := true)
  }

  function OnFrame(m: Machine, f: Frame, now: int): Machine {
    var s := m.state.(lastFrameAt := Some(now));
    if m.buffering
    then m.(state := s, buffer := if |m.buffer| >= MAX_BUFFER then m.buffer else m.buffer + [f])
    else m.(state := ApplyFrame(s, f))
  }

  function Drain(s: FeedState, fs: seq<Frame>): FeedState {
    if fs == [] then s else ApplyFrame(Drain(s, fs[..|fs| - 1]), fs[|fs| - 1])
  }

  function OnSnapshot(m: Machine, d: FeedDepth): Machine {
    Machine(Drain(m.state.(depth := Some(d), source := Live), m.buffer), [], false)
  }

  function OnDisconnect(m: Machine, willRetry: bool): Machine {
    Machine(m.state.(source := if willRetry then Reconnecting else Disconnected), [], false)
  }

  function OnColdSnapshot(m: Machine, d: FeedDepth): Machine {
    if m.buffering || m.state.source == Live then m else m.(state := m.state.(depth := Some(d)))
  }

  // ----- a run of frames

  datatype Arrival = Arrival(frame: Frame, now: int)

  function OnFrames(m: Machine, fs: seq<Arrival>): Machine {
    if fs == [] then m
    else
      var n := |fs| - 1;
      OnFrame(OnFrames(m, fs[..n]), fs[n].frame, fs[n].now)
  }

  function FramesOf(fs: seq<Arrival>): (r: seq<Frame>)
    ensures |r| == |fs| && forall i :: 0 <= i < |fs| ==> r[i] == fs[i].frame
  {
    if fs == [] then [] else FramesOf(fs[..|fs| - 1]) + [fs[|fs| - 1].frame]
  }

  /** What the buffer keeps: the first 256 frames. */
  function Kept(fs: seq<Arrival>): seq<Frame> {
    if |fs| > MAX_BUFFER then FramesOf(fs)[..MAX_BUFFER] else FramesOf(fs)
  }

  function Heard(s: FeedState, fs: seq<Arrival>): FeedState {
    if fs == [] then s else s.(lastFrameAt := Some(fs[|fs| - 1].now))
  }

  lemma {:induction false} OnFramesConcat(m: Machine, a: seq<Arrival>, b: seq<Arrival>)
    ensures OnFrames(m, a + b) == OnFrames(OnFrames(m, a), b)
  {
    if b == [] {
      assert a + b == a;
    } else {
      assert (a + b)[..|a + b| - 1] == a + b[..|b| - 1];
      OnFramesConcat(m, a, b[..|b| - 1]);
    }
  }

  lemma {:induction false} BufferingOnlyCollects(m: Machine, fs: seq<Arrival>)
    requires m.buffering && m.buffer == []
    ensures OnFrames(m, fs) == Machine(Heard(m.state, fs), Kept(fs), true)
  {
    if fs != [] {
      var n := |fs| - 1;
      BufferingOnlyCollects(m, fs[..n]);
      assert n >= MAX_BUFFER ==> FramesOf(fs)[..MAX_BUFFER] == FramesOf(fs[..n])[..MAX_BUFFER];
    }
  }

  lemma ApplyKeepsLiveness(s: FeedState, at: Option<int>, f: Frame)
    ensures ApplyFrame(s.(lastFrameAt := at), f) == ApplyFrame(s, f).(lastFrameAt := at)
  {
  }

  /** Hearing frames and applying them do not interfere. */
  lemma {:induction false} DrainKeepsLiveness(s: FeedState, at: Option<int>, fs: seq<Frame>)
    ensures Drain(s.(lastFrameAt := at), fs) == Drain(s, fs).(lastFrameAt := at)
  {
    hide ApplyFrame;
    if fs != [] {
      DrainKeepsLiveness(s, at, fs[..|fs| - 1]);
      ApplyKeepsLiveness(Drain(s, fs[..|fs| - 1]), at, fs[|fs| - 1]);
    }
  }

  lemma LiveAppliesOne(m: Machine, s: FeedState, at: Option<int>, f: Frame, now: int)
    requires !m.buffering && m.state == s.(lastFrameAt := at)
    ensures OnFrame(m, f, now) == m.(state := ApplyFrame(s, f).(lastFrameAt := Some(now)))
  {
    hide ApplyFrame;
    ApplyKeepsLiveness(s, Some(now), f);
  }

  lemma DrainPush(s: FeedState, fs: seq<Arrival>)
    requires fs != []
    ensures Drain(s, FramesOf(fs)) == ApplyFrame(Drain(s, FramesOf(fs[..|fs| - 1])), fs[|fs| - 1].frame)
  {
    assert FramesOf(fs)[..|fs| - 1] == FramesOf(fs[..|fs| - 1]);
  }

  function HeardAt(s: FeedState, fs: seq<Arrival>): Option<int> {
    if fs == [] then s.lastFrameAt else Some(fs[|fs| - 1].now)
  }

  lemma {:induction false} LiveAppliesAll(m: Machine, fs: seq<Arrival>)
    requires !m.buffering
    ensures OnFrames(m, fs) == m.(state := Heard(Drain(m.state, FramesOf(fs)), fs))
  {
    if fs != [] {
      hide OnFrame, Drain, FramesOf, ApplyFrame;
      var n := |fs| - 1;
      LiveAppliesAll(m, fs[..n]);
      var s := Drain(m.state, FramesOf(fs[..n]));
      LiveAppliesOne(OnFrames(m, fs[..n]), s, HeardAt(s, fs[..n]), fs[n].frame, fs[n].now);
      DrainPush(m.state, fs);
    }
  }

  // ----- buffering is invisible

  /** One connection: the socket opens, frames arrive, the snapshot lands, more frames arrive. */
  function Connection(m: Machine, early: seq<Arrival>, snapshot: FeedDepth, late: seq<Arrival>): Machine {
    OnFrames(OnSnapshot(OnFrames(OnOpen(m), early), snapshot), late)
  }

  /** Exactly what a connection comes to, however many frames overtook the snapshot. */
  lemma SnapshotThenKeptFrames(m: Machine, early: seq<Arrival>, snapshot: FeedDepth)
    ensures OnSnapshot(OnFrames(OnOpen(m), early), snapshot)
      == Machine(Heard(Drain(m.state.(depth := Some(snapshot), source := Live), Kept(early)), early), [], false)
  {
    BufferingOnlyCollects(OnOpen(m), early);
    if early != [] {
      DrainKeepsLiveness(m.state.(depth := Some(snapshot), source := Live), Some(early[|early| - 1].now), Kept(early));
    }
  }

  /**
   * Buffering is invisible: as long as no more than 256 frames overtake the snapshot, the connection
   * ends in the very machine it would be in had the snapshot been applied the moment the socket opened
   * and every frame in arrival order after it.
   */
  lemma BufferingIsInvisible(m: Machine, early: seq<Arrival>, snapshot: FeedDepth, late: seq<Arrival>)
    requires |early| <= MAX_BUFFER
    ensures Connection(m, early, snapshot, late) == Connection(m, [], snapshot, early + late)
  {
    SnapshotThenKeptFrames(m, early, snapshot);
    SnapshotThenKeptFrames(m, [], snapshot);
    var live := OnSnapshot(OnOpen(m), snapshot);
    LiveAppliesAll(live, early);
    OnFramesConcat(live, early, late);
  }

  /** One frame more and something can be lost: here a mark price the screen never shows. */
  lemma OverflowIsVisible(m: Machine, snapshot: FeedDepth, now: int)
    requires m.state.markPrice != Some(2.0)
    ensures var early := seq(MAX_BUFFER, _ => Arrival(LastTradedPrice(1.0), now)) + [Arrival(MarkPrice(2.0), now)];
      && |early| == MAX_BUFFER + 1
      && Connection(m, early, snapshot, []).state.markPrice == m.state.markPrice
      && Connection(m, [], snapshot, early).state.markPrice == Some(2.0)
  {
    var fill := seq(MAX_BUFFER, _ => Arrival(LastTradedPrice(1.0), now));
    var early := fill + [Arrival(MarkPrice(2.0), now)];
    assert early[..MAX_BUFFER] == fill;
    SnapshotThenKeptFrames(m, early, snapshot);
    assert FramesOf(early)[..MAX_BUFFER] == FramesOf(fill);
    MarkPriceUntouched(m.state.(depth := Some(snapshot), source := Live), FramesOf(fill));
    LiveAppliesAll(OnSnapshot(OnOpen(m), snapshot), fill);
  }

  lemma {:induction false} MarkPriceUntouched(s: FeedState, fs: seq<Frame>)
    requires forall f :: f in fs ==> !f.MarkPrice?
    ensures Drain(s, fs).markPrice == s.markPrice
  {
    if fs != [] {
      MarkPriceUntouched(s, fs[..|fs| - 1]);
    }
  }

  // ----- the depth shown

  function Max(x: nat, y: nat): nat {
    if x < y then y else x
  }

  /** The greatest update id among the snapshot's and those of the depth frames. */
  function MaxId(id: nat, fs: seq<Frame>): nat {
    if fs == [] then id
    else
      var before := MaxId(id, fs[..|fs| - 1]);
      if fs[|fs| - 1].DepthFrame? then Max(before, fs[|fs| - 1].depth.lastUpdateId) else before
  }

  /** The id shown is the greatest one seen, so it never goes down while frames arrive. */
  lemma {:induction false} ShownIdIsTheMaximum(s: FeedState, fs: seq<Frame>, k: nat)
    requires s.depth.Some? && k <= |fs|
    ensures Drain(s, fs).depth.Some? && Drain(s, fs).depth.value.lastUpdateId == MaxId(s.depth.value.lastUpdateId, fs)
    ensures Drain(s, fs[..k]).depth.Some?
    ensures Drain(s, fs[..k]).depth.value.lastUpdateId <= Drain(s, fs).depth.value.lastUpdateId
  {
    if fs == [] {
      assert fs[..k] == fs;
    } else {
      var n := |fs| - 1;
      if k <= n {
        assert fs[..n][..k] == fs[..k];
        ShownIdIsTheMaximum(s, fs[..n], k);
      } else {
        assert fs[..k] == fs;
        ShownIdIsTheMaximum(s, fs[..n], n);
      }
    }
  }

  ghost predicate DistinctIds(fs: seq<Frame>) {
    forall i, j :: 0 <= i < j < |fs| && fs[i].DepthFrame? && fs[j].DepthFrame? ==>
      fs[i].depth.lastUpdateId != fs[j].depth.lastUpdateId
  }

  /** The depth shown: the newest of the frames newer than the base, or the base. */
  ghost predicate IsShown(base: FeedDepth, fs: seq<Frame>, d: FeedDepth) {
    && (d == base || (DepthFrame(d) in fs && d.lastUpdateId > base.lastUpdateId))
    && forall f :: f in fs && f.DepthFrame? ==> f.depth.lastUpdateId <= d.lastUpdateId || f.depth.lastUpdateId <= base.lastUpdateId
  }

  lemma {:induction false} DrainShows(s: FeedState, base: FeedDepth, fs: seq<Frame>)
    requires s.depth == Some(base)
    ensures Drain(s, fs).depth.Some? && IsShown(base, fs, Drain(s, fs).depth.value)
    ensures Drain(s, fs).depth.value.lastUpdateId >= base.lastUpdateId
  {
    if fs != [] {
      DrainShows(s, base, fs[..|fs| - 1]);
    }
  }

  lemma ShownIsUnique(base: FeedDepth, fs: seq<Frame>, gs: seq<Frame>, d: FeedDepth, e: FeedDepth)
    requires IsShown(base, fs, d) && IsShown(base, gs, e) && DistinctIds(fs)
    requires forall f :: f in fs <==> f in gs
    ensures d == e
  {
    if d != base && e != base {
      assert DepthFrame(e) in fs && DepthFrame(d) in gs;
      var i :| 0 <= i < |fs| && fs[i] == DepthFrame(d);
      var j :| 0 <= j < |fs| && fs[j] == DepthFrame(e);
      assert d.lastUpdateId == e.lastUpdateId;
      assert i == j;
    }
  }

  /** The depth shown does not depend on the order in which depth frames with distinct ids arrive. */
  lemma OrderDoesNotMatter(s: FeedState, fs: seq<Frame>, gs: seq<Frame>)
    requires s.depth.Some? && multiset(fs) == multiset(gs) && DistinctIds(fs)
    ensures Drain(s, fs).depth == Drain(s, gs).depth
  {
    var base := s.depth.value;
    DrainShows(s, base, fs);
    DrainShows(s, base, gs);
    forall f ensures f in fs <==> f in gs {
      assert f in multiset(fs) <==> f in multiset(gs);
    }
    ShownIsUnique(base, fs, gs, Drain(s, fs).depth.value, Drain(s, gs).depth.value);
  }

  // ----- what an overflow costs

  /** With more frames than the buffer holds there is always a run in which the overflow shows. */
  lemma TooManyFramesShow(m: Machine, snapshot: FeedDepth, n: nat)
    requires n > MAX_BUFFER
    ensures exists early: seq<Arrival> :: |early| == n && Connection(m, early, snapshot, []) != Connection(m, [], snapshot, early + [])
  {
    hide OnFrames, Drain, FramesOf;
    var price := if m.state.markPrice == Some(2.0) then 3.0 else 2.0;
    var fill, rest := seq(MAX_BUFFER, _ => Arrival(LastTradedPrice(1.0), 0)), seq(n - MAX_BUFFER, _ => Arrival(MarkPrice(price), 0));
    var early := fill + rest;
    var base := m.state.(depth := Some(snapshot), source := Live);
    SnapshotThenKeptFrames(m, early, snapshot);
    SnapshotThenKeptFrames(m, [], snapshot);
    MarkPriceUntouched(base, Kept(early));
    LiveAppliesAll(OnSnapshot(OnOpen(m), snapshot), early);
    NoFrames(OnOpen(m));
    NoFrames(OnFrames(OnSnapshot(OnOpen(m), snapshot), early));
    NoFrames(OnSnapshot(OnFrames(OnOpen(m), early), snapshot));
    DrainPush(OnSnapshot(OnOpen(m), snapshot).state, early);
    assert early + [] == early && early[n - 1].frame == MarkPrice(price);
    assert Connection(m, early, snapshot, []).state.markPrice == m.state.markPrice;
    assert Connection(m, [], snapshot, early + []).state.markPrice == Some(price);
  }

  lemma NoFrames(m: Machine)
    ensures OnFrames(m, []) == m
  {
  }

  /** Buffering is invisible for every run with that many early frames if and only if the buffer holds them. */
  lemma BufferingIsInvisibleIff(m: Machine, snapshot: FeedDepth, n: nat)
    ensures (forall early, late :: |early| == n ==> Connection(m, early, snapshot, late) == Connection(m, [], snapshot, early + late))
      <==> n <= MAX_BUFFER
  {
    hide Connection;
    if n <= MAX_BUFFER {
      forall early, late | |early| == n ensures Connection(m, early, snapshot, late) == Connection(m, [], snapshot, early + late) {
        BufferingIsInvisible(m, early, snapshot, late);
      }
    } else {
      TooManyFramesShow(m, snapshot, n);
      var early :| |early| == n && Connection(m, early, snapshot, []) != Connection(m, [], snapshot, early + []);
    }
  }

  /** What the buffer loses: every frame after the first 256. */
  function LostFrames(fs: seq<Arrival>): seq<Frame> {
    if |fs| > MAX_BUFFER then FramesOf(fs)[MAX_BUFFER..] else []
  }

  lemma {:induction false} DrainConcat(s: FeedState, a: seq<Frame>, b: seq<Frame>)
    ensures Drain(s, a + b) == Drain(Drain(s, a), b)
  {
    if b == [] {
      assert a + b == a;
    } else {
      assert (a + b)[..|a + b| - 1] == a + b[..|b| - 1];
      DrainConcat(s, a, b[..|b| - 1]);
    }
  }

  /** The depth a connection comes to is that of the snapshot, the kept frames and the later ones. */
  lemma ConnectionDepth(m: Machine, early: seq<Arrival>, snapshot: FeedDepth, late: seq<Arrival>)
    ensures Connection(m, early, snapshot, late).state.depth
      == Drain(m.state.(depth := Some(snapshot), source := Live), Kept(early) + FramesOf(late)).depth
  {
    hide Drain, OnFrames, OnSnapshot, FramesOf, Kept;
    var base := m.state.(depth := Some(snapshot), source := Live);
    var live := OnSnapshot(OnFrames(OnOpen(m), early), snapshot);
    SnapshotThenKeptFrames(m, early, snapshot);
    LiveAppliesAll(live, late);
    DrainKeepsLiveness(Drain(base, Kept(early)), live.state.lastFrameAt, FramesOf(late));
    DrainConcat(base, Kept(early), FramesOf(late));
  }

  lemma {:induction false} MaxIdIs(id: nat, fs: seq<Frame>)
    ensures MaxId(id, fs) >= id
    ensures forall f :: f in fs && f.DepthFrame? ==> f.depth.lastUpdateId <= MaxId(id, fs)
    ensures MaxId(id, fs) == id || exists f :: f in fs && f.DepthFrame? && f.depth.lastUpdateId == MaxId(id, fs)
  {
    if fs != [] {
      MaxIdIs(id, fs[..|fs| - 1]);
    }
  }

  lemma FramesOfConcat(a: seq<Arrival>, b: seq<Arrival>)
    ensures FramesOf(a + b) == FramesOf(a) + FramesOf(b)
    ensures FramesOf(a) == Kept(a) + LostFrames(a)
  {
  }

  /** No dropped depth frame is newer than all that was kept, came later or was in the snapshot. */
  ghost predicate NothingNewerDropped(early: seq<Arrival>, snapshot: FeedDepth, late: seq<Arrival>) {
    forall f :: f in LostFrames(early) && f.DepthFrame? ==>
      f.depth.lastUpdateId <= MaxId(snapshot.lastUpdateId, Kept(early) + FramesOf(late))
  }

  lemma FullIdIff(early: seq<Arrival>, snapshot: FeedDepth, late: seq<Arrival>)
    ensures MaxId(snapshot.lastUpdateId, Kept(early) + FramesOf(late)) == MaxId(snapshot.lastUpdateId, FramesOf(early + late))
      <==> NothingNewerDropped(early, snapshot, late)
  {
    hide MaxId, FramesOf, Kept, LostFrames;
    var kept, full, id := Kept(early) + FramesOf(late), FramesOf(early + late), snapshot.lastUpdateId;
    FramesOfConcat(early, late);
    forall f ensures f in full <==> f in kept || f in LostFrames(early) {
    }
    MaxIdIs(id, kept);
    MaxIdIs(id, full);
  }

  /**
   * For the depth alone an overflow is harmless run by run. The id shown is the one shown with no frame
   * lost if and only if no dropped depth frame is newer than the snapshot, the kept and the later frames;
   * and so is the depth itself, before any later frame, and after them when ids are distinct.
   */
  lemma OverflowKeepsDepthIff(m: Machine, early: seq<Arrival>, snapshot: FeedDepth, late: seq<Arrival>)
    ensures var with, without := Connection(m, early, snapshot, late).state.depth, Connection(m, [], snapshot, early + late).state.depth;
      && with.Some? && without.Some?
      && (with.value.lastUpdateId == without.value.lastUpdateId <==> NothingNewerDropped(early, snapshot, late))
      && (late == [] || DistinctIds(FramesOf(early + late)) ==> (with == without <==> NothingNewerDropped(early, snapshot, late)))
  {
    hide Drain, Connection, Kept, MaxId, FramesOf, IsShown, DistinctIds, LostFrames;
    var base := m.state.(depth := Some(snapshot), source := Live);
    var kept, full := Kept(early) + FramesOf(late), FramesOf(early + late);
    ConnectionDepth(m, early, snapshot, late);
    ConnectionDepth(m, [], snapshot, early + late);
    NothingKept();
    assert [] + full == full;
    ShownIdIsTheMaximum(base, kept, 0);
    ShownIdIsTheMaximum(base, full, 0);
    FullIdIff(early, snapshot, late);
    if NothingNewerDropped(early, snapshot, late) {
      FramesOfConcat(early, late);
      if late == [] {
        NothingHeard();
        assert kept == Kept(early) && full == kept + LostFrames(early);
        OlderFramesChangeNothing(base, kept, LostFrames(early), snapshot);
      } else if DistinctIds(full) {
        DrainShows(base, snapshot, kept);
        DrainShows(base, snapshot, full);
        SameIdSameDepth(snapshot, kept, full, Drain(base, kept).depth.value, Drain(base, full).depth.value);
      }
    }
  }

  lemma NothingKept()
    ensures Kept([]) == []
  {
  }

  lemma NothingHeard()
    ensures FramesOf([]) == []
  {
  }

  lemma {:induction false} OlderFramesChangeNothing(s: FeedState, kept: seq<Frame>, older: seq<Frame>, snapshot: FeedDepth)
    requires s.depth == Some(snapshot)
    requires forall f :: f in older && f.DepthFrame? ==> f.depth.lastUpdateId <= MaxId(snapshot.lastUpdateId, kept)
    ensures Drain(s, kept + older).depth == Drain(s, kept).depth
  {
    if older == [] {
      assert kept + older == kept;
    } else {
      var n := |older| - 1;
      OlderFramesChangeNothing(s, kept, older[..n], snapshot);
      assert (kept + older)[..|kept + older| - 1] == kept + older[..n];
      ShownIdIsTheMaximum(s, kept, 0);
      assert older[n] in older;
    }
  }

  lemma SameIdSameDepth(base: FeedDepth, fs: seq<Frame>, gs: seq<Frame>, d: FeedDepth, e: FeedDepth)
    requires IsShown(base, fs, d) && IsShown(base, gs, e) && d.lastUpdateId == e.lastUpdateId
    requires DistinctIds(gs) && forall f :: f in fs && f.DepthFrame? ==> f in gs
    ensures d == e
  {
    if d != base && e != base {
      var i :| 0 <= i < |gs| && gs[i] == DepthFrame(d);
      var j :| 0 <= j < |gs| && gs[j] == DepthFrame(e);
      assert i == j;
    }
  }

  lemma NewerDepthIsShown(s: FeedState, fs: seq<Frame>, d: FeedDepth)
    requires s.depth.Some? && d.lastUpdateId > MaxId(s.depth.value.lastUpdateId, fs)
    ensures Drain(s, fs + [DepthFrame(d)]).depth == Some(d)
  {
    assert (fs + [DepthFrame(d)])[..|fs|] == fs;
    ShownIdIsTheMaximum(s, fs, 0);
  }

  /** A missed depth frame heals: the next frame newer than all before it is shown whatever was missed. */
  lemma NextDepthHeals(s: FeedState, fs: seq<Frame>, t: FeedState, gs: seq<Frame>, d: FeedDepth)
    requires s.depth.Some? && t.depth.Some?
    requires d.lastUpdateId > MaxId(s.depth.value.lastUpdateId, fs) && d.lastUpdateId > MaxId(t.depth.value.lastUpdateId, gs)
    ensures Drain(s, fs + [DepthFrame(d)]).depth == Drain(t, gs + [DepthFrame(d)]).depth == Some(d)
  {
    hide Drain, MaxId;
    NewerDepthIsShown(s, fs, d);
    NewerDepthIsShown(t, gs, d);
  }

  // ----- the tape and the prices shown

  /** The trades of a run of frames, newest first. */
  function NewestFirst(fs: seq<Frame>): seq<FeedTrade> {
    if fs == [] then []
    else
      var before := NewestFirst(fs[..|fs| - 1]);
      if fs[|fs| - 1].TradeFrame? then [fs[|fs| - 1].trade] + before else before
  }

  lemma NewestOfNewest(t: FeedTrade, xs: seq<FeedTrade>)
    ensures Newest([t] + Newest(xs)) == Newest([t] + xs)
  {
  }

  /** The tape is the forty newest trades, newest first, of everything that ever arrived. */
  lemma {:induction false} TapeIsTheNewestForty(s: FeedState, fs: seq<Frame>)
    requires |s.trades| <= MAX_TRADES
    ensures Drain(s, fs).trades == Newest(NewestFirst(fs) + s.trades)
  {
    if fs == [] {
      assert NewestFirst(fs) + s.trades == s.trades;
    } else {
      var before := fs[..|fs| - 1];
      TapeIsTheNewestForty(s, before);
      if fs[|fs| - 1].TradeFrame? {
        var t := fs[|fs| - 1].trade;
        NewestOfNewest(t, NewestFirst(before) + s.trades);
        assert [t] + (NewestFirst(before) + s.trades) == [t] + NewestFirst(before) + s.trades;
      }
    }
  }

  /** Every price the feed knew, oldest first. */
  function PriceTrail(s: FeedState, fs: seq<Frame>): seq<Option<real>> {
    if fs == [] then [s.prevPrice, s.lastPrice]
    else
      var before := PriceTrail(s, fs[..|fs| - 1]);
      if fs[|fs| - 1].LastTradedPrice? then before + [Some(fs[|fs| - 1].price)] else before
  }

  /** The two prices shown are the last two traded: the previous one is the one the last one replaced. */
  lemma {:induction false} PricesAreTheLastTwo(s: FeedState, fs: seq<Frame>)
    ensures var trail := PriceTrail(s, fs);
      && |trail| >= 2
      && Drain(s, fs).lastPrice == trail[|trail| - 1]
      && Drain(s, fs).prevPrice == trail[|trail| - 2]
  {
    if fs != [] {
      PricesAreTheLastTwo(s, fs[..|fs| - 1]);
    }
  }

  // ----- across connections

  datatype Event =
    | Opened
    | Received(arrival: Arrival)
    | Snapshot(depth: FeedDepth)
    | Dropped(willRetry: bool)
    | ColdSnapshot(depth: FeedDepth)

  function OnEvent(m: Machine, e: Event): Machine {
    match e
    case Opened => OnOpen(m)
    case Received(a) => OnFrame(m, a.frame, a.now)
    case Snapshot(d) => OnSnapshot(m, d)
    case Dropped(willRetry) => OnDisconnect(m, willRetry)
    case ColdSnapshot(d) => OnColdSnapshot(m, d)
  }

  function OnEvents(m: Machine, es: seq<Event>): Machine {
    if es == [] then m else OnEvent(OnEvents(m, es[..|es| - 1]), es[|es| - 1])
  }

  /** Everything the server said up to here, as snapshots or frames. */
  ghost predicate Said(es: seq<Event>, d: FeedDepth) {
    Snapshot(d) in es || ColdSnapshot(d) in es || exists now :: Received(Arrival(DepthFrame(d), now)) in es
  }

  lemma SaidGrows(es: seq<Event>, e: Event, d: FeedDepth)
    requires Said(es, d)
    ensures Said(es + [e], d)
  {
    if now :| Received(Arrival(DepthFrame(d), now)) in es {
      assert Received(Arrival(DepthFrame(d), now)) in es + [e];
    }
  }

  lemma DrainShowsWhatWasSaid(s: FeedState, fs: seq<Frame>)
    requires s.depth.Some?
    ensures Drain(s, fs).depth.Some? && (Drain(s, fs).depth == s.depth || DepthFrame(Drain(s, fs).depth.value) in fs)
  {
    DrainShows(s, s.depth.value, fs);
  }

  /**
   * Nothing is made up. Through any opens, drops and snapshots, the depth on screen and every
   * buffered depth is one the server said, the tape is never longer than forty, the buffer never longer
   * than 256, and it is empty unless a snapshot is awaited.
   */
  lemma {:induction false} OnlyWhatTheServerSaid(es: seq<Event>)
    ensures var m := OnEvents(InitialMachine(), es);
      && (m.state.depth.Some? ==> Said(es, m.state.depth.value))
      && (forall f :: f in m.buffer && f.DepthFrame? ==> Said(es, f.depth))
      && |m.state.trades| <= MAX_TRADES && |m.buffer| <= MAX_BUFFER
      && (!m.buffering ==> m.buffer == [])
  {
    if es != [] {
      var before, e := es[..|es| - 1], es[|es| - 1];
      OnlyWhatTheServerSaid(before);
      assert es == before + [e];
      var m := OnEvents(InitialMachine(), before);
      forall d | Said(before, d) ensures Said(es, d) {
        SaidGrows(before, e, d);
      }
      match e
      case Received(a) =>
        assert a.frame.DepthFrame? ==> Received(Arrival(DepthFrame(a.frame.depth), a.now)) in es;
      case Snapshot(d) =>
        DrainShowsWhatWasSaid(m.state.(depth := Some(d), source := Live), m.buffer);
        TapeIsTheNewestForty(m.state.(depth := Some(d), source := Live), m.buffer);
      case _ =>
    }
  }

  lemma {:induction false} OnEventsConcat(m: Machine, a: seq<Event>, b: seq<Event>)
    ensures OnEvents(m, a + b) == OnEvents(OnEvents(m, a), b)
  {
    if b == [] {
      assert a + b == a;
    } else {
      assert (a + b)[..|a + b| - 1] == a + b[..|b| - 1];
      OnEventsConcat(m, a, b[..|b| - 1]);
    }
  }

  /**
   * A depth read while the socket was down is a fallback. Once a socket has come up, answered or not yet, it
   * makes no difference to anything shown from there on; while none is up it is what is shown, the prices
   * and the tape as they were.
   */
  lemma ColdSnapshotIsAFallback(m: Machine, a: seq<Event>, d: FeedDepth, b: seq<Event>)
    ensures var at := OnEvents(m, a);
      if at.buffering || at.state.source == Live then OnEvents(m, a + [ColdSnapshot(d)] + b) == OnEvents(m, a + b)
      else OnEvents(m, a + [ColdSnapshot(d)]) == at.(state := at.state.(depth := Some(d)))
  {
    assert [ColdSnapshot(d)][..0] == [];
    OnEventsConcat(m, a, [ColdSnapshot(d)]);
    OnEventsConcat(m, a + [ColdSnapshot(d)], b);
    OnEventsConcat(m, a, b);
    assert OnEvents(OnEvents(m, a), [ColdSnapshot(d)]) == OnColdSnapshot(OnEvents(OnEvents(m, a), []), d);
  }

  /** The status the events leave: live since the last snapshot that answered a socket, else what the last drop said. */
  function StatusAfter(es: seq<Event>): Source {
    if es == [] then Connecting
    else
      match es[|es| - 1]
      case Snapshot(_) => Live
      case Dropped(willRetry) => if willRetry then Reconnecting else Disconnected
      case _ => StatusAfter(es[..|es| - 1])
  }

  /** The status shown is the last word on the connection; a drop keeps the book, the prices and the tape. */
  lemma {:induction false} StatusIsTheLastWord(es: seq<Event>)
    ensures OnEvents(InitialMachine(), es).state.source == StatusAfter(es)
    ensures es != [] && es[|es| - 1].Dropped? ==>
      var before, after := OnEvents(InitialMachine(), es[..|es| - 1]), OnEvents(InitialMachine(), es);
      after.state == before.state.(source := after.state.source)
  {
    if es != [] {
      var before, e := es[..|es| - 1], es[|es| - 1];
      StatusIsTheLastWord(before);
      var m := OnEvents(InitialMachine(), before);
      match e
      case Snapshot(d) => DrainKeepsSource(m.state.(depth := Some(d), source := Live), m.buffer);
      case _ =>
    }
  }

  lemma {:induction false} DrainKeepsSource(s: FeedState, fs: seq<Frame>)
    ensures Drain(s, fs).source == s.source
  {
    if fs != [] {
      DrainKeepsSource(s, fs[..|fs| - 1]);
    }
  }
}
