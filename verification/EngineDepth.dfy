/** The published depth is the true top of the book. */
module EngineDepth {
  import opened Exchange
  import opened Books
  import opened Engine

  ghost predicate Shown(d: seq<(real, real)>, p: real) {
    exists i :: 0 <= i < |d| && d[i].0 == p
  }

  /** Strictly from better to worse, each price with its level's total. */
  ghost predicate Ranked(kind: PositionType, levels: Levels, d: seq<(real, real)>) {
    && (forall i :: 0 <= i < |d| ==> d[i].0 in levels && d[i].1 == levels[d[i].0].availableQty)
    && (forall i, j :: 0 <= i < j < |d| ==> Rank(kind, d[i].0) < Rank(kind, d[j].0))
  }

  /** No level that is left out is as good as one that is shown. */
  ghost predicate NothingBetterLeftOut(kind: PositionType, levels: Levels, d: seq<(real, real)>) {
    forall q, i :: q in levels && !Shown(d, q) && 0 <= i < |d| ==> Rank(kind, d[i].0) < Rank(kind, q)
  }

  lemma BestThenRanked(kind: PositionType, levels: Levels, p: real, tail: seq<(real, real)>)
    requires IsBest(kind, levels, p) && Ranked(kind, levels - {p}, tail)
    ensures Ranked(kind, levels, [(p, levels[p].availableQty)] + tail)
  {
    var d := [(p, levels[p].availableQty)] + tail;
    forall i, j | 0 <= i < j < |d| ensures Rank(kind, d[i].0) < Rank(kind, d[j].0) {
      assert d[j] == tail[j - 1];
      if i > 0 {
        assert d[i] == tail[i - 1];
      }
    }
  }

  lemma BestThenNothingBetter(kind: PositionType, levels: Levels, p: real, tail: seq<(real, real)>)
    requires IsBest(kind, levels, p) && NothingBetterLeftOut(kind, levels - {p}, tail)
    ensures NothingBetterLeftOut(kind, levels, [(p, levels[p].availableQty)] + tail)
  {
    var d := [(p, levels[p].availableQty)] + tail;
    forall q, i | q in levels && !Shown(d, q) && 0 <= i < |d| ensures Rank(kind, d[i].0) < Rank(kind, q) {
      assert d[0].0 == p;
      if Shown(tail, q) {
        var k :| 0 <= k < |tail| && tail[k].0 == q;
        assert d[k + 1].0 == q;
      }
      assert q in levels - {p};
      if i > 0 {
        assert d[i] == tail[i - 1];
      }
    }
  }

  /**
   * The depth shows as many levels as there are, up to the limit: the best ones, in order, with
   * their exact totals.
   */
  lemma {:induction false} TopLevelsAreTheBest(kind: PositionType, levels: Levels, n: nat)
    ensures var d := TopLevels(kind, levels, n);
      && |d| == (if |levels| < n then |levels| else n)
      && Ranked(kind, levels, d)
      && NothingBetterLeftOut(kind, levels, d)
  {
    hide Ranked, NothingBetterLeftOut, IsBest;
    if n == 0 || levels == map[] {
      NothingToShow(kind, levels);
    } else {
      var p := BestPrice(kind, levels);
      TopLevelsAreTheBest(kind, levels - {p}, n - 1);
      BestIsPresent(kind, levels, p);
      BestThenRanked(kind, levels, p, TopLevels(kind, levels - {p}, n - 1));
      BestThenNothingBetter(kind, levels, p, TopLevels(kind, levels - {p}, n - 1));
    }
  }

  lemma NothingToShow(kind: PositionType, levels: Levels)
    ensures Ranked(kind, levels, []) && NothingBetterLeftOut(kind, levels, [])
  {
  }

  lemma BestIsPresent(kind: PositionType, levels: Levels, p: real)
    requires IsBest(kind, levels, p)
    ensures p in levels && |levels - {p}| == |levels| - 1
  {
    assert (levels - {p}).Keys == levels.Keys - {p};
  }

  /** The best twenty levels of a side, or all there are, best first, each with its total. */
  ghost predicate IsTop(kind: PositionType, levels: Levels, d: seq<(real, real)>) {
    && |d| == (if |levels| < 20 then |levels| else 20)
    && Ranked(kind, levels, d)
    && NothingBetterLeftOut(kind, levels, d)
  }

  /** The depth tells both sides of the book: bids from the highest down, asks from the lowest up. */
  ghost predicate TellsTheBook(d: Depth, b: Book) {
    IsTop(LONG, b.bids, d.bids) && IsTop(SHORT, b.asks, d.asks)
  }

  /** No bid shown stands at or above an ask shown. */
  ghost predicate ShownUncrossed(d: Depth) {
    forall i, j :: 0 <= i < |d.bids| && 0 <= j < |d.asks| ==> d.bids[i].0 < d.asks[j].0
  }

  /** The reported depth is the top of both sides of the market's book, under the current update id, and uncrossed. */
  lemma DepthIsTheTopOfTheBook(s: Store, m: Uuid)
    requires WfStore(s) && m in s.books
    ensures var d := DepthOf(s, m);
      d.market == m && d.lastUpdateId == s.lastUpdateId && TellsTheBook(d, s.books[m]) && ShownUncrossed(d)
  {
    hide Ranked, NothingBetterLeftOut, TopLevels;
    TopLevelsAreTheBest(LONG, s.books[m].bids, MAX_DEPTH);
    TopLevelsAreTheBest(SHORT, s.books[m].asks, MAX_DEPTH);
    assert WfBook(s.books[m], m, s.users);
    ShownSidesApart(DepthOf(s, m), s.books[m]);
  }

  lemma ShownSidesApart(d: Depth, b: Book)
    requires Ranked(LONG, b.bids, d.bids) && Ranked(SHORT, b.asks, d.asks) && Uncrossed(b)
    ensures ShownUncrossed(d)
  {
  }

  /** A side has one top. */
  lemma OneTop(kind: PositionType, levels: Levels, d: seq<(real, real)>, e: seq<(real, real)>)
    requires IsTop(kind, levels, d) && IsTop(kind, levels, e)
    ensures d == e
  {
    hide NothingBetterLeftOut;
    forall k | 0 <= k < |d| ensures d[k] == e[k] {
      SameAt(kind, levels, d, e, k);
    }
  }

  /** The position of a price in a top is how many of the levels are better. */
  lemma SameAt(kind: PositionType, levels: Levels, d: seq<(real, real)>, e: seq<(real, real)>, k: nat)
    requires IsTop(kind, levels, d) && IsTop(kind, levels, e) && k < |d|
    ensures d[k] == e[k]
    decreases k
  {
    forall j | 0 <= j < k ensures d[j] == e[j] {
      SameAt(kind, levels, d, e, j);
    }
    NoWorseAt(kind, levels, d, e, k);
    NoWorseAt(kind, levels, e, d, k);
  }

  lemma NoWorseAt(kind: PositionType, levels: Levels, d: seq<(real, real)>, e: seq<(real, real)>, k: nat)
    requires IsTop(kind, levels, d) && IsTop(kind, levels, e) && k < |d| && forall j :: 0 <= j < k ==> d[j] == e[j]
    ensures Rank(kind, d[k].0) <= Rank(kind, e[k].0)
  {
    forall i | 0 <= i < k ensures d[i].0 != e[k].0 {
      assert Rank(kind, e[i].0) < Rank(kind, e[k].0);
    }
    assert e[k].0 in levels;
  }

  // ----- the loop that collects it

  /** The levels strictly past a price. */
  ghost function Beyond(kind: PositionType, levels: Levels, from: Option<real>): Levels {
    map p | p in levels && Past(kind, from, p) :: levels[p]
  }

  lemma AllIsBeyondNone(kind: PositionType, levels: Levels)
    ensures Beyond(kind, levels, None) == levels
  {
  }

  lemma BeyondBest(kind: PositionType, levels: Levels, from: Option<real>, p: real)
    requires IsBest(kind, Beyond(kind, levels, from), p)
    ensures Beyond(kind, levels, Some(p)) == Beyond(kind, levels, from) - {p}
  {
  }

  lemma NextIsBestBeyond(kind: PositionType, levels: Levels, m: Uuid, from: Option<real>, best: Option<real>)
    requires WfLevels(levels, kind, m)
    requires best == None ==> forall q :: q in levels && levels[q].availableQty > 0.0 ==> !Past(kind, from, q)
    requires best.Some? ==> best.value in levels && Past(kind, from, best.value)
    requires best.Some? ==> forall q :: q in levels && levels[q].availableQty > 0.0 && Past(kind, from, q) ==>
      Rank(kind, best.value) <= Rank(kind, q)
    ensures var rest := Beyond(kind, levels, from);
      if rest == map[] then best == None else best == Some(BestPrice(kind, rest))
  {
    forall q | q in levels ensures levels[q].availableQty > 0.0 {
      assert WfLevel(levels[q], kind, m);
      RemainingPositive(levels[q].openOrders, kind, m);
    }
    var rest := Beyond(kind, levels, from);
    if rest == map[] {
      forall q | q in levels ensures !Past(kind, from, q) {
        assert q !in rest;
      }
    } else {
      var b := BestPrice(kind, rest);
      assert b in levels && Past(kind, from, b);
    }
  }

  lemma ShowOneMore(kind: PositionType, levels: Levels, from: Option<real>, shown: seq<(real, real)>, n: nat)
    requires Beyond(kind, levels, from) != map[] && n > 0
    ensures var p := BestPrice(kind, Beyond(kind, levels, from));
      p in levels && shown + TopLevels(kind, Beyond(kind, levels, from), n)
        == (shown + [(p, levels[p].availableQty)]) + TopLevels(kind, Beyond(kind, levels, Some(p)), n - 1)
  {
    BeyondBest(kind, levels, from, BestPrice(kind, Beyond(kind, levels, from)));
  }

  lemma NothingMoreToShow(kind: PositionType, levels: Levels, shown: seq<(real, real)>, n: nat)
    requires levels == map[] || n == 0
    ensures shown + TopLevels(kind, levels, n) == shown
  {
  }

  /** Collects the best `maxDepth` levels of a side, best first. */
  method TopOfSide(kind: PositionType, levels: Levels, ghost m: Uuid, maxDepth: nat) returns (depth: seq<(real, real)>)
    requires WfLevels(levels, kind, m)
    ensures depth == TopLevels(kind, levels, maxDepth)
  {
    hide WfLevels, TopLevels, Past;
    depth := [];
    ghost var from: Option<real> := None;
    AllIsBeyondNone(kind, levels);
    var bestNextPrice := NextBestPrice(kind, levels, None);
    NextIsBestBeyond(kind, levels, m, from, bestNextPrice);
    var iteration := 0;
    while bestNextPrice.Some? && iteration < maxDepth
      invariant iteration <= maxDepth
      invariant TopLevels(kind, levels, maxDepth) == depth + TopLevels(kind, Beyond(kind, levels, from), maxDepth - iteration)
      invariant var rest := Beyond(kind, levels, from);
        if rest == map[] then bestNextPrice == None else bestNextPrice == Some(BestPrice(kind, rest))
      decreases maxDepth - iteration
    {
      ShowOneMore(kind, levels, from, depth, maxDepth - iteration);
      iteration := iteration + 1;
      var p := bestNextPrice.value;
      depth := depth + [(p, levels[p].availableQty)];
      bestNextPrice := NextBestPrice(kind, levels, Some(p));
      from := Some(p);
      NextIsBestBeyond(kind, levels, m, from, bestNextPrice);
    }
    NothingMoreToShow(kind, Beyond(kind, levels, from), depth, maxDepth - iteration);
  }
}
