/**
 * Which orders rest where, counted one by one: what a fill, a cancel and a resting remainder do to how often each
 * order stands on the books.
 */
module RestingOrders {
  import opened Exchange
  import opened Sequences
  import opened Books
  import opened Matching
  import opened Engine

  // ----- one level

  function Occurs(os: seq<OpenOrder>, o: OpenOrder): nat {
    if os == [] then 0 else (if os[0] == o then 1 else 0) + Occurs(os[1..], o)
  }

  lemma {:induction false} OccursConcat(a: seq<OpenOrder>, b: seq<OpenOrder>, o: OpenOrder)
    ensures Occurs(a + b, o) == Occurs(a, o) + Occurs(b, o)
  {
    if a == [] {
      assert a + b == b;
    } else {
      OccursConcat(a[1..], b, o);
      assert (a + b)[1..] == a[1..] + b;
    }
  }

  lemma OccursSplit(os: seq<OpenOrder>, i: nat, o: OpenOrder)
    requires i < |os|
    ensures Occurs(os, o) == Occurs(os[..i], o) + (if os[i] == o then 1 else 0) + Occurs(os[i + 1..], o)
  {
    OccursConcat(os[..i], os[i..], o);
    assert os == os[..i] + os[i..];
    assert os[i..][1..] == os[i + 1..];
  }

  lemma OccursRemove(os: seq<OpenOrder>, i: nat, o: OpenOrder)
    requires i < |os|
    ensures Occurs(RemoveAt(os, i), o) == Occurs(os, o) - if os[i] == o then 1 else 0
  {
    OccursSplit(os, i, o);
    OccursConcat(os[..i], os[i + 1..], o);
  }

  lemma OccursUpdate(os: seq<OpenOrder>, i: nat, r: OpenOrder, o: OpenOrder)
    requires i < |os|
    ensures Occurs(os[i := r], o) == Occurs(os, o) - (if os[i] == o then 1 else 0) + if r == o then 1 else 0
  {
    OccursSplit(os, i, o);
    OccursSplit(os[i := r], i, o);
    assert os[i := r][..i] == os[..i] && os[i := r][i + 1..] == os[i + 1..];
  }

  lemma {:induction false} OccursIffIn(os: seq<OpenOrder>, o: OpenOrder)
    ensures Occurs(os, o) > 0 <==> o in os
  {
    if os != [] {
      OccursIffIn(os[1..], o);
      assert os == [os[0]] + os[1..];
    }
  }

  // ----- one side

  function Times(levels: Levels, x: Slot): nat {
    if x.price in levels then Occurs(levels[x.price].openOrders, x.order) else 0
  }

  function One(x: Slot, y: Slot): nat {
    if x == y then 1 else 0
  }

  lemma TimesAfterAppend(levels: Levels, p: real, o: OpenOrder, x: Slot)
    ensures Times(Append(levels, p, o), x) == Times(levels, x) + One(x, Slot(p, o))
  {
    assert Occurs([o], x.order) == if o == x.order then 1 else 0;
    if p in levels {
      OccursConcat(levels[p].openOrders, [o], x.order);
    }
  }

  lemma TimesAfterCancel(levels: Levels, p: real, i: nat, kind: PositionType, m: Uuid, x: Slot)
    requires WfLevels(levels, kind, m) && p in levels && i < |levels[p].openOrders|
    ensures Times(WithoutOrder(levels, p, i), x) == Times(levels, x) - One(x, Slot(p, levels[p].openOrders[i]))
  {
    var os := levels[p].openOrders;
    assert WfLevel(levels[p], kind, m) && Resting(os[i], kind, m);
    HeadLevelStaysWf(levels[p], i, Unfilled(os[i]), kind, m);
    OccursRemove(os, i, x.order);
  }

  /** One fill takes one order off its level, and puts it back further filled if it is not finished. */
  lemma TimesAfterFill(levels: Levels, p: real, i: nat, take: real, kind: PositionType, m: Uuid, x: Slot)
    requires WfLevels(levels, kind, m) && p in levels && i < |levels[p].openOrders|
    requires Resting(levels[p].openOrders[i], kind, m)
    requires 0.0 < take <= Unfilled(levels[p].openOrders[i])
    ensures var r := levels[p].openOrders[i];
      Times(LevelsAfter(levels, p, i, take), x) == Times(levels, x) - One(x, Slot(p, r))
        + if take < Unfilled(r) then One(x, Slot(p, Hit(r, take))) else 0
  {
    var os := levels[p].openOrders;
    assert WfLevel(levels[p], kind, m);
    HeadLevelStaysWf(levels[p], i, take, kind, m);
    if take < Unfilled(os[i]) {
      OccursUpdate(os, i, Hit(os[i], take), x.order);
    } else {
      OccursRemove(os, i, x.order);
    }
  }

  // ----- all books

  /** How often an order rests at a price. Only the side its own record names can hold it. */
  function TimesResting(books: map<Uuid, Book>, x: Slot): nat {
    if x.order.marketId in books then Times(Side(books[x.order.marketId], x.order.positionType), x) else 0
  }

  /** From `books` to `after` one order left (if any) and one order came (if any). */
  ghost predicate Moved(books: map<Uuid, Book>, after: map<Uuid, Book>, gone: Option<Slot>, come: Option<Slot>) {
    forall x :: TimesResting(after, x) == TimesResting(books, x)
      - (if gone.Some? then One(x, gone.value) else 0) + if come.Some? then One(x, come.value) else 0
  }

  function WithLevels(books: map<Uuid, Book>, m: Uuid, kind: PositionType, levels: Levels): map<Uuid, Book>
    requires m in books
  {
    books[m := WithSide(books[m], kind, levels)]
  }

  lemma TimesRestingWithLevels(books: map<Uuid, Book>, m: Uuid, kind: PositionType, levels: Levels, x: Slot)
    requires m in books
    ensures TimesResting(WithLevels(books, m, kind, levels), x)
      == if x.order.marketId == m && x.order.positionType == kind then Times(levels, x) else TimesResting(books, x)
  {
  }

  lemma AppendMoves(books: map<Uuid, Book>, p: real, o: OpenOrder)
    requires o.marketId in books
    ensures Moved(books,
      WithLevels(books, o.marketId, o.positionType, Append(Side(books[o.marketId], o.positionType), p, o)), None, Some(Slot(p, o)))
  {
    hide Times, Append;
    var m, kind := o.marketId, o.positionType;
    var levels := Side(books[m], kind);
    forall x ensures TimesResting(WithLevels(books, m, kind, Append(levels, p, o)), x) == TimesResting(books, x) + One(x, Slot(p, o)) {
      TimesRestingWithLevels(books, m, kind, Append(levels, p, o), x);
      TimesAfterAppend(levels, p, o, x);
    }
  }

  lemma CancelMoves(books: map<Uuid, Book>, m: Uuid, kind: PositionType, p: real, i: nat)
    requires m in books && WfLevels(Side(books[m], kind), kind, m)
    requires p in Side(books[m], kind) && i < |Side(books[m], kind)[p].openOrders|
    ensures Moved(books, WithLevels(books, m, kind, WithoutOrder(Side(books[m], kind), p, i)),
      Some(Slot(p, Side(books[m], kind)[p].openOrders[i])), None)
  {
    hide Times, WithoutOrder;
    var levels := Side(books[m], kind);
    var after := WithoutOrder(levels, p, i);
    assert WfLevel(levels[p], kind, m) && Resting(levels[p].openOrders[i], kind, m);
    forall x ensures TimesResting(WithLevels(books, m, kind, after), x)
      == TimesResting(books, x) - One(x, Slot(p, levels[p].openOrders[i])) {
      TimesRestingWithLevels(books, m, kind, after, x);
      TimesAfterCancel(levels, p, i, kind, m, x);
    }
  }

  lemma FillMoves(books: map<Uuid, Book>, m: Uuid, kind: PositionType, p: real, i: nat, take: real)
    requires m in books && WfLevels(Side(books[m], kind), kind, m)
    requires p in Side(books[m], kind) && i < |Side(books[m], kind)[p].openOrders|
    requires Resting(Side(books[m], kind)[p].openOrders[i], kind, m)
    requires 0.0 < take <= Unfilled(Side(books[m], kind)[p].openOrders[i])
    ensures var r := Side(books[m], kind)[p].openOrders[i];
      Moved(books, WithLevels(books, m, kind, LevelsAfter(Side(books[m], kind), p, i, take)),
        Some(Slot(p, r)), if take < Unfilled(r) then Some(Slot(p, Hit(r, take))) else None)
  {
    hide Times, LevelsAfter;
    var levels := Side(books[m], kind);
    var after := LevelsAfter(levels, p, i, take);
    var r := levels[p].openOrders[i];
    forall x ensures TimesResting(WithLevels(books, m, kind, after), x)
      == TimesResting(books, x) - One(x, Slot(p, r)) + if take < Unfilled(r) then One(x, Slot(p, Hit(r, take))) else 0 {
      TimesRestingWithLevels(books, m, kind, after, x);
      TimesAfterFill(levels, p, i, take, kind, m, x);
    }
  }
}
