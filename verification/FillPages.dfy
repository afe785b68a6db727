/** Fill history, one page at a time. */
module FillPages {
  import opened Exchange
  import opened Sequences

  // ----- the table and its order

  /** A fill joined with its market and with the orders of its two sides; the database stamps it to the microsecond. */
  datatype FillRecord = FillRecord(
    id: string,
    marketId: Uuid,
    makerId: Uuid,
    takerId: Uuid,
    makerOrderId: Uuid,
    takerOrderId: Uuid,
    qty: string,
    price: string,
    createdAt: int,
    marketSlug: Option<string>,
    makerSide: Option<PositionType>,
    takerSide: Option<PositionType>)

  /** The order of ids: uuids in their canonical text compare as their bytes do. */
  predicate Less(a: string, b: string) {
    if b == "" then false
    else if a == "" then true
    else a[0] < b[0] || (a[0] == b[0] && Less(a[1..], b[1..]))
  }

  lemma {:induction false} LessIsTotal(a: string, b: string)
    ensures a == b || Less(a, b) || Less(b, a)
    ensures !(Less(a, b) && Less(b, a)) && !Less(a, a)
  {
    if a != "" && b != "" {
      LessIsTotal(a[1..], b[1..]);
      assert a == [a[0]] + a[1..] && b == [b[0]] + b[1..];
    }
    if a != "" {
      LessIsTotal(a[1..], a[1..]);
    }
  }

  lemma {:induction false} LessIsTransitive(a: string, b: string, c: string)
    requires Less(a, b) && Less(b, c)
    ensures Less(a, c)
  {
    if a != "" && a[0] == b[0] == c[0] {
      LessIsTransitive(a[1..], b[1..], c[1..]);
    }
  }

  /** The listing's order, oldest last: by time, then by id. */
  predicate Older(a: FillRecord, b: FillRecord) {
    a.createdAt < b.createdAt || (a.createdAt == b.createdAt && Less(a.id, b.id))
  }

  lemma OlderIsTotal(a: FillRecord, b: FillRecord)
    ensures a.id == b.id || Older(a, b) || Older(b, a)
    ensures !(Older(a, b) && Older(b, a)) && !Older(a, a)
  {
    LessIsTotal(a.id, b.id);
    LessIsTotal(a.id, a.id);
  }

  lemma OlderIsTransitive(a: FillRecord, b: FillRecord, c: FillRecord)
    requires Older(a, b) && Older(b, c)
    ensures Older(a, c)
  {
    if a.createdAt == b.createdAt == c.createdAt {
      LessIsTransitive(a.id, b.id, c.id);
    }
  }

  /** What a `Date` keeps of a time stamp. */
  function Millis(micros: int): int {
    micros / 1000
  }

  /** The time of a cursor is a `Date`, so it is whole milliseconds. */
  datatype Cursor = Cursor(createdAt: int, id: string)

  /** Strictly before the cursor on the pair: older, or as old and of a smaller id. */
  predicate IsBefore(r: FillRecord, c: Cursor) {
    var stamp := c.createdAt * 1000;
    r.createdAt < stamp || (r.createdAt == stamp && Less(r.id, c.id))
  }

  function CursorOf(r: FillRecord): Cursor {
    Cursor(Millis(r.createdAt), r.id)
  }

  /** Whatever is before a fill's cursor is older than the fill. */
  lemma BeforeIsOlder(a: FillRecord, b: FillRecord)
    requires IsBefore(a, CursorOf(b))
    ensures Older(a, b)
  {
  }

  /** The other way round it takes a time stamp of whole milliseconds. */
  lemma WholeStampsAreKept(a: FillRecord, b: FillRecord)
    requires b.createdAt % 1000 == 0
    ensures IsBefore(a, CursorOf(b)) <==> Older(a, b)
  {
  }

  lemma BeforeGoesDown(a: FillRecord, b: FillRecord, c: Cursor)
    requires Older(a, b) && IsBefore(b, c)
    ensures IsBefore(a, c)
  {
    if a.createdAt == b.createdAt == c.createdAt * 1000 {
      LessIsTransitive(a.id, b.id, c.id);
    }
  }

  ghost predicate UniqueIds(rows: seq<FillRecord>) {
    forall i, j :: 0 <= i < j < |rows| ==> rows[i].id != rows[j].id
  }

  /** Newest first, strictly. */
  ghost predicate Descending(rows: seq<FillRecord>) {
    forall i, j :: 0 <= i < j < |rows| ==> Older(rows[j], rows[i])
  }

  function Insert(r: FillRecord, rows: seq<FillRecord>): seq<FillRecord> {
    if rows == [] || Older(rows[0], r) then [r] + rows else [rows[0]] + Insert(r, rows[1..])
  }

  /** `order by created_at desc, id desc`. */
  function Sorted(rows: seq<FillRecord>): seq<FillRecord> {
    if rows == [] then [] else Insert(rows[0], Sorted(rows[1..]))
  }

  lemma {:induction false} InsertHas(r: FillRecord, rows: seq<FillRecord>, x: FillRecord)
    ensures x in Insert(r, rows) <==> x == r || x in rows
  {
    if rows != [] {
      InsertHas(r, rows[1..], x);
      assert rows == [rows[0]] + rows[1..];
    }
  }

  lemma {:induction false} InsertDescends(r: FillRecord, rows: seq<FillRecord>)
    requires Descending(rows) && forall x :: x in rows ==> x.id != r.id
    ensures Descending(Insert(r, rows))
  {
    hide Older;
    if rows == [] {
    } else if Older(rows[0], r) {
      var after := [r] + rows;
      forall i, j | 0 <= i < j < |after| ensures Older(after[j], after[i]) {
        if i == 0 && j > 1 {
          OlderIsTransitive(rows[j - 1], rows[0], r);
        }
      }
    } else {
      var tail := Insert(r, rows[1..]);
      InsertDescends(r, rows[1..]);
      OlderIsTotal(rows[0], r);
      var after := [rows[0]] + tail;
      forall j | 0 <= j < |tail| ensures Older(tail[j], rows[0]) {
        InsertHas(r, rows[1..], tail[j]);
      }
      assert forall i, j :: 0 < i < j < |after| ==> after[i] == tail[i - 1] && after[j] == tail[j - 1];
    }
  }

  lemma {:induction false} SortedHas(rows: seq<FillRecord>, x: FillRecord)
    ensures x in Sorted(rows) <==> x in rows
  {
    if rows != [] {
      SortedHas(rows[1..], x);
      InsertHas(rows[0], Sorted(rows[1..]), x);
      assert rows == [rows[0]] + rows[1..];
    }
  }

  lemma {:induction false} SortedDescends(rows: seq<FillRecord>)
    requires UniqueIds(rows)
    ensures Descending(Sorted(rows))
  {
    if rows != [] {
      SortedDescends(rows[1..]);
      forall x | x in Sorted(rows[1..]) ensures x.id != rows[0].id {
        SortedHas(rows[1..], x);
        var k :| 0 <= k < |rows[1..]| && rows[1..][k] == x;
        assert rows[k + 1] == x;
      }
      InsertDescends(rows[0], Sorted(rows[1..]));
    }
  }

  /** A set of fills has one strictly descending listing. */
  lemma {:induction false} DescendingIsUnique(a: seq<FillRecord>, b: seq<FillRecord>)
    requires Descending(a) && Descending(b) && forall x :: x in a <==> x in b
    ensures a == b
    decreases |a|
  {
    hide Older;
    assert b != [] ==> b[0] in b;
    if a != [] {
      assert a[0] in a && b != [] && b[0] in b;
      HeadsAgree(a, b);
      forall x ensures x in a[1..] <==> x in b[1..] {
        TailHas(a, x);
        TailHas(b, x);
      }
      DescendingIsUnique(a[1..], b[1..]);
      assert a == [a[0]] + a[1..] && b == [b[0]] + b[1..];
    }
  }

  lemma TailHas(a: seq<FillRecord>, x: FillRecord)
    requires a != [] && Descending(a)
    ensures x in a[1..] <==> x in a && x != a[0]
  {
    OlderIsTotal(a[0], a[0]);
    assert a == [a[0]] + a[1..];
    if x in a[1..] {
      var k :| 0 <= k < |a[1..]| && a[1..][k] == x;
      assert Older(a[k + 1], a[0]);
    }
  }

  lemma HeadsAgree(a: seq<FillRecord>, b: seq<FillRecord>)
    requires a != [] && b != [] && Descending(a) && Descending(b) && a[0] in b && b[0] in a
    ensures a[0] == b[0]
  {
    var i :| 0 <= i < |a| && a[i] == b[0];
    var j :| 0 <= j < |b| && b[j] == a[0];
    OlderIsTotal(a[0], b[0]);
  }

  // ----- the query

  predicate Matches(r: FillRecord, user: Uuid, market: Option<Uuid>, before: Option<Cursor>) {
    && (r.makerId == user || r.takerId == user)
    && (market.Some? ==> r.marketId == market.value)
    && (before.Some? ==> IsBefore(r, before.value))
  }

  function Where(rows: seq<FillRecord>, user: Uuid, market: Option<Uuid>, before: Option<Cursor>): seq<FillRecord> {
    if rows == [] then []
    else
      var rest := Where(rows[1..], user, market, before);
      if Matches(rows[0], user, market, before) then [rows[0]] + rest else rest
  }

  lemma {:induction false} WhereHas(rows: seq<FillRecord>, user: Uuid, market: Option<Uuid>, before: Option<Cursor>, x: FillRecord)
    ensures x in Where(rows, user, market, before) <==> x in rows && Matches(x, user, market, before)
  {
    if rows != [] {
      WhereHas(rows[1..], user, market, before, x);
      assert rows == [rows[0]] + rows[1..];
    }
  }

  lemma {:induction false} WhereKeepsIdsUnique(rows: seq<FillRecord>, user: Uuid, market: Option<Uuid>, before: Option<Cursor>)
    requires UniqueIds(rows)
    ensures UniqueIds(Where(rows, user, market, before))
  {
    hide Matches;
    if rows != [] {
      var rest := Where(rows[1..], user, market, before);
      WhereKeepsIdsUnique(rows[1..], user, market, before);
      forall x | x in rest ensures x.id != rows[0].id {
        WhereHas(rows[1..], user, market, before, x);
        var k :| 0 <= k < |rows[1..]| && rows[1..][k] == x;
        assert rows[k + 1] == x;
      }
    }
  }

  /** The rows a request reads from, in order, before the limit is applied. */
  function Listing(table: seq<FillRecord>, user: Uuid, market: Option<Uuid>, before: Option<Cursor>): seq<FillRecord> {
    Sorted(Where(table, user, market, before))
  }

  lemma ListingIs(table: seq<FillRecord>, user: Uuid, market: Option<Uuid>, before: Option<Cursor>)
    requires UniqueIds(table)
    ensures Descending(Listing(table, user, market, before))
    ensures forall x :: x in Listing(table, user, market, before) <==> x in table && Matches(x, user, market, before)
  {
    WhereKeepsIdsUnique(table, user, market, before);
    SortedDescends(Where(table, user, market, before));
    forall x ensures x in Listing(table, user, market, before) <==> x in table && Matches(x, user, market, before) {
      SortedHas(Where(table, user, market, before), x);
      WhereHas(table, user, market, before, x);
    }
  }

  // ----- cursors

  /** How `Date` writes and reads an instant: what the cursor relies on. */
  datatype IsoCodec = IsoCodec(write: int -> string, read: string -> Option<int>)

  ghost predicate Lawful(iso: IsoCodec) {
    forall t :: iso.read(iso.write(t)) == Some(t) && '|' !in iso.write(t)
  }

  function EncodeFillCursor(c: Cursor, iso: IsoCodec): string {
    iso.write(c.createdAt) + "|" + c.id
  }

  function DecodeFillCursor(text: string, iso: IsoCodec): Option<Cursor> {
    var separator := IndexOf(text, '|');
    if separator < 0 then None
    else
      var createdAt := iso.read(text[..separator]);
      var id := text[separator + 1..];
      if createdAt == None || id == "" then None else Some(Cursor(createdAt.value, id))
  }

  /** A cursor survives the trip through the client, even where the id itself holds the separator. */
  lemma CursorRoundTrips(c: Cursor, iso: IsoCodec)
    requires Lawful(iso) && c.id != ""
    ensures EncodeFillCursor(c, iso) != "" && DecodeFillCursor(EncodeFillCursor(c, iso), iso) == Some(c)
  {
    var stamp := iso.write(c.createdAt);
    IndexOfFirst(stamp, '|', c.id);
    assert EncodeFillCursor(c, iso) == stamp + ['|'] + c.id;
    assert EncodeFillCursor(c, iso)[..|stamp|] == stamp;
    assert EncodeFillCursor(c, iso)[|stamp| + 1..] == c.id;
  }

  // ----- one account's view of a fill

  datatype Role = AsMaker | AsTaker

  datatype FillView = FillView(id: string, marketId: Uuid, marketSlug: Option<string>, side: PositionType, role: Role,
                               orderId: Uuid, qty: string, price: string, createdAt: string)

  function View(r: FillRecord, side: PositionType, role: Role, orderId: Uuid, iso: IsoCodec): FillView {
    FillView(r.id, r.marketId, r.marketSlug, side, role, orderId, r.qty, r.price, iso.write(Millis(r.createdAt)))
  }

  function ViewsFor(r: FillRecord, user: Uuid, iso: IsoCodec): seq<FillView> {
    (if r.makerId == user && r.makerSide.Some? then [View(r, r.makerSide.value, AsMaker, r.makerOrderId, iso)] else [])
    + (if r.takerId == user && r.takerSide.Some? then [View(r, r.takerSide.value, AsTaker, r.takerOrderId, iso)] else [])
  }

  /** The account stood on that side of the fill, with an order that can still be shown. */
  predicate TookPart(r: FillRecord, user: Uuid, role: Role) {
    match role
    case AsMaker => r.makerId == user && r.makerSide.Some?
    case AsTaker => r.takerId == user && r.takerSide.Some?
  }

  /** The view tells this fill, with the direction and the order of the side its role names. */
  predicate Tells(v: FillView, r: FillRecord, iso: IsoCodec) {
    && v.id == r.id && v.marketId == r.marketId && v.marketSlug == r.marketSlug
    && v.qty == r.qty && v.price == r.price && v.createdAt == iso.write(Millis(r.createdAt))
    && (v.role == AsMaker ==> r.makerSide == Some(v.side) && v.orderId == r.makerOrderId)
    && (v.role == AsTaker ==> r.takerSide == Some(v.side) && v.orderId == r.takerOrderId)
  }

  /** One view, or the maker's and then the taker's. */
  predicate InTurn(views: seq<FillView>) {
    |views| <= 1 || (|views| == 2 && views[0].role == AsMaker && views[1].role == AsTaker)
  }

  ghost predicate HasRole(views: seq<FillView>, role: Role) {
    exists v :: v in views && v.role == role
  }

  /** One view for each side the account was on and for no other, the maker's before the taker's. */
  ghost predicate AreTheSides(views: seq<FillView>, r: FillRecord, user: Uuid, iso: IsoCodec) {
    && (forall role :: HasRole(views, role) <==> TookPart(r, user, role))
    && (forall v :: v in views ==> Tells(v, r, iso))
    && InTurn(views)
  }

  lemma ViewsAreTheSides(r: FillRecord, user: Uuid, iso: IsoCodec)
    ensures AreTheSides(ViewsFor(r, user, iso), r, user, iso)
  {
    var maker := if r.makerSide.Some? then [View(r, r.makerSide.value, AsMaker, r.makerOrderId, iso)] else [];
    var taker := if r.takerSide.Some? then [View(r, r.takerSide.value, AsTaker, r.takerOrderId, iso)] else [];
    var views := ViewsFor(r, user, iso);
    if TookPart(r, user, AsMaker) {
      assert maker[0] in views;
    }
    if TookPart(r, user, AsTaker) {
      assert taker[0] in views;
    }
  }

  /** That description leaves no choice: two lists that meet it are the same list. */
  lemma SidesAreDetermined(a: seq<FillView>, b: seq<FillView>, r: FillRecord, user: Uuid, iso: IsoCodec)
    requires AreTheSides(a, r, user, iso) && AreTheSides(b, r, user, iso)
    ensures a == b
  {
    forall role: Role ensures HasRole(a, role) <==> HasRole(b, role) {
    }
    AtMostTwoSides(a);
    AtMostTwoSides(b);
    assert forall i :: 0 <= i < |a| ==> Tells(a[i], r, iso);
    assert forall i :: 0 <= i < |b| ==> Tells(b[i], r, iso);
  }

  lemma AtMostTwoSides(views: seq<FillView>)
    requires InTurn(views)
    ensures |views| == (if HasRole(views, AsMaker) then 1 else 0) + (if HasRole(views, AsTaker) then 1 else 0)
    ensures HasRole(views, AsMaker) ==> views[0].role == AsMaker
    ensures HasRole(views, AsTaker) ==> views[|views| - 1].role == AsTaker
  {
    if |views| == 2 {
      assert views[0] in views && views[1] in views;
    } else if |views| == 1 {
      assert views[0] in views;
    }
  }

  /**
   * The viewer's own sides of a fill: each view has that side's direction and order, a side the viewer
   * was not on gives none, and a self-trade gives both with the maker's first.
   */
  method FillViewsFor(r: FillRecord, user: Uuid, iso: IsoCodec) returns (views: seq<FillView>)
    ensures forall role :: HasRole(views, role) <==> TookPart(r, user, role)
    ensures forall v :: v in views ==> Tells(v, r, iso)
    ensures InTurn(views)
    ensures views == ViewsFor(r, user, iso)
  {
    views := [];
    if r.makerId == user && r.makerSide.Some? {
      views := views + [View(r, r.makerSide.value, AsMaker, r.makerOrderId, iso)];
    }
    if r.takerId == user && r.takerSide.Some? {
      views := views + [View(r, r.takerSide.value, AsTaker, r.takerOrderId, iso)];
    }
    ViewsAreTheSides(r, user, iso);
  }

  function AllViews(rows: seq<FillRecord>, user: Uuid, iso: IsoCodec): seq<FillView> {
    if rows == [] then [] else AllViews(rows[..|rows| - 1], user, iso) + ViewsFor(rows[|rows| - 1], user, iso)
  }

  lemma {:induction false} AllViewsConcat(a: seq<FillRecord>, b: seq<FillRecord>, user: Uuid, iso: IsoCodec)
    ensures AllViews(a + b, user, iso) == AllViews(a, user, iso) + AllViews(b, user, iso)
  {
    if b == [] {
      assert a + b == a;
    } else {
      assert (a + b)[..|a + b| - 1] == a + b[..|b| - 1];
      AllViewsConcat(a, b[..|b| - 1], user, iso);
    }
  }

  /** An id may stand in a list of views twice, an id with a role only once. */
  ghost predicate UniqueKeys(views: seq<FillView>) {
    forall i, j :: 0 <= i < j < |views| ==> views[i].id != views[j].id || views[i].role != views[j].role
  }

  lemma {:induction false} AllViewsHave(rows: seq<FillRecord>, user: Uuid, iso: IsoCodec, v: FillView)
    ensures v in AllViews(rows, user, iso) <==> exists r :: r in rows && v in ViewsFor(r, user, iso)
  {
    hide ViewsFor;
    if rows != [] {
      var before, last := rows[..|rows| - 1], rows[|rows| - 1];
      AllViewsHave(before, user, iso, v);
      assert rows == before + [last];
      assert last in rows && forall r :: r in before ==> r in rows;
    }
  }

  lemma {:induction false} ViewKeysAreUnique(rows: seq<FillRecord>, user: Uuid, iso: IsoCodec)
    requires UniqueIds(rows)
    ensures UniqueKeys(AllViews(rows, user, iso))
  {
    hide ViewsFor;
    if rows != [] {
      var before, last := rows[..|rows| - 1], rows[|rows| - 1];
      ViewKeysAreUnique(before, user, iso);
      ViewsAreTheSides(last, user, iso);
      var earlier, own := AllViews(before, user, iso), ViewsFor(last, user, iso);
      forall v | v in earlier ensures v.id != last.id {
        AllViewsHave(before, user, iso, v);
        var r :| r in before && v in ViewsFor(r, user, iso);
        ViewsAreTheSides(r, user, iso);
        var k :| 0 <= k < |before| && before[k] == r;
        assert rows[k].id != rows[|rows| - 1].id;
      }
      forall v | v in own ensures v.id == last.id {
      }
      assert AllViews(rows, user, iso) == earlier + own;
    }
  }

  // ----- a page

  const DEFAULT_FILLS_LIMIT := 100
  const MAX_FILLS_LIMIT := 500

  function ClampLimit(limit: Option<int>): (r: nat)
    ensures 1 <= r <= MAX_FILLS_LIMIT
  {
    var wanted := if limit.Some? then limit.value else DEFAULT_FILLS_LIMIT;
    var raised := if wanted < 1 then 1 else wanted;
    if MAX_FILLS_LIMIT < raised then MAX_FILLS_LIMIT else raised
  }

  datatype Response = InvalidCursor | Page(rows: seq<FillRecord>, fills: seq<FillView>, nextCursor: Option<string>)

  function Take(rows: seq<FillRecord>, n: nat): seq<FillRecord> {
    if |rows| > n then rows[..n] else rows
  }

  /** One more row than the limit is read, so that a next page is a fact. */
  function GetFills(table: seq<FillRecord>, user: Uuid, market: Option<Uuid>, limit: Option<int>, before: Option<string>, iso: IsoCodec): Response {
    var n := ClampLimit(limit);
    var given := before.Some? && before.value != "";
    var cursor := if given then DecodeFillCursor(before.value, iso) else None;
    if given && cursor == None then InvalidCursor
    else
      var rows := Take(Listing(table, user, market, cursor), n + 1);
      var page := Take(rows, n);
      Page(page, AllViews(page, user, iso),
        if |rows| > n && page != [] then Some(EncodeFillCursor(CursorOf(page[|page| - 1]), iso)) else None)
  }

  // ----- walking the pages

  datatype Position = Beginning | At(cursor: string) | Finished

  datatype Walk = Walk(rows: seq<FillRecord>, fills: seq<FillView>, next: Position)

  /** The walk after one more answer. */
  function Onward(w: Walk, page: Response): Walk {
    if page.InvalidCursor? then w.(next := Finished)
    else Walk(w.rows + page.rows, w.fills + page.fills, if page.nextCursor == None then Finished else At(page.nextCursor.value))
  }

  /** `tables(k)` is the table as the request for page `k` finds it. */
  function Walked(tables: nat -> seq<FillRecord>, user: Uuid, market: Option<Uuid>, limit: Option<int>, iso: IsoCodec, n: nat): Walk {
    if n == 0 then Walk([], [], Beginning)
    else
      var w := Walked(tables, user, market, limit, iso, n - 1);
      if w.next == Finished then w
      else
        Onward(w, GetFills(tables(n - 1), user, market, limit, if w.next.At? then Some(w.next.cursor) else None, iso))
  }

  predicate IsNew(x: FillRecord, table: seq<FillRecord>, later: seq<FillRecord>) {
    x in later && x !in table
  }

  /** A later table: the same fills, and others that are newer than every fill the walk is about. */
  ghost predicate OnlyNewer(table: seq<FillRecord>, later: seq<FillRecord>, user: Uuid, market: Option<Uuid>) {
    && UniqueIds(later)
    && (forall x :: x in table ==> x in later)
    && (forall x, y :: IsNew(x, table, later) && y in table && Matches(x, user, market, None) && Matches(y, user, market, None) ==>
          Older(y, x))
  }

  // ----- where the next page resumes

  /** The first row from `j` on that is before the cursor. */
  function ResumeFrom(all: seq<FillRecord>, c: Cursor, j: nat): (r: nat)
    requires j <= |all|
    ensures j <= r <= |all|
    ensures forall k :: j <= k < r ==> !IsBefore(all[k], c)
    ensures r < |all| ==> IsBefore(all[r], c)
    decreases |all| - j
  {
    if j == |all| || IsBefore(all[j], c) then j else ResumeFrom(all, c, j + 1)
  }

  /** Where the page after row `i` resumes: the next row, unless that is lost in the cursor's millisecond. */
  function Resume(all: seq<FillRecord>, i: nat): (r: nat)
    requires i < |all|
    ensures i < r <= |all|
  {
    ResumeFrom(all, CursorOf(all[i]), i + 1)
  }

  lemma AfterHas(all: seq<FillRecord>, i: nat, x: FillRecord)
    requires Descending(all) && i < |all|
    ensures x in all[Resume(all, i)..] <==> x in all && IsBefore(x, CursorOf(all[i]))
  {
    hide IsBefore, Older;
    var r, c := Resume(all, i), CursorOf(all[i]);
    if x in all {
      var k :| 0 <= k < |all| && all[k] == x;
      if k >= r {
        assert all[r..][k - r] == x;
        if k > r {
          BeforeGoesDown(all[k], all[r], c);
        }
      } else if k <= i && IsBefore(x, c) {
        BeforeIsOlder(x, all[i]);
        OlderIsTotal(x, all[i]);
        assert false;
      }
      if x in all[r..] {
        var h :| 0 <= h < |all| - r && all[r..][h] == x;
        if h > 0 {
          BeforeGoesDown(all[r + h], all[r], c);
        }
      }
    }
  }

  /** From a fill of the listing on, every later table lists exactly the rest of the first one's rows, from where it resumes. */
  lemma ListingFromHere(table: seq<FillRecord>, later: seq<FillRecord>, user: Uuid, market: Option<Uuid>, i: nat)
    requires UniqueIds(table) && OnlyNewer(table, later, user, market) && i < |Listing(table, user, market, None)|
    ensures var all := Listing(table, user, market, None);
      Listing(later, user, market, Some(CursorOf(all[i]))) == all[Resume(all, i)..]
  {
    hide IsBefore, Older, Sorted, Where, Resume;
    var all := Listing(table, user, market, None);
    var c := CursorOf(all[i]);
    ListingIs(table, user, market, None);
    ListingIs(later, user, market, Some(c));
    forall x ensures x in Listing(later, user, market, Some(c)) <==> x in all[Resume(all, i)..] {
      AfterHas(all, i, x);
      assert all[i] in all;
      if x in later && Matches(x, user, market, Some(c)) && x !in table {
        BeforeIsOlder(x, all[i]);
        OlderIsTotal(all[i], x);
        assert false;
      }
    }
    DescendingIsUnique(Listing(later, user, market, Some(c)), all[Resume(all, i)..]);
  }

  /** The rows a walk returns that stands before row `j`: a page, and then from where the next one resumes. */
  function Visited(all: seq<FillRecord>, size: nat, j: nat): seq<FillRecord>
    requires size >= 1 && j <= |all|
    decreases |all| - j
  {
    if |all| - j <= size then all[j..] else all[j..j + size] + Visited(all, size, Resume(all, j + size - 1))
  }

  function RowsBy(n: nat, limit: nat): nat {
    if n == 0 then 0 else RowsBy(n - 1, limit) + limit
  }

  lemma PageOf(table: seq<FillRecord>, user: Uuid, market: Option<Uuid>, limit: Option<int>, before: Option<string>, iso: IsoCodec,
               cursor: Option<Cursor>, rows: seq<FillRecord>)
    requires if before == None then cursor == None else before.value != "" && cursor.Some? && DecodeFillCursor(before.value, iso) == cursor
    requires Listing(table, user, market, cursor) == rows
    ensures var n, page := ClampLimit(limit), GetFills(table, user, market, limit, before, iso);
      && page.Page?
      && page.rows == Take(rows, n) && page.fills == AllViews(Take(rows, n), user, iso)
      && page.nextCursor == if |rows| > n then Some(EncodeFillCursor(CursorOf(rows[n - 1]), iso)) else None
  {
    hide Listing, DecodeFillCursor, EncodeFillCursor, ClampLimit, AllViews;
    var n := ClampLimit(limit);
    assert Take(Take(rows, n + 1), n) == Take(rows, n);
  }

  /** The walk is over and has visited all it will, or it stands behind row `e - 1`. */
  ghost predicate Stands(w: Walk, all: seq<FillRecord>, size: nat, e: nat, user: Uuid, iso: IsoCodec) {
    && size >= 1
    && w.fills == AllViews(w.rows, user, iso)
    && if w.next == Finished then w.rows == Visited(all, size, 0)
       else
         && 1 <= e < |all|
         && w.next == At(EncodeFillCursor(CursorOf(all[e - 1]), iso))
         && w.rows + Visited(all, size, Resume(all, e - 1)) == Visited(all, size, 0)
  }

  lemma OneVisit(all: seq<FillRecord>, size: nat, j: nat)
    requires size >= 1 && j <= |all|
    ensures Visited(all, size, j) == if |all| - j <= size then all[j..] else all[j..j + size] + Visited(all, size, Resume(all, j + size - 1))
  {
  }

  /** One answer over the rows from `j` on takes the walk a page further. */
  lemma OnePage(w: Walk, page: Response, all: seq<FillRecord>, size: nat, j: nat, user: Uuid, iso: IsoCodec)
    requires size >= 1 && j <= |all| && page.Page?
    requires w.fills == AllViews(w.rows, user, iso) && w.rows + Visited(all, size, j) == Visited(all, size, 0)
    requires page.rows == Take(all[j..], size) && page.fills == AllViews(page.rows, user, iso)
    requires page.nextCursor == if |all[j..]| > size then Some(EncodeFillCursor(CursorOf(all[j..][size - 1]), iso)) else None
    ensures Stands(Onward(w, page), all, size, j + size, user, iso)
  {
    hide EncodeFillCursor, Resume, AllViews, Visited;
    AllViewsConcat(w.rows, page.rows, user, iso);
    OneVisit(all, size, j);
    if |all| - j > size {
      assert all[j..][..size] == all[j..j + size] && all[j..][size - 1] == all[j + size - 1];
      var rest := Visited(all, size, Resume(all, j + size - 1));
      assert w.rows + (page.rows + rest) == w.rows + page.rows + rest;
    }
  }

  lemma FirstPage(table: seq<FillRecord>, user: Uuid, market: Option<Uuid>, limit: Option<int>, iso: IsoCodec)
    ensures Stands(Onward(Walk([], [], Beginning), GetFills(table, user, market, limit, None, iso)),
      Listing(table, user, market, None), ClampLimit(limit), ClampLimit(limit), user, iso)
  {
    hide Listing, DecodeFillCursor, EncodeFillCursor, ClampLimit, AllViews, GetFills, Take, Visited, Stands;
    var all, size := Listing(table, user, market, None), ClampLimit(limit);
    PageOf(table, user, market, limit, None, iso, None, all);
    assert all[0..] == all && [] + Visited(all, size, 0) == Visited(all, size, 0);
    NoViews(user, iso);
    OnePage(Walk([], [], Beginning), GetFills(table, user, market, limit, None, iso), all, size, 0, user, iso);
  }

  lemma NoViews(user: Uuid, iso: IsoCodec)
    ensures AllViews([], user, iso) == []
  {
  }

  lemma NextPage(table: seq<FillRecord>, later: seq<FillRecord>, w: Walk, user: Uuid, market: Option<Uuid>, limit: Option<int>, iso: IsoCodec, e: nat)
    requires Lawful(iso) && UniqueIds(table) && (forall r :: r in table ==> r.id != "") && OnlyNewer(table, later, user, market)
    requires Stands(w, Listing(table, user, market, None), ClampLimit(limit), e, user, iso) && w.next != Finished
    ensures w.next.At? && 1 <= e < |Listing(table, user, market, None)|
    ensures Stands(Onward(w, GetFills(later, user, market, limit, Some(w.next.cursor), iso)),
      Listing(table, user, market, None), ClampLimit(limit), Resume(Listing(table, user, market, None), e - 1) + ClampLimit(limit), user, iso)
  {
    hide Listing, DecodeFillCursor, EncodeFillCursor, ClampLimit, AllViews, GetFills, Lawful, UniqueIds, OnlyNewer, Visited, Resume, Take;
    var all, size := Listing(table, user, market, None), ClampLimit(limit);
    var c := CursorOf(all[e - 1]);
    ListedIds(table, user, market, e - 1);
    CursorRoundTrips(c, iso);
    ListingFromHere(table, later, user, market, e - 1);
    PageOf(later, user, market, limit, Some(EncodeFillCursor(c, iso)), iso, Some(c), all[Resume(all, e - 1)..]);
    OnePage(w, GetFills(later, user, market, limit, Some(w.next.cursor), iso), all, size, Resume(all, e - 1), user, iso);
  }

  lemma ListedIds(table: seq<FillRecord>, user: Uuid, market: Option<Uuid>, i: nat)
    requires UniqueIds(table) && (forall r :: r in table ==> r.id != "") && i < |Listing(table, user, market, None)|
    ensures Listing(table, user, market, None)[i].id != ""
  {
    ListingIs(table, user, market, None);
    assert Listing(table, user, market, None)[i] in Listing(table, user, market, None);
  }

  lemma {:induction false} PagesSoFar(tables: nat -> seq<FillRecord>, user: Uuid, market: Option<Uuid>, limit: Option<int>, iso: IsoCodec, n: nat)
      returns (e: nat)
    requires n >= 1 && Lawful(iso) && UniqueIds(tables(0)) && forall r :: r in tables(0) ==> r.id != ""
    requires forall k :: OnlyNewer(tables(0), tables(k), user, market)
    ensures Stands(Walked(tables, user, market, limit, iso, n), Listing(tables(0), user, market, None), ClampLimit(limit), e, user, iso)
    ensures e >= RowsBy(n, ClampLimit(limit))
    decreases n
  {
    hide Listing, ClampLimit, Stands, Lawful, UniqueIds, OnlyNewer, Onward, GetFills;
    var all, size := Listing(tables(0), user, market, None), ClampLimit(limit);
    if n == 1 {
      assert Walked(tables, user, market, limit, iso, 0) == Walk([], [], Beginning);
      FirstPage(tables(0), user, market, limit, iso);
      assert RowsBy(1, size) == size;
      e := size;
    } else {
      var before := PagesSoFar(tables, user, market, limit, iso, n - 1);
      var w := Walked(tables, user, market, limit, iso, n - 1);
      if w.next == Finished {
        e := before + size;
        FinishedStands(w, all, size, before, e, user, iso);
      } else {
        NextPage(tables(0), tables(n - 1), w, user, market, limit, iso, before);
        e := Resume(all, before - 1) + size;
      }
    }
  }

  lemma FinishedStands(w: Walk, all: seq<FillRecord>, size: nat, e: nat, f: nat, user: Uuid, iso: IsoCodec)
    requires Stands(w, all, size, e, user, iso) && w.next == Finished
    ensures Stands(w, all, size, f, user, iso)
  {
  }

  /** A page holds at least one fill. */
  lemma {:induction false} EnoughPages(n: nat, limit: nat)
    requires limit >= 1
    ensures RowsBy(n, limit) >= n
  {
    if n != 0 {
      EnoughPages(n - 1, limit);
    }
  }

  // ----- which rows a walk visits

  ghost predicate StandsFrom(x: FillRecord, all: seq<FillRecord>, j: nat) {
    exists k :: j <= k < |all| && all[k] == x
  }

  /** The rows are some of those from `j` on. */
  ghost predicate PartFrom(rows: seq<FillRecord>, all: seq<FillRecord>, j: nat) {
    forall h :: 0 <= h < |rows| ==> StandsFrom(rows[h], all, j)
  }

  lemma StandsEarlier(x: FillRecord, all: seq<FillRecord>, j: nat, next: nat)
    requires StandsFrom(x, all, next) && j <= next
    ensures StandsFrom(x, all, j)
  {
  }

  lemma PageThenPart(all: seq<FillRecord>, j: nat, e: nat, next: nat, rest: seq<FillRecord>)
    requires j <= e <= next <= |all| && PartFrom(rest, all, next)
    ensures PartFrom(all[j..e] + rest, all, j)
  {
    hide StandsFrom;
    var page := all[j..e];
    var both := page + rest;
    forall h | 0 <= h < |both| ensures StandsFrom(both[h], all, j) {
      if h < |page| {
        InPage(all, j, e, h);
      } else {
        assert both[h] == rest[h - |page|];
        StandsEarlier(both[h], all, j, next);
      }
    }
  }

  lemma InPage(all: seq<FillRecord>, j: nat, e: nat, h: nat)
    requires j <= e <= |all| && h < e - j
    ensures StandsFrom(all[j..e][h], all, j)
  {
    assert all[j + h] == all[j..e][h];
  }

  lemma PageThenDescends(all: seq<FillRecord>, j: nat, e: nat, next: nat, rest: seq<FillRecord>)
    requires j <= e <= next <= |all| && Descending(all) && Descending(rest) && PartFrom(rest, all, next)
    ensures Descending(all[j..e] + rest)
  {
    hide Older;
    var page := all[j..e];
    var both := page + rest;
    forall a, b | 0 <= a < b < |both| ensures Older(both[b], both[a]) {
      if b < |page| {
        assert both[a] == all[j + a] && both[b] == all[j + b];
      } else if a < |page| {
        assert both[b] == rest[b - |page|] && StandsFrom(rest[b - |page|], all, next);
        var k :| next <= k < |all| && all[k] == both[b];
        assert both[a] == all[j + a] && both[b] == all[k];
      } else {
        assert both[a] == rest[a - |page|] && both[b] == rest[b - |page|];
      }
    }
  }

  lemma {:induction false} VisitedIsPart(all: seq<FillRecord>, size: nat, j: nat)
    requires size >= 1 && j <= |all| && Descending(all)
    ensures |Visited(all, size, j)| <= |all| - j
    ensures PartFrom(Visited(all, size, j), all, j) && Descending(Visited(all, size, j))
    decreases |all| - j
  {
    hide Descending, PartFrom, Resume;
    if |all| - j > size {
      var next := Resume(all, j + size - 1);
      VisitedIsPart(all, size, next);
      PageThenPart(all, j, j + size, next, Visited(all, size, next));
      PageThenDescends(all, j, j + size, next, Visited(all, size, next));
    } else {
      NothingIsPart(all);
      PageThenPart(all, j, |all|, |all|, []);
      PageThenDescends(all, j, |all|, |all|, []);
      assert all[j..|all|] + [] == all[j..];
    }
  }

  lemma NothingIsPart(all: seq<FillRecord>)
    ensures PartFrom([], all, |all|) && Descending([])
  {
  }

  /** At row `m` a page ends and the next fill is before its cursor. */
  predicate CleanCut(all: seq<FillRecord>, m: nat) {
    0 < m < |all| ==> IsBefore(all[m], CursorOf(all[m - 1]))
  }

  /** Every page after the first `n` starts at a clean cut. */
  ghost predicate CutsFrom(all: seq<FillRecord>, size: nat, n: nat) {
    forall k :: k > n ==> CleanCut(all, RowsBy(k, size))
  }

  /** At the end of every page the next fill is before the cursor. */
  ghost predicate CutsCleanly(all: seq<FillRecord>, size: nat) {
    CutsFrom(all, size, 0)
  }

  /** Visiting from `j` on leaves nothing out exactly when the cut behind the page is clean and the rest leaves nothing out. */
  lemma OneCut(all: seq<FillRecord>, size: nat, j: nat)
    requires size >= 1 && |all| - j > size && Descending(all)
    ensures Visited(all, size, j) == all[j..]
      <==> CleanCut(all, j + size) && Visited(all, size, j + size) == all[j + size..]
  {
    hide IsBefore, Descending;
    var next := Resume(all, j + size - 1);
    assert next == j + size <==> CleanCut(all, j + size);
    if next > j + size {
      VisitedIsPart(all, size, next);
      assert |Visited(all, size, j)| < |all[j..]|;
    } else {
      assert all[j..] == all[j..j + size] + all[j + size..];
      assert Visited(all, size, j)[size..] == Visited(all, size, j + size);
      assert all[j..][size..] == all[j + size..];
    }
  }

  lemma {:induction false} AllVisitedIff(all: seq<FillRecord>, size: nat, n: nat)
    requires size >= 1 && Descending(all) && RowsBy(n, size) <= |all|
    ensures Visited(all, size, RowsBy(n, size)) == all[RowsBy(n, size)..] <==> CutsFrom(all, size, n)
    decreases |all| - RowsBy(n, size)
  {
    hide CleanCut, Descending, Resume;
    var j := RowsBy(n, size);
    assert RowsBy(n + 1, size) == j + size;
    if |all| - j <= size {
      forall k | k > n ensures CleanCut(all, RowsBy(k, size)) {
        RowsGrow(n + 1, k, size);
        NoCutAtTheEnd(all, RowsBy(k, size));
      }
    } else {
      AllVisitedIff(all, size, n + 1);
      OneCut(all, size, j);
      assert CutsFrom(all, size, n) <==> CleanCut(all, RowsBy(n + 1, size)) && CutsFrom(all, size, n + 1);
    }
  }

  lemma NoCutAtTheEnd(all: seq<FillRecord>, m: nat)
    requires m >= |all|
    ensures CleanCut(all, m)
  {
  }

  lemma {:induction false} RowsGrow(n: nat, k: nat, size: nat)
    requires n <= k
    ensures RowsBy(n, size) <= RowsBy(k, size)
    decreases k
  {
    if n < k {
      RowsGrow(n, k - 1, size);
    }
  }

  /** Strictly descending rows have distinct ids. */
  lemma DescendingIdsAreUnique(rows: seq<FillRecord>)
    requires Descending(rows) && forall i, j :: 0 <= i < |rows| && 0 <= j < |rows| && rows[i].id == rows[j].id ==> rows[i] == rows[j]
    ensures UniqueIds(rows)
  {
    hide Older;
    forall i, j | 0 <= i < j < |rows| ensures rows[i].id != rows[j].id {
      OlderIsTotal(rows[i], rows[j]);
    }
  }

  /** Fills of that table that match, none of them twice, newest first. */
  ghost predicate NoneTwice(rows: seq<FillRecord>, table: seq<FillRecord>, user: Uuid, market: Option<Uuid>) {
    && Descending(rows)
    && UniqueIds(rows)
    && forall r :: r in rows ==> r in table && Matches(r, user, market, None)
  }

  /** And all of them. */
  ghost predicate AllOnce(rows: seq<FillRecord>, table: seq<FillRecord>, user: Uuid, market: Option<Uuid>) {
    NoneTwice(rows, table, user, market) && forall r :: r in table && Matches(r, user, market, None) ==> r in rows
  }

  lemma VisitedNoneTwice(table: seq<FillRecord>, user: Uuid, market: Option<Uuid>, size: nat)
    requires UniqueIds(table) && size >= 1
    ensures NoneTwice(Visited(Listing(table, user, market, None), size, 0), table, user, market)
  {
    hide Matches, Descending, Visited, Listing;
    var all := Listing(table, user, market, None);
    var rows := Visited(all, size, 0);
    ListingIs(table, user, market, None);
    VisitedIsPart(all, size, 0);
    forall h | 0 <= h < |rows| ensures rows[h] in all {
      assert StandsFrom(rows[h], all, 0);
    }
    forall i, j | 0 <= i < |rows| && 0 <= j < |rows| && rows[i].id == rows[j].id ensures rows[i] == rows[j] {
      assert rows[i] in table && rows[j] in table;
    }
    DescendingIdsAreUnique(rows);
  }

  lemma AllOnceIff(table: seq<FillRecord>, user: Uuid, market: Option<Uuid>, size: nat)
    requires UniqueIds(table) && size >= 1
    ensures var all := Listing(table, user, market, None);
      AllOnce(Visited(all, size, 0), table, user, market) <==> CutsCleanly(all, size)
  {
    hide Matches, Descending, Visited, UniqueIds, CutsFrom, Listing;
    var all := Listing(table, user, market, None);
    ListingIs(table, user, market, None);
    VisitedNoneTwice(table, user, market, size);
    AllVisitedIff(all, size, 0);
    assert all[0..] == all;
    if AllOnce(Visited(all, size, 0), table, user, market) {
      DescendingIsUnique(Visited(all, size, 0), all);
    }
  }

  /**
   * Walking the pages. Following `nextCursor` from the start, with any limit, any number of equal time
   * stamps and newer fills arriving between requests, ends once the pages could hold every matching fill,
   * so after at most one page more than there are fills. What it returned are matching fills of the first
   * table in strictly descending order, none twice, with each side the account was on told once. It
   * returned all of them if and only if at the end of every page the next fill is before the cursor.
   */
  lemma WalkVisitsEveryFillOnceIff(tables: nat -> seq<FillRecord>, user: Uuid, market: Option<Uuid>, limit: Option<int>, iso: IsoCodec, n: nat)
    requires Lawful(iso) && UniqueIds(tables(0)) && forall r :: r in tables(0) ==> r.id != ""
    requires forall k :: OnlyNewer(tables(0), tables(k), user, market)
    ensures var w, all := Walked(tables, user, market, limit, iso, n), Listing(tables(0), user, market, None);
      && (n >= 1 && RowsBy(n, ClampLimit(limit)) >= |all| ==> w.next == Finished)
      && (n > |all| ==> w.next == Finished)
      && (w.next == Finished ==>
            && NoneTwice(w.rows, tables(0), user, market)
            && w.fills == AllViews(w.rows, user, iso)
            && UniqueKeys(w.fills)
            && (AllOnce(w.rows, tables(0), user, market) <==> CutsCleanly(all, ClampLimit(limit))))
  {
    hide Listing, AllViews, ClampLimit, EncodeFillCursor, OnlyNewer, Matches, Descending, Onward, GetFills, UniqueKeys, AllOnce, Visited, CutsCleanly, Resume;
    if n >= 1 {
      var e := PagesSoFar(tables, user, market, limit, iso, n);
      var size := ClampLimit(limit);
      EnoughPages(n, size);
      VisitedNoneTwice(tables(0), user, market, size);
      AllOnceIff(tables(0), user, market, size);
      ViewKeysAreUnique(Visited(Listing(tables(0), user, market, None), size, 0), user, iso);
    }
  }

  /** With time stamps of whole milliseconds every page cuts cleanly, so the walk returns every fill. */
  lemma WholeMillisecondsCutCleanly(table: seq<FillRecord>, user: Uuid, market: Option<Uuid>, size: nat)
    requires UniqueIds(table) && forall r :: r in table ==> r.createdAt % 1000 == 0
    ensures CutsCleanly(Listing(table, user, market, None), size)
  {
    hide IsBefore, Listing;
    var all := Listing(table, user, market, None);
    ListingIs(table, user, market, None);
    forall n | n > 0 ensures CleanCut(all, RowsBy(n, size)) {
      var m := RowsBy(n, size);
      if 0 < m < |all| {
        assert all[m - 1] in all;
        WholeStampsAreKept(all[m], all[m - 1]);
      }
    }
  }

  /** So a walk over fills stamped in whole milliseconds is a partition, for every limit. */
  lemma WalkVisitsEveryFillOnce(tables: nat -> seq<FillRecord>, user: Uuid, market: Option<Uuid>, limit: Option<int>, iso: IsoCodec, n: nat)
    requires Lawful(iso) && UniqueIds(tables(0)) && forall r :: r in tables(0) ==> r.id != "" && r.createdAt % 1000 == 0
    requires forall k :: OnlyNewer(tables(0), tables(k), user, market)
    requires n > |Listing(tables(0), user, market, None)|
    ensures var w := Walked(tables, user, market, limit, iso, n);
      && w.next == Finished
      && AllOnce(w.rows, tables(0), user, market)
      && w.fills == AllViews(w.rows, user, iso) && UniqueKeys(w.fills)
  {
    hide Listing, AllViews, ClampLimit, OnlyNewer, Walked, UniqueKeys, AllOnce, NoneTwice, CutsCleanly, Lawful;
    WalkVisitsEveryFillOnceIff(tables, user, market, limit, iso, n);
    WholeMillisecondsCutCleanly(tables(0), user, market, ClampLimit(limit));
  }

  /**
   * A transaction that writes two fills stamps them alike, and hardly ever at a whole millisecond. When a
   * page ends between them the second one is on no page: the cursor's millisecond lies before both.
   */
  lemma SplitTransactionLosesAFill(a: FillRecord, b: FillRecord, user: Uuid, iso: IsoCodec)
    requires Lawful(iso) && a.createdAt == b.createdAt && a.createdAt % 1000 != 0 && Less(a.id, b.id) && a.id != "" && b.id != ""
    requires a.makerId == user && b.makerId == user
    ensures var table := [a, b];
      var first := GetFills(table, user, None, Some(1), None, iso);
      && first.Page? && first.rows == [b] && first.nextCursor.Some?
      && var second := GetFills(table, user, None, Some(1), first.nextCursor, iso);
      && second.Page? && second.rows == [] && second.nextCursor == None
  {
    hide IsBefore, EncodeFillCursor, DecodeFillCursor;
    var table := [a, b];
    TwoFills(a, b, user);
    assert ClampLimit(Some(1)) == 1;
    var c := CursorOf(b);
    CursorRoundTrips(c, iso);
    PageOf(table, user, None, Some(1), None, iso, None, [b, a]);
    PageOf(table, user, None, Some(1), Some(EncodeFillCursor(c, iso)), iso, Some(c), []);
  }

  lemma TwoFills(a: FillRecord, b: FillRecord, user: Uuid)
    requires a.createdAt == b.createdAt && a.createdAt % 1000 != 0 && Less(a.id, b.id) && a.makerId == user && b.makerId == user
    ensures Listing([a, b], user, None, None) == [b, a]
    ensures Listing([a, b], user, None, Some(CursorOf(b))) == []
  {
    OlderIsTotal(a, b);
    assert [a, b][1..] == [b] && [b][1..] == [];
    assert Where([b], user, None, None) == [b] && Where([a, b], user, None, None) == [a, b];
    assert Sorted([b]) == [b] && Sorted([a, b][1..]) == [b];
    assert Sorted([a, b]) == Insert(a, [b]);
    assert Insert(a, [b][1..]) == [a];
    assert !IsBefore(a, CursorOf(b)) && !IsBefore(b, CursorOf(b));
    assert Where([b], user, None, Some(CursorOf(b))) == [];
  }
}
