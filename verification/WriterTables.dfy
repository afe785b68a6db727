/** What one engine reply does to the database: all of its rows, or nothing. */
module WriterTables {
  import opened Exchange

  /** An order row: the placed order, and the two columns that are updated later. */
  datatype OrderRow = OrderRow(order: Order, status: Status, filledQty: real)

  datatype FillRow = FillRow(id: Uuid, fill: Fill)

  datatype Tables = Tables(processed: set<Uuid>, orders: map<Uuid, OrderRow>, fills: map<Uuid, FillRow>)

  datatype Entry =
    | OrderInserts(orderRows: seq<OrderRow>)
    | OrderUpdates(updates: seq<OrderUpdate>)
    | FillInserts(fillRows: seq<FillRow>)

  /** A parsed engine reply; refusals and queries carry no writer. */
  datatype Payload = Payload(correlationId: Uuid, writer: Option<seq<Entry>>)

  function Size(e: Entry): nat {
    match e
    case OrderInserts(rows) => |rows|
    case OrderUpdates(us) => |us|
    case FillInserts(rows) => |rows|
  }

  predicate HasRowsToWrite(writer: seq<Entry>) {
    exists i :: 0 <= i < |writer| && Size(writer[i]) > 0
  }

  /** The first entry of each table is the one that is written. */
  function InsertsOf(writer: seq<Entry>): seq<OrderRow> {
    if writer == [] then [] else if writer[0].OrderInserts? then writer[0].orderRows else InsertsOf(writer[1..])
  }

  function UpdatesOf(writer: seq<Entry>): seq<OrderUpdate> {
    if writer == [] then [] else if writer[0].OrderUpdates? then writer[0].updates else UpdatesOf(writer[1..])
  }

  function FillsOf(writer: seq<Entry>): seq<FillRow> {
    if writer == [] then [] else if writer[0].FillInserts? then writer[0].fillRows else FillsOf(writer[1..])
  }

  /** `None` is a violated unique key. */
  function InsertOrders(t: Tables, rows: seq<OrderRow>): Option<Tables> {
    if rows == [] then Some(t)
    else
      var n := |rows| - 1;
      var before := InsertOrders(t, rows[..n]);
      if before == None || rows[n].order.id in before.value.orders then None
      else Some(before.value.(orders := before.value.orders[rows[n].order.id := rows[n]]))
  }

  function UpdateOrder(t: Tables, u: OrderUpdate): Tables {
    if u.orderId in t.orders && t.orders[u.orderId].order.userId == u.userId
    then t.(orders := t.orders[u.orderId := t.orders[u.orderId].(status := u.status, filledQty := u.filledQty)])
    else t
  }

  function UpdateOrders(t: Tables, us: seq<OrderUpdate>): Tables {
    if us == [] then t else UpdateOrder(UpdateOrders(t, us[..|us| - 1]), us[|us| - 1])
  }

  function InsertFills(t: Tables, rows: seq<FillRow>): Option<Tables> {
    if rows == [] then Some(t)
    else
      var n := |rows| - 1;
      var before := InsertFills(t, rows[..n]);
      if before == None || rows[n].id in before.value.fills then None
      else Some(before.value.(fills := before.value.fills[rows[n].id := rows[n]]))
  }

  predicate HasRows(p: Payload) {
    p.writer.Some? && HasRowsToWrite(p.writer.value)
  }

  /** The whole transaction: the idempotency key first, then inserts, updates, fills. */
  function Effect(t: Tables, p: Payload): Option<Tables>
    requires HasRows(p)
  {
    if p.correlationId in t.processed then None
    else
      var inserted := InsertOrders(t.(processed := t.processed + {p.correlationId}), InsertsOf(p.writer.value));
      if inserted == None then None
      else InsertFills(UpdateOrders(inserted.value, UpdatesOf(p.writer.value)), FillsOf(p.writer.value))
  }

  // ----- what the transaction comes to

  function OrderIds(rows: seq<OrderRow>): seq<Uuid> {
    if rows == [] then [] else OrderIds(rows[..|rows| - 1]) + [rows[|rows| - 1].order.id]
  }

  function FillIds(rows: seq<FillRow>): seq<Uuid> {
    if rows == [] then [] else FillIds(rows[..|rows| - 1]) + [rows[|rows| - 1].id]
  }

  /** None of the ids is taken, and none is there twice. */
  ghost predicate FreshIds(taken: set<Uuid>, ids: seq<Uuid>) {
    && (forall id :: id in ids ==> id !in taken)
    && forall i, j :: 0 <= i < j < |ids| ==> ids[i] != ids[j]
  }

  lemma FreshPush(taken: set<Uuid>, ids: seq<Uuid>, id: Uuid)
    ensures FreshIds(taken, ids + [id]) <==> FreshIds(taken, ids) && id !in taken && id !in ids
  {
    var all := ids + [id];
    assert all[|ids|] == id && forall i :: 0 <= i < |ids| ==> all[i] == ids[i];
    if id in ids {
      var k :| 0 <= k < |ids| && ids[k] == id;
      assert all[k] == id == all[|ids|];
    }
  }

  lemma NothingIsFresh(taken: set<Uuid>)
    ensures FreshIds(taken, [])
  {
  }

  lemma {:induction false} InsertOrdersFailsIff(t: Tables, rows: seq<OrderRow>)
    ensures InsertOrders(t, rows).Some? <==> FreshIds(t.orders.Keys, OrderIds(rows))
    ensures InsertOrders(t, rows).Some? ==>
      var after := InsertOrders(t, rows).value;
      && after.processed == t.processed && after.fills == t.fills
      && forall id :: id in after.orders <==> id in t.orders || id in OrderIds(rows)
  {
    hide FreshIds;
    if rows == [] {
      NothingIsFresh(t.orders.Keys);
    } else {
      var n := |rows| - 1;
      InsertOrdersFailsIff(t, rows[..n]);
      FreshPush(t.orders.Keys, OrderIds(rows[..n]), rows[n].order.id);
    }
  }

  lemma {:induction false} InsertOrdersKeepsRows(t: Tables, rows: seq<OrderRow>)
    requires InsertOrders(t, rows).Some?
    ensures var after := InsertOrders(t, rows).value;
      && (forall id :: id in t.orders ==> id in after.orders && after.orders[id] == t.orders[id])
      && forall i :: 0 <= i < |rows| ==> rows[i].order.id in after.orders && after.orders[rows[i].order.id] == rows[i]
  {
    if rows != [] {
      InsertOrdersKeepsRows(t, rows[..|rows| - 1]);
    }
  }

  lemma {:induction false} InsertFillsFailsIff(t: Tables, rows: seq<FillRow>)
    ensures InsertFills(t, rows).Some? <==> FreshIds(t.fills.Keys, FillIds(rows))
    ensures InsertFills(t, rows).Some? ==>
      var after := InsertFills(t, rows).value;
      && after.processed == t.processed && after.orders == t.orders
      && forall id :: id in after.fills <==> id in t.fills || id in FillIds(rows)
  {
    hide FreshIds;
    if rows == [] {
      NothingIsFresh(t.fills.Keys);
    } else {
      var n := |rows| - 1;
      InsertFillsFailsIff(t, rows[..n]);
      FreshPush(t.fills.Keys, FillIds(rows[..n]), rows[n].id);
    }
  }

  lemma {:induction false} InsertFillsKeepsRows(t: Tables, rows: seq<FillRow>)
    requires InsertFills(t, rows).Some?
    ensures var after := InsertFills(t, rows).value;
      && (forall id :: id in t.fills ==> id in after.fills && after.fills[id] == t.fills[id])
      && forall i :: 0 <= i < |rows| ==> rows[i].id in after.fills && after.fills[rows[i].id] == rows[i]
  {
    if rows != [] {
      InsertFillsKeepsRows(t, rows[..|rows| - 1]);
    }
  }

  /** Updates touch only status and filled quantity, and only of orders that are there. */
  lemma {:induction false} UpdatesKeepRows(t: Tables, us: seq<OrderUpdate>)
    ensures var after := UpdateOrders(t, us);
      && after.processed == t.processed && after.fills == t.fills && after.orders.Keys == t.orders.Keys
      && forall id :: id in t.orders ==> after.orders[id].order == t.orders[id].order
  {
    if us != [] {
      UpdatesKeepRows(t, us[..|us| - 1]);
    }
  }

  /**
   * A reply is refused as a duplicate exactly when its correlation id is already processed or one of
   * the row ids it inserts is taken or repeated.
   */
  lemma EffectFailsIff(t: Tables, p: Payload)
    requires HasRows(p)
    ensures Effect(t, p) == None <==>
      || p.correlationId in t.processed
      || !FreshIds(t.orders.Keys, OrderIds(InsertsOf(p.writer.value)))
      || !FreshIds(t.fills.Keys, FillIds(FillsOf(p.writer.value)))
  {
    var marked := t.(processed := t.processed + {p.correlationId});
    InsertOrdersFailsIff(marked, InsertsOf(p.writer.value));
    if p.correlationId !in t.processed && InsertOrders(marked, InsertsOf(p.writer.value)).Some? {
      var inserted := InsertOrders(marked, InsertsOf(p.writer.value)).value;
      UpdatesKeepRows(inserted, UpdatesOf(p.writer.value));
      InsertFillsFailsIff(UpdateOrders(inserted, UpdatesOf(p.writer.value)), FillsOf(p.writer.value));
    }
  }

  /** The rows of a reply stand in the tables: its orders (whatever became of them since) and its fills. */
  ghost predicate Holds(t: Tables, p: Payload)
    requires HasRows(p)
  {
    && p.correlationId in t.processed
    && (forall row :: row in InsertsOf(p.writer.value) ==> row.order.id in t.orders && t.orders[row.order.id].order == row.order)
    && (forall row :: row in FillsOf(p.writer.value) ==> row.id in t.fills && t.fills[row.id] == row)
  }

  /** Rows never go away and never change but for an order's status and filled quantity. */
  ghost predicate Grows(t: Tables, after: Tables) {
    && t.processed <= after.processed
    && (forall id :: id in t.orders ==> id in after.orders && after.orders[id].order == t.orders[id].order)
    && (forall id :: id in t.fills ==> id in after.fills && after.fills[id] == t.fills[id])
  }

  /** A committed reply is in the tables whole, and nothing else was lost for it. */
  lemma EffectIsWhole(t: Tables, p: Payload)
    requires HasRows(p) && Effect(t, p).Some?
    ensures var after := Effect(t, p).value;
      && Holds(after, p) && Grows(t, after)
      && after.processed == t.processed + {p.correlationId}
      && (forall id :: id in after.orders <==> id in t.orders || id in OrderIds(InsertsOf(p.writer.value)))
      && (forall id :: id in after.fills <==> id in t.fills || id in FillIds(FillsOf(p.writer.value)))
  {
    hide FreshIds;
    var rows, fillRows := InsertsOf(p.writer.value), FillsOf(p.writer.value);
    var marked := t.(processed := t.processed + {p.correlationId});
    InsertOrdersFailsIff(marked, rows);
    InsertOrdersKeepsRows(marked, rows);
    var inserted := InsertOrders(marked, rows).value;
    var updated := UpdateOrders(inserted, UpdatesOf(p.writer.value));
    UpdatesKeepRows(inserted, UpdatesOf(p.writer.value));
    InsertFillsFailsIff(updated, fillRows);
    InsertFillsKeepsRows(updated, fillRows);
  }

  lemma HoldsOn(t: Tables, after: Tables, p: Payload)
    requires HasRows(p) && Holds(t, p) && Grows(t, after)
    ensures Holds(after, p)
  {
  }

  // ----- what an order row ends with

  /** The last of the updates told of an order of an account. */
  function LastUpdate(us: seq<OrderUpdate>, id: Uuid, user: Uuid): Option<OrderUpdate> {
    if us == [] then None
    else if us[|us| - 1].orderId == id && us[|us| - 1].userId == user then Some(us[|us| - 1])
    else LastUpdate(us[..|us| - 1], id, user)
  }

  function WithUpdate(row: OrderRow, u: Option<OrderUpdate>): OrderRow {
    if u == None then row else row.(status := u.value.status, filledQty := u.value.filledQty)
  }

  lemma {:induction false} LastUpdateConcat(a: seq<OrderUpdate>, b: seq<OrderUpdate>, id: Uuid, user: Uuid)
    ensures LastUpdate(a + b, id, user) == if LastUpdate(b, id, user).Some? then LastUpdate(b, id, user) else LastUpdate(a, id, user)
  {
    if b == [] {
      assert a + b == a;
    } else {
      assert (a + b)[..|a + b| - 1] == a + b[..|b| - 1];
      LastUpdateConcat(a, b[..|b| - 1], id, user);
    }
  }

  lemma {:induction false} UpdatesLeaveTheLast(t: Tables, us: seq<OrderUpdate>, id: Uuid)
    requires id in t.orders
    ensures var row := t.orders[id];
      id in UpdateOrders(t, us).orders && UpdateOrders(t, us).orders[id] == WithUpdate(row, LastUpdate(us, id, row.order.userId))
  {
    if us != [] {
      UpdatesLeaveTheLast(t, us[..|us| - 1], id);
    }
  }

  /** A committed reply leaves an order row that was there with the last update it carries of it. */
  lemma EffectLeavesTheLast(t: Tables, p: Payload, id: Uuid)
    requires HasRows(p) && Effect(t, p).Some? && id in t.orders
    ensures var row := t.orders[id];
      && id in Effect(t, p).value.orders
      && Effect(t, p).value.orders[id] == WithUpdate(row, LastUpdate(UpdatesOf(p.writer.value), id, row.order.userId))
  {
    var marked := t.(processed := t.processed + {p.correlationId});
    InsertOrdersKeepsRows(marked, InsertsOf(p.writer.value));
    var inserted := InsertOrders(marked, InsertsOf(p.writer.value)).value;
    UpdatesLeaveTheLast(inserted, UpdatesOf(p.writer.value), id);
    InsertFillsFailsIff(UpdateOrders(inserted, UpdatesOf(p.writer.value)), FillsOf(p.writer.value));
  }

  // ----- in terms of what the reply carries

  /** The rows a reply writes to a table are those of its first entry for it; later ones are not read. */
  ghost predicate CarriesOrders(w: seq<Entry>, rows: seq<OrderRow>) {
    if exists i :: 0 <= i < |w| && w[i].OrderInserts?
    then exists i :: 0 <= i < |w| && w[i] == OrderInserts(rows) && forall j :: 0 <= j < i ==> !w[j].OrderInserts?
    else rows == []
  }

  ghost predicate CarriesUpdates(w: seq<Entry>, us: seq<OrderUpdate>) {
    if exists i :: 0 <= i < |w| && w[i].OrderUpdates?
    then exists i :: 0 <= i < |w| && w[i] == OrderUpdates(us) && forall j :: 0 <= j < i ==> !w[j].OrderUpdates?
    else us == []
  }

  ghost predicate CarriesFills(w: seq<Entry>, rows: seq<FillRow>) {
    if exists i :: 0 <= i < |w| && w[i].FillInserts?
    then exists i :: 0 <= i < |w| && w[i] == FillInserts(rows) && forall j :: 0 <= j < i ==> !w[j].FillInserts?
    else rows == []
  }

  lemma {:induction false} CarriedOrders(w: seq<Entry>, rows: seq<OrderRow>)
    ensures CarriesOrders(w, rows) <==> rows == InsertsOf(w)
  {
    if w != [] {
      CarriedOrders(w[1..], rows);
      if !w[0].OrderInserts? {
        assert forall i :: 0 < i < |w| ==> w[i] == w[1..][i - 1];
        assert forall i :: 0 <= i < |w[1..]| ==> w[1..][i] == w[i + 1];
      }
    }
  }

  lemma {:induction false} CarriedUpdates(w: seq<Entry>, us: seq<OrderUpdate>)
    ensures CarriesUpdates(w, us) <==> us == UpdatesOf(w)
  {
    if w != [] {
      CarriedUpdates(w[1..], us);
      if !w[0].OrderUpdates? {
        assert forall i :: 0 < i < |w| ==> w[i] == w[1..][i - 1];
        assert forall i :: 0 <= i < |w[1..]| ==> w[1..][i] == w[i + 1];
      }
    }
  }

  lemma {:induction false} CarriedFills(w: seq<Entry>, rows: seq<FillRow>)
    ensures CarriesFills(w, rows) <==> rows == FillsOf(w)
  {
    if w != [] {
      CarriedFills(w[1..], rows);
      if !w[0].FillInserts? {
        assert forall i :: 0 < i < |w| ==> w[i] == w[1..][i - 1];
        assert forall i :: 0 <= i < |w[1..]| ==> w[1..][i] == w[i + 1];
      }
    }
  }

  /** No two rows have one id, and none has an id that is taken. */
  ghost predicate NewOrders(t: Tables, rows: seq<OrderRow>) {
    && (forall i :: 0 <= i < |rows| ==> rows[i].order.id !in t.orders)
    && (forall i, j :: 0 <= i < j < |rows| ==> rows[i].order.id != rows[j].order.id)
  }

  ghost predicate NewFills(t: Tables, rows: seq<FillRow>) {
    && (forall i :: 0 <= i < |rows| ==> rows[i].id !in t.fills)
    && (forall i, j :: 0 <= i < j < |rows| ==> rows[i].id != rows[j].id)
  }

  lemma {:induction false} IdsOfOrders(rows: seq<OrderRow>)
    ensures |OrderIds(rows)| == |rows| && forall i :: 0 <= i < |rows| ==> OrderIds(rows)[i] == rows[i].order.id
  {
    if rows != [] {
      IdsOfOrders(rows[..|rows| - 1]);
    }
  }

  lemma {:induction false} IdsOfFills(rows: seq<FillRow>)
    ensures |FillIds(rows)| == |rows| && forall i :: 0 <= i < |rows| ==> FillIds(rows)[i] == rows[i].id
  {
    if rows != [] {
      IdsOfFills(rows[..|rows| - 1]);
    }
  }

  lemma NewOrdersAreFresh(t: Tables, rows: seq<OrderRow>)
    ensures NewOrders(t, rows) <==> FreshIds(t.orders.Keys, OrderIds(rows))
  {
    IdsOfOrders(rows);
    var ids := OrderIds(rows);
    if FreshIds(t.orders.Keys, ids) {
      forall i | 0 <= i < |rows| ensures rows[i].order.id !in t.orders {
        assert ids[i] in ids;
      }
    }
  }

  lemma NewFillsAreFresh(t: Tables, rows: seq<FillRow>)
    ensures NewFills(t, rows) <==> FreshIds(t.fills.Keys, FillIds(rows))
  {
    IdsOfFills(rows);
    var ids := FillIds(rows);
    if FreshIds(t.fills.Keys, ids) {
      forall i | 0 <= i < |rows| ensures rows[i].id !in t.fills {
        assert ids[i] in ids;
      }
    }
  }

  /**
   * The whole of a reply's transaction. It goes through if and only if the reply's key and all ids of the
   * rows it inserts are new. Then the key is marked; the order rows are those there were and those it
   * carries, each with the last update it carries of it; and the fill rows are those there were and those
   * it carries.
   */
  lemma EffectIsItsRows(t: Tables, p: Payload, rows: seq<OrderRow>, us: seq<OrderUpdate>, fills: seq<FillRow>)
    requires HasRows(p) && CarriesOrders(p.writer.value, rows) && CarriesUpdates(p.writer.value, us) && CarriesFills(p.writer.value, fills)
    ensures Effect(t, p).Some? <==> p.correlationId !in t.processed && NewOrders(t, rows) && NewFills(t, fills)
    ensures Effect(t, p).Some? ==>
      var after := Effect(t, p).value;
      && after.processed == t.processed + {p.correlationId}
      && (forall id :: id in after.orders <==> id in t.orders || exists i :: 0 <= i < |rows| && rows[i].order.id == id)
      && (forall id :: id in t.orders ==> after.orders[id] == WithUpdate(t.orders[id], LastUpdate(us, id, t.orders[id].order.userId)))
      && (forall i :: 0 <= i < |rows| ==>
            after.orders[rows[i].order.id] == WithUpdate(rows[i], LastUpdate(us, rows[i].order.id, rows[i].order.userId)))
      && (forall id :: id in after.fills <==> id in t.fills || exists i :: 0 <= i < |fills| && fills[i].id == id)
      && (forall id :: id in t.fills ==> after.fills[id] == t.fills[id])
      && (forall i :: 0 <= i < |fills| ==> after.fills[fills[i].id] == fills[i])
  {
    hide CarriesOrders, CarriesUpdates, CarriesFills, FreshIds, InsertsOf, UpdatesOf, FillsOf, HasRowsToWrite, LastUpdate, NewOrders, NewFills;
    CarriedOrders(p.writer.value, rows);
    CarriedUpdates(p.writer.value, us);
    CarriedFills(p.writer.value, fills);
    NewOrdersAreFresh(t, rows);
    NewFillsAreFresh(t, fills);
    EffectFailsIff(t, p);
    if Effect(t, p).Some? {
      EffectIsWhole(t, p);
      EffectRows(t, p, rows, us, fills);
      IdsOfOrders(rows);
      IdsOfFills(fills);
    }
  }

  lemma EffectRows(t: Tables, p: Payload, rows: seq<OrderRow>, us: seq<OrderUpdate>, fills: seq<FillRow>)
    requires HasRows(p) && Effect(t, p).Some? && rows == InsertsOf(p.writer.value) && us == UpdatesOf(p.writer.value) && fills == FillsOf(p.writer.value)
    ensures var after := Effect(t, p).value;
      && (forall id :: id in t.orders ==>
            id in after.orders && after.orders[id] == WithUpdate(t.orders[id], LastUpdate(us, id, t.orders[id].order.userId)))
      && (forall i :: 0 <= i < |rows| ==>
            rows[i].order.id in after.orders && after.orders[rows[i].order.id] == WithUpdate(rows[i], LastUpdate(us, rows[i].order.id, rows[i].order.userId)))
      && (forall id :: id in t.fills ==> id in after.fills && after.fills[id] == t.fills[id])
      && (forall i :: 0 <= i < |fills| ==> fills[i].id in after.fills && after.fills[fills[i].id] == fills[i])
  {
    hide InsertsOf, UpdatesOf, FillsOf, LastUpdate, WithUpdate, InsertOrders, UpdateOrders, InsertFills, FreshIds;
    var marked := t.(processed := t.processed + {p.correlationId});
    var inserted := InsertOrders(marked, rows).value;
    InsertOrdersFailsIff(marked, rows);
    InsertOrdersKeepsRows(marked, rows);
    var updated := UpdateOrders(inserted, us);
    UpdatesKeepRows(inserted, us);
    InsertFillsFailsIff(updated, fills);
    InsertFillsKeepsRows(updated, fills);
    forall id | id in t.orders ensures updated.orders[id] == WithUpdate(t.orders[id], LastUpdate(us, id, t.orders[id].order.userId)) {
      UpdatesLeaveTheLast(inserted, us, id);
    }
    forall i | 0 <= i < |rows|
      ensures updated.orders[rows[i].order.id] == WithUpdate(rows[i], LastUpdate(us, rows[i].order.id, rows[i].order.userId)) {
      UpdatesLeaveTheLast(inserted, us, rows[i].order.id);
    }
  }
}
