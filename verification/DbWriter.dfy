/** The writer: one transaction per engine reply, in batches of a hundred rows. */
module DbWriterClass {
  import opened Exchange
  import opened WriterTables

  const MAX_BATCH: nat := 100

  datatype Statement = Done | UniqueViolation | Failed

  datatype Result = Returned | Duplicate | Threw

  /** An open transaction: what it would commit. A database that is not healthy may fail any statement. */
  class Transaction {
    var tables: Tables
    const healthy: bool

    constructor (tables: Tables, healthy: bool)
      ensures this.tables == tables && this.healthy == healthy
    {
      this.tables := tables;
      this.healthy := healthy;
    }

    method InsertKey(key: Uuid) returns (r: Statement)
      modifies this
      ensures r == Done ==> key !in old(tables.processed) && tables == old(tables).(processed := old(tables).processed + {key})
      ensures r == UniqueViolation ==> key in old(tables.processed)
      ensures r == Failed ==> !healthy
    {
      var fails := *;
      if fails && !healthy {
        return Failed;
      }
      if key in tables.processed {
        return UniqueViolation;
      }
      tables := tables.(processed := tables.processed + {key});
      r := Done;
    }

    method InsertOrderRows(batch: seq<OrderRow>) returns (r: Statement)
      modifies this
      ensures r == Done ==> InsertOrders(old(tables), batch) == Some(tables)
      ensures r == UniqueViolation ==> InsertOrders(old(tables), batch) == None
      ensures r == Failed ==> !healthy
    {
      var fails := *;
      if fails && !healthy {
        return Failed;
      }
      var after := InsertOrders(tables, batch);
      if after == None {
        return UniqueViolation;
      }
      tables := after.value;
      r := Done;
    }

    method InsertFillRows(batch: seq<FillRow>) returns (r: Statement)
      modifies this
      ensures r == Done ==> InsertFills(old(tables), batch) == Some(tables)
      ensures r == UniqueViolation ==> InsertFills(old(tables), batch) == None
      ensures r == Failed ==> !healthy
    {
      var fails := *;
      if fails && !healthy {
        return Failed;
      }
      var after := InsertFills(tables, batch);
      if after == None {
        return UniqueViolation;
      }
      tables := after.value;
      r := Done;
    }

    method UpdateOrderRow(u: OrderUpdate) returns (r: Statement)
      modifies this
      ensures r == Done ==> tables == UpdateOrder(old(tables), u)
      ensures r != UniqueViolation
      ensures r == Failed ==> !healthy
    {
      var fails := *;
      if fails && !healthy {
        return Failed;
      }
      tables := UpdateOrder(tables, u);
      r := Done;
    }
  }

  // ----- batches

  function Batch<T>(s: seq<T>, i: nat): (b: seq<T>)
    requires i <= |s|
  {
    if i + MAX_BATCH <= |s| then s[i..i + MAX_BATCH] else s[i..]
  }

  lemma BatchExtends<T>(s: seq<T>, i: nat)
    requires i <= |s|
    ensures s[..i] + Batch(s, i) == s[..i + |Batch(s, i)|]
    ensures i < |s| ==> |Batch(s, i)| > 0
  {
  }

  lemma {:induction false} InsertOrdersInTwo(t: Tables, a: seq<OrderRow>, b: seq<OrderRow>)
    ensures InsertOrders(t, a) == None ==> InsertOrders(t, a + b) == None
    ensures InsertOrders(t, a).Some? ==> InsertOrders(t, a + b) == InsertOrders(InsertOrders(t, a).value, b)
  {
    if b == [] {
      assert a + b == a;
    } else {
      assert (a + b)[..|a + b| - 1] == a + b[..|b| - 1];
      InsertOrdersInTwo(t, a, b[..|b| - 1]);
    }
  }

  lemma {:induction false} InsertFillsInTwo(t: Tables, a: seq<FillRow>, b: seq<FillRow>)
    ensures InsertFills(t, a) == None ==> InsertFills(t, a + b) == None
    ensures InsertFills(t, a).Some? ==> InsertFills(t, a + b) == InsertFills(InsertFills(t, a).value, b)
  {
    if b == [] {
      assert a + b == a;
    } else {
      assert (a + b)[..|a + b| - 1] == a + b[..|b| - 1];
      InsertFillsInTwo(t, a, b[..|b| - 1]);
    }
  }

  lemma NoOrdersInserted(t: Tables)
    ensures InsertOrders(t, []) == Some(t)
  {
  }

  method InsertOrderData(tx: Transaction, rows: seq<OrderRow>) returns (r: Statement)
    modifies tx
    ensures r == Done ==> InsertOrders(old(tx.tables), rows) == Some(tx.tables)
    ensures r == UniqueViolation ==> InsertOrders(old(tx.tables), rows) == None
    ensures r == Failed ==> !tx.healthy
  {
    hide InsertOrders;
    var i := 0;
    NoOrdersInserted(tx.tables);
    while i < |rows|
      invariant i <= |rows|
      invariant InsertOrders(old(tx.tables), rows[..i]) == Some(tx.tables)
    {
      var batch := Batch(rows, i);
      BatchExtends(rows, i);
      InsertOrdersInTwo(old(tx.tables), rows[..i], batch);
      r := tx.InsertOrderRows(batch);
      if r != Done {
        if r == UniqueViolation {
          InsertOrdersInTwo(old(tx.tables), rows[..i + |batch|], rows[i + |batch|..]);
          assert rows == rows[..i + |batch|] + rows[i + |batch|..];
        }
        return;
      }
      i := i + |batch|;
    }
    assert rows[..|rows|] == rows;
    r := Done;
  }

  method UpdateOrderData(tx: Transaction, us: seq<OrderUpdate>) returns (r: Statement)
    modifies tx
    ensures r == Done ==> tx.tables == UpdateOrders(old(tx.tables), us)
    ensures r != UniqueViolation
    ensures r == Failed ==> !tx.healthy
  {
    for i := 0 to |us|
      invariant tx.tables == UpdateOrders(old(tx.tables), us[..i])
    {
      assert us[..i + 1][..i] == us[..i];
      r := tx.UpdateOrderRow(us[i]);
      if r != Done {
        return;
      }
    }
    assert us[..|us|] == us;
    r := Done;
  }

  lemma NoFillsInserted(t: Tables)
    ensures InsertFills(t, []) == Some(t)
  {
  }

  method InsertFillData(tx: Transaction, rows: seq<FillRow>) returns (r: Statement)
    modifies tx
    ensures r == Done ==> InsertFills(old(tx.tables), rows) == Some(tx.tables)
    ensures r == UniqueViolation ==> InsertFills(old(tx.tables), rows) == None
    ensures r == Failed ==> !tx.healthy
  {
    hide InsertFills;
    var i := 0;
    NoFillsInserted(tx.tables);
    while i < |rows|
      invariant i <= |rows|
      invariant InsertFills(old(tx.tables), rows[..i]) == Some(tx.tables)
    {
      var batch := Batch(rows, i);
      BatchExtends(rows, i);
      InsertFillsInTwo(old(tx.tables), rows[..i], batch);
      r := tx.InsertFillRows(batch);
      if r != Done {
        if r == UniqueViolation {
          InsertFillsInTwo(old(tx.tables), rows[..i + |batch|], rows[i + |batch|..]);
          assert rows == rows[..i + |batch|] + rows[i + |batch|..];
        }
        return;
      }
      i := i + |batch|;
    }
    assert rows[..|rows|] == rows;
    r := Done;
  }

  function ResultOf(s: Statement): Result {
    match s
    case Done => Returned
    case UniqueViolation => Duplicate
    case Failed => Threw
  }

  class DbWriter {
    /** The committed tables. */
    var tables: Tables

    constructor (tables: Tables)
      ensures this.tables == tables
    {
      this.tables := tables;
    }

    /** All of a reply's rows are committed, or none is; a reply without rows never reaches the database. */
    method HandleResponse(p: Payload, healthy: bool) returns (r: Result)
      modifies this
      ensures !HasRows(p) ==> r == Returned && tables == old(tables)
      ensures HasRows(p) && r == Returned ==> Effect(old(tables), p) == Some(tables)
      ensures r == Duplicate ==> HasRows(p) && Effect(old(tables), p) == None && tables == old(tables)
      ensures r == Threw ==> !healthy && tables == old(tables)
    {
      if p.writer == None {
        return Returned;
      }
      var writer := p.writer.value;
      if !HasRowsToWrite(writer) {
        return Returned;
      }
      hide InsertOrders, InsertFills, UpdateOrders;
      var tx := new Transaction(tables, healthy);
      var s := tx.InsertKey(p.correlationId);
      if s != Done {
        return ResultOf(s);
      }
      s := InsertOrderData(tx, InsertsOf(writer));
      if s != Done {
        return ResultOf(s);
      }
      s := UpdateOrderData(tx, UpdatesOf(writer));
      if s != Done {
        return ResultOf(s);
      }
      s := InsertFillData(tx, FillsOf(writer));
      if s != Done {
        return ResultOf(s);
      }
      tables := tx.tables;
      r := Returned;
    }
  }
}
