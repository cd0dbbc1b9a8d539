/** New-Order and Payment on a master, the operation they log, and its replay on a replica. Both
    transactions work on their own copies of the rows and append what they change to an operation
    in the order of their steps; the replica decodes the operation and overwrites the fields it
    names. What has to agree in the end are the rows, not the bytes: a stock row may be written
    several times by one order, and the replica puts a customer's text together itself. The
    numbers of a row wrap around as the source's integers do; floats are opaque. */
module TpccReplay {
  import opened Bytes
  import opened OperationCodec
  import opened TpccRows

  class Database {
    var warehouses: map<int32, Row<Warehouse>>
    var districts: map<Pair, Row<District>>
    var stocks: map<Pair, Row<Stock>>
    var customers: map<Triple, Row<Customer>>

    /** `apply_operation`: the first byte says which transaction logged the operation. */
    method ApplyOperation(data: seq<byte>, tid: nat, ghost log: Log)
      requires data == LogBytes(log) && LogKeyed(log)
      modifies this
      ensures log.OrderLog? ==>
          OrderApplied(old(districts), old(stocks), log, tid) && warehouses == old(warehouses)
              && customers == old(customers)
      ensures log.PaymentLog? ==>
          PaymentApplied(old(warehouses), old(districts), old(customers), log, tid) && stocks == old(stocks)
    {
      hide LineBytes, OrderTail, PaymentTail;
      var dec := new Decoder(data);
      var neworder :=
          dec.Take(1, if log.OrderLog? then [1] else [0], if log.OrderLog? then OrderTail(log) else PaymentTail(log));
      if neworder[0] != 0 {
        ApplyOrder(dec, tid, log);
      } else {
        ApplyPayment(dec, tid, log);
      }
    }

    ghost predicate LogKeyed(log: Log)
      reads this
    {
      match log
      case OrderLog(district, _, writes) => district in districts && Keyed(stocks, writes)
      case PaymentLog(warehouse, _, district, _, customer, _, _, _, _) =>
        warehouse in warehouses && district in districts && customer in customers
    }

    ghost predicate OrderApplied(districts0: map<Pair, Row<District>>, stocks0: map<Pair, Row<Stock>>, log: Log,
            tid: nat)
      requires log.OrderLog?
      reads this
    {
      && log.district in districts0 && Keyed(stocks0, log.writes)
      && districts == districts0[log.district := Row(tid, districts0[log.district].value.(nextOrder := log.nextOrder))]
      && stocks == Replayed(stocks0, log.writes, tid)
    }

    ghost predicate PaymentApplied(warehouses0: map<int32, Row<Warehouse>>, districts0: map<Pair, Row<District>>,
            customers0: map<Triple, Row<Customer>>, log: Log, tid: nat)
      requires log.PaymentLog?
      reads this
    {
      && log.warehouse in warehouses0 && log.district in districts0 && log.customer in customers0
      && warehouses
          == warehouses0[log.warehouse := Row(tid, warehouses0[log.warehouse].value.(ytd := log.warehouseYtd))]
      && districts == districts0[log.district := Row(tid, districts0[log.district].value.(ytd := log.districtYtd))]
      && customers == customers0[log.customer := Row(tid, Repaid(customers0[log.customer].value, log))]
    }

    method ApplyOrder(dec: Decoder, tid: nat, ghost log: Log)
      requires log.OrderLog? && dec.rest == OrderTail(log) && LogKeyed(log)
      modifies `districts, `stocks, dec
      ensures OrderApplied(old(districts), old(stocks), log, tid)
    {
      hide Signed, LineBytes;
      ghost var writes := log.writes;
      ghost var t1 := Signed(log.nextOrder, 4) + LineBytes(writes);
      var w := dec.Int32(log.district.0, Signed(log.district.1, 4) + t1);
      var d := dec.Int32(log.district.1, t1);
      var nextOrder := dec.Int32(log.nextOrder, LineBytes(writes));
      districts := districts[(w, d) := Row(tid, districts[(w, d)].value.(nextOrder := nextOrder))];
      ghost var i := 0;
      assert writes[0..] == writes;
      assert writes[..0] == [];
      while |dec.rest| > 0
        invariant i <= |writes| && dec.rest == LineBytes(writes[i..])
        invariant Keyed(old(stocks), writes[..i]) && stocks == Replayed(old(stocks), writes[..i], tid)
        invariant districts
            == old(districts)[log.district := Row(tid, old(districts)[log.district].value.(nextOrder := log.nextOrder))]
        decreases |dec.rest|
      {
        MoreLines(writes, i);
        LinesStep(writes, i);
        assert writes[..i + 1][..i] == writes[..i];
        ApplyLine(dec, tid, writes[i], LineBytes(writes[i + 1..]));
        i := i + 1;
      }
      NoMoreLines(writes, i);
      assert writes[..i] == writes;
    }

    method ApplyLine(dec: Decoder, tid: nat, ghost w: StockWrite, ghost tail: seq<byte>)
      requires dec.rest == StockBytes(w, tail) && w.0 in stocks
      modifies `stocks, dec
      ensures dec.rest == tail && stocks == old(stocks)[w.0 := Row(tid, Overwritten(old(stocks)[w.0].value, w.1))]
    {
      hide Signed;
      ghost var t1 := Signed(w.1.remoteCount, 4) + tail;
      ghost var t2 := Signed(w.1.orderCount, 4) + t1;
      ghost var t3 := w.1.ytd + t2;
      ghost var t4 := Signed(w.1.quantity, 2) + t3;
      var supplier := dec.Int32(w.0.0, Signed(w.0.1, 4) + t4);
      var item := dec.Int32(w.0.1, t4);
      var s := stocks[(supplier, item)].value;
      var quantity := dec.Int16(w.1.quantity, t3);
      var ytd := dec.Take(4, w.1.ytd, t2);
      var orderCount := dec.Int32(w.1.orderCount, t1);
      var remoteCount := dec.Int32(w.1.remoteCount, tail);
      s := s.(quantity := quantity, ytd := ytd, orderCount := orderCount, remoteCount := remoteCount);
      stocks := stocks[(supplier, item) := Row(tid, s)];
    }

    method ApplyPayment(dec: Decoder, tid: nat, ghost log: Log)
      requires log.PaymentLog? && dec.rest == PaymentTail(log) && LogKeyed(log)
      modifies `warehouses, `districts, `customers, dec
      ensures PaymentApplied(old(warehouses), old(districts), old(customers), log, tid)
    {
      hide Signed, CustomerTail, Repaid;
      ghost var t1 := log.districtYtd + CustomerTail(log);
      ghost var t2 := Signed(log.district.1, 4) + t1;
      ghost var t3 := Signed(log.district.0, 4) + t2;
      var w := dec.Int32(log.warehouse, log.warehouseYtd + t3);
      var warehouseYtd := dec.Take(4, log.warehouseYtd, t3);
      warehouses := warehouses[w := Row(tid, warehouses[w].value.(ytd := warehouseYtd))];
      var dw := dec.Int32(log.district.0, t2);
      var d := dec.Int32(log.district.1, t1);
      var districtYtd := dec.Take(4, log.districtYtd, CustomerTail(log));
      districts := districts[(dw, d) := Row(tid, districts[(dw, d)].value.(ytd := districtYtd))];
      ApplyCustomer(dec, tid, log);
    }

    /** The customer's text is put together again behind the printed part, changed or not. */
    method ApplyCustomer(dec: Decoder, tid: nat, ghost log: Log)
      requires log.PaymentLog? && dec.rest == CustomerTail(log) && log.customer in customers
      modifies `customers, dec
      ensures customers == old(customers)[log.customer := Row(tid, Repaid(old(customers)[log.customer].value, log))]
    {
      hide Signed, Encode, Assigned;
      ghost var t1 := Signed(log.paymentCount, 4) + [];
      ghost var t2 := log.ytdPayment + t1;
      ghost var t3 := log.balance + t2;
      ghost var t4 := log.printed + t3;
      ghost var t5 := Encode(|log.printed|, 4) + t4;
      ghost var t6 := Signed(log.customer.2, 4) + t5;
      var cw := dec.Int32(log.customer.0, Signed(log.customer.1, 4) + t6);
      var cd := dec.Int32(log.customer.1, t6);
      var c := dec.Int32(log.customer.2, t5);
      var customer := customers[(cw, cd, c)].value;
      var total := dec.UInt32(|log.printed|, t4);
      var printed := dec.Take(total, log.printed, t3);
      customer := customer.(text := Assigned(printed + customer.text[..DATA_SIZE - total]));
      var balance := dec.Take(4, log.balance, t2);
      var ytdPayment := dec.Take(4, log.ytdPayment, t1);
      var paymentCount := dec.Int32(log.paymentCount, []);
      customer := customer.(balance := balance, ytdPayment := ytdPayment, paymentCount := paymentCount);
      customers := customers[(cw, cd, c) := Row(tid, customer)];
    }
  }

  /** What an operation says. */
  datatype Log =
    | OrderLog(district: Pair, nextOrder: int32, writes: seq<StockWrite>)
    | PaymentLog(warehouse: int32, warehouseYtd: float32, district: Pair, districtYtd: float32,
                 customer: Triple, printed: Printout, balance: float32, ytdPayment: float32, paymentCount: int32)

  function OrderTail(log: Log): seq<byte>
    requires log.OrderLog?
  {
    Signed(log.district.0, 4) + (Signed(log.district.1, 4) + (Signed(log.nextOrder, 4) + LineBytes(log.writes)))
  }

  function PaymentTail(log: Log): seq<byte>
    requires log.PaymentLog?
  {
    Signed(log.warehouse, 4) + (log.warehouseYtd
      + (Signed(log.district.0, 4) + (Signed(log.district.1, 4) + (log.districtYtd + CustomerTail(log)))))
  }

  function CustomerTail(log: Log): seq<byte>
    requires log.PaymentLog?
  {
    Signed(log.customer.0, 4) + (Signed(log.customer.1, 4) + (Signed(log.customer.2, 4)
      + (Encode(|log.printed|, 4)
          + (log.printed + (log.balance + (log.ytdPayment + (Signed(log.paymentCount, 4) + [])))))))
  }

  function LogBytes(log: Log): seq<byte> {
    if log.OrderLog? then [1] + OrderTail(log) else [0] + PaymentTail(log)
  }

  /** A customer after a replay. */
  function Repaid(c: Customer, log: Log): Customer
    requires log.PaymentLog?
  {
    c.(text := Assigned(log.printed + c.text[..DATA_SIZE - |log.printed|]),
       balance := log.balance, ytdPayment := log.ytdPayment, paymentCount := log.paymentCount)
  }

  function StockBytes(w: StockWrite, tail: seq<byte>): seq<byte> {
    Signed(w.0.0, 4) + (Signed(w.0.1, 4) + (Signed(w.1.quantity, 2)
      + (w.1.ytd + (Signed(w.1.orderCount, 4) + (Signed(w.1.remoteCount, 4) + tail)))))
  }

  function LineBytes(writes: seq<StockWrite>): seq<byte> {
    if writes == [] then [] else StockBytes(writes[0], LineBytes(writes[1..]))
  }

  lemma {:induction false} LinesStep(writes: seq<StockWrite>, i: nat)
    requires i < |writes|
    ensures LineBytes(writes[i..]) == StockBytes(writes[i], LineBytes(writes[i + 1..]))
    ensures |LineBytes(writes[i..])| == 22 + |LineBytes(writes[i + 1..])|
  {
    assert writes[i..][0] == writes[i] && writes[i..][1..] == writes[i + 1..];
  }

  lemma {:induction false} MoreLines(writes: seq<StockWrite>, i: nat)
    requires i <= |writes| && |LineBytes(writes[i..])| > 0
    ensures i < |writes|
  {
  }

  lemma {:induction false} NoMoreLines(writes: seq<StockWrite>, i: nat)
    requires i <= |writes| && |LineBytes(writes[i..])| == 0
    ensures i == |writes|
  {
    if i < |writes| {
      LinesStep(writes, i);
    }
  }

  /** The executing transaction: its copies of rows, its write set and its operation. */
  class NewOrder {
    const query: NewOrderQuery
    const operation: Encoder
    var districtValue: District
    var stockValues: seq<Stock>

    constructor (query: NewOrderQuery)
      ensures this.query == query && fresh(operation) && operation.data == []
    {
      this.query := query;
      operation := new Encoder();
      districtValue := District([0, 0, 0, 0], 0, []);
      stockValues := [];
    }

    /** The rows are read; an unused item number ends the transaction. */
    method ReadRows(db: Database) returns (ok: bool)
      requires (query.warehouse, query.district) in db.districts && StockPresent(db.stocks, query.lines)
      modifies this
      ensures ok <==> forall i :: 0 <= i < |query.lines| ==> query.lines[i].item != 0
      ensures districtValue == db.districts[(query.warehouse, query.district)].value
      ensures ok ==> |stockValues| == |query.lines|
      ensures ok ==> forall i :: 0 <= i < |query.lines| ==> stockValues[i] == db.stocks[StockKey(query.lines[i])].value
    {
      districtValue := db.districts[(query.warehouse, query.district)].value;
      stockValues := [];
      for i := 0 to |query.lines|
        invariant districtValue == db.districts[(query.warehouse, query.district)].value
        invariant forall k :: 0 <= k < i ==> query.lines[k].item != 0
        invariant |stockValues| == i
            && forall k :: 0 <= k < i ==> stockValues[k] == db.stocks[StockKey(query.lines[k])].value
      {
        if query.lines[i].item == 0 {
          return false;
        }
        stockValues := stockValues + [db.stocks[StockKey(query.lines[i])].value];
      }
      ok := true;
    }

    /** One line: the stock row is changed and logged. */
    method SupplyLine(i: nat, a: Arithmetic, ghost tail: seq<byte>, ghost whole: seq<byte>)
      requires i < |stockValues| == |query.lines|
      requires whole
          == operation.data
              + StockBytes((StockKey(query.lines[i]), Supplied(stockValues[i], query.warehouse, query.lines[i], a)),
                  tail)
      modifies `stockValues, operation
      ensures whole == operation.data + tail
      ensures stockValues == old(stockValues)[i := Supplied(old(stockValues)[i], query.warehouse, query.lines[i], a)]
    {
      hide Signed, Wrap16, Wrap32;
      var line, s := query.lines[i], stockValues[i];
      var quantity :=
          if s.quantity >= line.quantity + 10 then Wrap16(s.quantity - line.quantity)
              else Wrap16(s.quantity - line.quantity + 91);
      s := s.(quantity := quantity, ytd := a.addInt(s.ytd, line.quantity), orderCount := Wrap32(s.orderCount + 1));
      if line.supplier != query.warehouse {
        s := s.(remoteCount := Wrap32(s.remoteCount + 1));
      }
      stockValues := stockValues[i := s];
      ghost var t1 := Signed(s.remoteCount, 4) + tail;
      ghost var t2 := Signed(s.orderCount, 4) + t1;
      ghost var t3 := s.ytd + t2;
      ghost var t4 := Signed(s.quantity, 2) + t3;
      ghost var t5 := Signed(line.item, 4) + t4;
      operation.Put(Signed(line.supplier, 4), t5, whole);
      operation.Put(Signed(line.item, 4), t4, whole);
      operation.Put(Signed(s.quantity, 2), t3, whole);
      operation.Put(s.ytd, t2, whole);
      operation.Put(Signed(s.orderCount, 4), t1, whole);
      operation.Put(Signed(s.remoteCount, 4), tail, whole);
    }

    /** The transaction up to its commit. */
    method Execute(db: Database, a: Arithmetic) returns (ok: bool)
      requires (query.warehouse, query.district) in db.districts && StockPresent(db.stocks, query.lines)
      requires operation.data == []
      modifies this, operation
      ensures ok <==> forall i :: 0 <= i < |query.lines| ==> query.lines[i].item != 0
      ensures ok ==> districtValue == Ordered(db.districts[(query.warehouse, query.district)].value)
      ensures ok ==>
                && OrderNumbered(db.districts[(query.warehouse, query.district)].value, districtValue)
                && |stockValues| == |query.lines|
                && forall i :: 0 <= i < |query.lines| ==>
                     LineCounted(db.stocks[StockKey(query.lines[i])].value, stockValues[i], query.lines[i].quantity,
                                 query.lines[i].supplier != query.warehouse, a)
      ensures ok ==> Wrote(StockWrites(db.stocks, query, a))
      ensures ok ==>
                var log := OrderLog((query.warehouse, query.district), districtValue.nextOrder,
                                    StockWrites(db.stocks, query, a));
                operation.data == LogBytes(log)
    {
      hide Signed, Wrap32, LineBytes, Supplied, LineCounted, OrderNumbered;
      ok := ReadRows(db);
      if !ok {
        return;
      }
      ghost var writes := StockWrites(db.stocks, query, a);
      districtValue := districtValue.(nextOrder := Wrap32(districtValue.nextOrder + 1));
      ghost var whole := LogBytes(OrderLog((query.warehouse, query.district), districtValue.nextOrder, writes));
      ghost var t1 := Signed(districtValue.nextOrder, 4) + LineBytes(writes);
      ghost var t2 := Signed(query.district, 4) + t1;
      operation.Put([1], Signed(query.warehouse, 4) + t2, whole);
      operation.Put(Signed(query.warehouse, 4), t2, whole);
      operation.Put(Signed(query.district, 4), t1, whole);
      operation.Put(Signed(districtValue.nextOrder, 4), LineBytes(writes), whole);
      OrderedIsNumbered(db.districts[(query.warehouse, query.district)].value);
      SupplyLines(a, writes, whole);
      forall i | 0 <= i < |query.lines|
        ensures LineCounted(db.stocks[StockKey(query.lines[i])].value, stockValues[i], query.lines[i].quantity,
                            query.lines[i].supplier != query.warehouse, a)
      {
        SuppliedIsCounted(db.stocks[StockKey(query.lines[i])].value, query.warehouse, query.lines[i], a);
        assert writes[i].1 == stockValues[i];
      }
    }

    /** The loop over the order's lines. */
    method SupplyLines(a: Arithmetic, ghost writes: seq<StockWrite>, ghost whole: seq<byte>)
      requires |stockValues| == |query.lines| == |writes| && whole == operation.data + LineBytes(writes)
      requires forall i :: 0 <= i < |writes| ==>
          writes[i] == (StockKey(query.lines[i]), Supplied(stockValues[i], query.warehouse, query.lines[i], a))
      modifies `stockValues, operation
      ensures Wrote(writes) && whole == operation.data
    {
      hide StockBytes, LineBytes, Supplied;
      assert writes[0..] == writes;
      for i := 0 to |query.lines|
        invariant |stockValues| == |query.lines|
        invariant forall k :: 0 <= k < i ==> stockValues[k] == writes[k].1
        invariant forall k :: i <= k < |stockValues| ==> stockValues[k] == old(stockValues)[k]
        invariant whole == operation.data + LineBytes(writes[i..])
      {
        LinesStep(writes, i);
        SupplyLine(i, a, LineBytes(writes[i + 1..]), whole);
      }
      NoLines(writes);
    }

    /** The write set holds these rows. */
    ghost predicate Wrote(writes: seq<StockWrite>)
      reads this
    {
      |writes| == |query.lines| == |stockValues|
          && forall i :: 0 <= i < |writes| ==> writes[i] == (StockKey(query.lines[i]), stockValues[i])
    }

    /** The write set is written to the master's tables, in order; the tids stay. */
    method Commit(db: Database, ghost writes: seq<StockWrite>)
      requires (query.warehouse, query.district) in db.districts && StockPresent(db.stocks, query.lines)
      requires Wrote(writes)
      modifies db`districts, db`stocks
      ensures db.districts == WithValue(old(db.districts), (query.warehouse, query.district), districtValue)
      ensures Keyed(old(db.stocks), writes) && db.stocks == Written(old(db.stocks), writes)
    {
      db.districts := WithValue(db.districts, (query.warehouse, query.district), districtValue);
      for i := 0 to |query.lines|
        invariant db.districts == WithValue(old(db.districts), (query.warehouse, query.district), districtValue)
        invariant Keyed(old(db.stocks), writes[..i]) && db.stocks == Written(old(db.stocks), writes[..i])
      {
        assert writes[..i + 1][..i] == writes[..i];
        db.stocks := WithValue(db.stocks, StockKey(query.lines[i]), stockValues[i]);
      }
      assert writes[..|writes|] == writes;
    }
  }

  lemma {:induction false} NoLines(writes: seq<StockWrite>)
    ensures LineBytes(writes[|writes|..]) == []
  {
  }

  /** The logged fields replace those of the row. */
  function Overwritten(s: Stock, logged: Stock): Stock {
    logged.(rest := s.rest)
  }

  /** The stock table after a replay. */
  ghost function Replayed(m: map<Pair, Row<Stock>>, writes: seq<StockWrite>, tid: nat): (w: map<Pair, Row<Stock>>)
    requires Keyed(m, writes)
    ensures w.Keys == m.Keys
  {
    if writes == [] then m else
      var last := writes[|writes| - 1];
      var before := Replayed(m, writes[..|writes| - 1], tid);
      before[last.0 := Row(tid, Overwritten(before[last.0].value, last.1))]
  }

  // ---------- Payment ----------

  function Sent(c: Customer, printed: Printout, executed: bool): Printout {
    if executed && c.credit == BAD_CREDIT then printed else []
  }

  class Payment {
    const query: PaymentQuery
    const operation: Encoder
    var warehouseValue: Warehouse
    var districtValue: District
    var customerValue: Customer

    constructor (query: PaymentQuery, db: Database)
      requires query.warehouse in db.warehouses && (query.warehouse, query.district) in db.districts
      requires query.customer in db.customers
      ensures this.query == query && fresh(operation) && operation.data == [] && Read(db)
    {
      this.query := query;
      operation := new Encoder();
      warehouseValue := db.warehouses[query.warehouse].value;
      districtValue := db.districts[(query.warehouse, query.district)].value;
      customerValue := db.customers[query.customer].value;
    }

    /** The transaction has its own copies of the three rows. */
    ghost predicate Read(db: Database)
      reads this, db
    {
      && query.warehouse in db.warehouses && (query.warehouse, query.district) in db.districts
      && query.customer in db.customers
      && warehouseValue == db.warehouses[query.warehouse].value
      && districtValue == db.districts[(query.warehouse, query.district)].value
      && customerValue == db.customers[query.customer].value
    }

    ghost function LogOf(w: Warehouse, d: District, c: Customer, printed: Printout): Log {
      PaymentLog(query.warehouse, w.ytd, (query.warehouse, query.district), d.ytd, query.customer, printed, c.balance,
          c.ytdPayment, c.paymentCount)
    }

    /** The transaction up to its commit. `printed` are the six printed numbers. */
    method Execute(printed: Printout, executed: bool, a: Arithmetic)
      requires operation.data == []
      modifies this, operation
      ensures warehouseValue == old(warehouseValue).(ytd := a.add(old(warehouseValue).ytd, query.amount))
      ensures districtValue == old(districtValue).(ytd := a.add(old(districtValue).ytd, query.amount))
      ensures customerValue == Paid(old(customerValue), printed, query.amount, executed, a)
      ensures PaymentCounted(old(customerValue), customerValue, printed, query.amount, executed, a)
      ensures operation.data
          == LogBytes(LogOf(warehouseValue, districtValue, customerValue, Sent(old(customerValue), printed, executed)))
    {
      hide Signed, CustomerTail, Paid, PaymentCounted;
      PaidIsCounted(customerValue, printed, query.amount, executed, a);
      warehouseValue := warehouseValue.(ytd := a.add(warehouseValue.ytd, query.amount));
      ghost var d := districtValue.(ytd := a.add(districtValue.ytd, query.amount));
      ghost var log :=
          LogOf(warehouseValue, d, Paid(customerValue, printed, query.amount, executed, a),
              Sent(customerValue, printed, executed));
      ghost var t1 := d.ytd + CustomerTail(log);
      ghost var t2 := Signed(query.district, 4) + t1;
      ghost var t3 := Signed(query.warehouse, 4) + t2;
      ghost var t4 := warehouseValue.ytd + t3;
      operation.Put([0], Signed(query.warehouse, 4) + t4, LogBytes(log));
      operation.Put(Signed(query.warehouse, 4), t4, LogBytes(log));
      operation.Put(warehouseValue.ytd, t3, LogBytes(log));
      districtValue := districtValue.(ytd := a.add(districtValue.ytd, query.amount));
      operation.Put(Signed(query.warehouse, 4), t2, LogBytes(log));
      operation.Put(Signed(query.district, 4), t1, LogBytes(log));
      operation.Put(districtValue.ytd, CustomerTail(log), LogBytes(log));
      PayCustomer(printed, executed, a, log, LogBytes(log));
    }

    /** The customer's part. */
    method PayCustomer(printed: Printout, executed: bool, a: Arithmetic, ghost log: Log, ghost whole: seq<byte>)
      requires log.PaymentLog? && log.customer == query.customer
      requires log.printed == Sent(customerValue, printed, executed)
      requires var c := Paid(customerValue, printed, query.amount, executed, a);
               log.balance == c.balance && log.ytdPayment == c.ytdPayment && log.paymentCount == c.paymentCount
      requires whole == operation.data + CustomerTail(log)
      modifies `customerValue, operation
      ensures customerValue == Paid(old(customerValue), printed, query.amount, executed, a)
      ensures operation.data == whole
    {
      hide Signed, Encode, Assigned, Wrap32;
      var buffer: seq<byte>, total := [], 0;
      if executed {
        if customerValue.credit == BAD_CREDIT {
          buffer, total := printed, |printed|;
          customerValue := customerValue.(text := Assigned(buffer + customerValue.text[..DATA_SIZE - total]));
        }
        customerValue := customerValue.(balance := a.sub(customerValue.balance, query.amount));
        customerValue := customerValue.(ytdPayment := a.add(customerValue.ytdPayment, query.amount));
        customerValue := customerValue.(paymentCount := Wrap32(customerValue.paymentCount + 1));
      }
      ghost var t1 := Signed(log.paymentCount, 4) + [];
      ghost var t2 := log.ytdPayment + t1;
      ghost var t3 := log.balance + t2;
      ghost var t4 := log.printed + t3;
      ghost var t5 := Encode(|log.printed|, 4) + t4;
      ghost var t6 := Signed(log.customer.2, 4) + t5;
      operation.Put(Signed(query.customer.0, 4), Signed(log.customer.1, 4) + t6, whole);
      operation.Put(Signed(query.customer.1, 4), t6, whole);
      operation.Put(Signed(query.customer.2, 4), t5, whole);
      operation.Put(Encode(total, 4), t4, whole);
      operation.Put(buffer, t3, whole);
      operation.Put(customerValue.balance, t2, whole);
      operation.Put(customerValue.ytdPayment, t1, whole);
      operation.Put(Signed(customerValue.paymentCount, 4), [], whole);
    }

    method Commit(db: Database)
      requires query.warehouse in db.warehouses && (query.warehouse, query.district) in db.districts
      requires query.customer in db.customers
      modifies db`warehouses, db`districts, db`customers
      ensures db.warehouses == WithValue(old(db.warehouses), query.warehouse, warehouseValue)
      ensures db.districts == WithValue(old(db.districts), (query.warehouse, query.district), districtValue)
      ensures db.customers == WithValue(old(db.customers), query.customer, customerValue)
    {
      db.warehouses := WithValue(db.warehouses, query.warehouse, warehouseValue);
      db.districts := WithValue(db.districts, (query.warehouse, query.district), districtValue);
      db.customers := WithValue(db.customers, query.customer, customerValue);
    }
  }

  // ---------- the replica follows the master ----------

  /** The replayed customer is the master's exactly if the text was written anew on the master or
      the old text holds no zero byte: the replica always puts it through a C string. */
  lemma {:induction false} CustomerFollows(c: Customer, printed: Printout, amount: float32, executed: bool,
          a: Arithmetic, log: Log)
    requires log.PaymentLog? && log.printed == Sent(c, printed, executed)
    requires var p := Paid(c, printed, amount, executed, a);
             log.balance == p.balance && log.ytdPayment == p.ytdPayment && log.paymentCount == p.paymentCount
    ensures Repaid(c, log) == Paid(c, printed, amount, executed, a)
        <==> (executed && c.credit == BAD_CREDIT) || 0 !in c.text
  {
    hide Assigned, Wrap32;
    AssignedIsSame(c.text);
    assert [] + c.text[..DATA_SIZE] == c.text;
  }

  /** A stock row that was the same on both sides is the same after the writes and their replay,
      however often a key is repeated; its tid is the operation's exactly if it was written. */
  lemma {:induction false} StockFollows(m: map<Pair, Row<Stock>>, r: map<Pair, Row<Stock>>, writes: seq<StockWrite>,
          tid: nat, k: Pair)
    requires KeepsRest(m, writes) && Keyed(r, writes) && k in m && k in r && m[k].value == r[k].value
    ensures Written(m, writes)[k].value == Replayed(r, writes, tid)[k].value
    ensures Written(m, writes)[k].value.rest == m[k].value.rest && Written(m, writes)[k].tid == m[k].tid
    ensures (exists i :: 0 <= i < |writes| && writes[i].0 == k) ==> Replayed(r, writes, tid)[k].tid == tid
    ensures (forall i :: 0 <= i < |writes| ==> writes[i].0 != k) ==>
        Replayed(r, writes, tid)[k] == r[k] && Written(m, writes)[k] == m[k]
    decreases |writes|
  {
    if writes != [] {
      var front := writes[..|writes| - 1];
      StockFollows(m, r, front, tid, k);
      assert writes[|writes| - 1].0 != k ==>
          forall i :: 0 <= i < |writes| && writes[i].0 == k ==> i < |front| && front[i].0 == k;
    }
  }

  /** Rows that were the same before are the same after. */
  ghost predicate Follows<K(!new), V>(m0: map<K, Row<V>>, r0: map<K, Row<V>>, m1: map<K, Row<V>>, r1: map<K, Row<V>>) {
    && m1.Keys == m0.Keys && r1.Keys == r0.Keys
    && forall k :: k in m0 && k in r0 && m0[k].value == r0[k].value ==> m1[k].value == r1[k].value
  }

  lemma {:induction false} OneRowFollows<K(!new), V>(m: map<K, Row<V>>, r: map<K, Row<V>>, k: K, v: V, w: V, tid: nat)
    requires k in m && k in r && (m[k].value == r[k].value ==> v == w)
    ensures Follows(m, r, WithValue(m, k, v), r[k := Row(tid, w)])
  {
  }

  lemma {:induction false} StocksFollow(m: map<Pair, Row<Stock>>, r: map<Pair, Row<Stock>>, writes: seq<StockWrite>,
          tid: nat)
    requires KeepsRest(m, writes) && Keyed(r, writes)
    ensures Follows(m, r, Written(m, writes), Replayed(r, writes, tid))
  {
    forall k: Pair | k in m && k in r && m[k].value == r[k].value
      ensures Written(m, writes)[k].value == Replayed(r, writes, tid)[k].value
    {
      StockFollows(m, r, writes, tid, k);
    }
  }

  ghost function TablesOf(db: Database): Tables
    reads db
  {
    Tables(db.warehouses, db.districts, db.stocks, db.customers)
  }

  /** A New-Order on the master, sent as an operation to the replica. Only the touched rows need to
      be present on both. */
  method ReplicateOrder(master: Database, replica: Database, q: NewOrderQuery, tid: nat, a: Arithmetic)
          returns (ok: bool)
    requires master != replica
    requires (q.warehouse, q.district) in master.districts && (q.warehouse, q.district) in replica.districts
    requires StockPresent(master.stocks, q.lines) && StockPresent(replica.stocks, q.lines)
    modifies master`districts, master`stocks, replica
    ensures ok <==> Accepted(q)
    ensures TablesOf(master) == AfterOrder(old(TablesOf(master)), q, a)
    ensures !ok ==> TablesOf(replica) == old(TablesOf(replica))
    ensures replica.warehouses == old(replica.warehouses) && replica.customers == old(replica.customers)
    ensures Follows(old(master.districts), old(replica.districts), master.districts, replica.districts)
    ensures Follows(old(master.stocks), old(replica.stocks), master.stocks, replica.stocks)
    ensures ok ==> replica.districts[(q.warehouse, q.district)].tid == tid
    ensures ok ==>
        forall i :: 0 <= i < |q.lines| ==>
            StockKey(q.lines[i]) in replica.stocks && replica.stocks[StockKey(q.lines[i])].tid == tid
  {
    hide LogBytes, Written, Replayed;
    var order := new NewOrder(q);
    ghost var writes := StockWrites(master.stocks, q, a);
    WritesKeepRest(master.stocks, q, a);
    ok := order.Execute(master, a);
    if ok {
      order.Commit(master, writes);
      ghost var log := OrderLog((q.warehouse, q.district), order.districtValue.nextOrder, writes);
      ghost var d0 := old(master.districts)[log.district].value;
      OneRowFollows(old(master.districts), old(replica.districts), log.district, Ordered(d0),
                    old(replica.districts)[log.district].value.(nextOrder := log.nextOrder), tid);
      StocksFollow(old(master.stocks), old(replica.stocks), writes, tid);
      Stamped(old(replica.stocks), writes, tid);
      replica.ApplyOperation(order.operation.data, tid, log);
    }
  }

  lemma {:induction false} Stamped(r: map<Pair, Row<Stock>>, writes: seq<StockWrite>, tid: nat)
    requires Keyed(r, writes)
    ensures forall i :: 0 <= i < |writes| ==> writes[i].0 in r && Replayed(r, writes, tid)[writes[i].0].tid == tid
    decreases |writes|
  {
    if writes != [] {
      var front := writes[..|writes| - 1];
      Stamped(r, front, tid);
      forall i | 0 <= i < |writes| ensures writes[i].0 in r && Replayed(r, writes, tid)[writes[i].0].tid == tid {
        assert i < |front| ==> writes[i] == front[i];
      }
    }
  }

  /** A Payment on the master, sent as an operation to the replica. */
  method ReplicatePayment(master: Database, replica: Database, q: PaymentQuery, printed: Printout, executed: bool,
          tid: nat, a: Arithmetic)
    requires master != replica
    requires q.warehouse in master.warehouses && (q.warehouse, q.district) in master.districts
    requires q.customer in master.customers
    requires q.warehouse in replica.warehouses && (q.warehouse, q.district) in replica.districts
    requires q.customer in replica.customers
    modifies master`warehouses, master`districts, master`customers, replica
    ensures replica.stocks == old(replica.stocks)
    ensures Follows(old(master.warehouses), old(replica.warehouses), master.warehouses, replica.warehouses)
    ensures Follows(old(master.districts), old(replica.districts), master.districts, replica.districts)
    ensures TablesOf(master) == AfterPayment(old(TablesOf(master)), q, printed, executed, a)
    ensures q.customer in replica.customers
    ensures replica.customers == old(replica.customers)[q.customer := replica.customers[q.customer]]
    ensures old(master.customers)[q.customer].value == old(replica.customers)[q.customer].value ==>
              (master.customers[q.customer].value == replica.customers[q.customer].value <==>
                (executed && old(master.customers)[q.customer].value.credit == BAD_CREDIT)
                    || 0 !in old(master.customers)[q.customer].value.text)
    ensures replica.warehouses[q.warehouse].tid == replica.districts[(q.warehouse, q.district)].tid
        == replica.customers[q.customer].tid == tid
  {
    hide LogBytes, Paid, Repaid, Sent;
    var payment := new Payment(q, master);
    payment.Execute(printed, executed, a);
    payment.Commit(master);
    ghost var c0 := old(master.customers)[q.customer].value;
    ghost var log :=
        payment.LogOf(payment.warehouseValue, payment.districtValue, payment.customerValue,
            Sent(c0, printed, executed));
    CustomerFollows(c0, printed, q.amount, executed, a, log);
    OneRowFollows(old(master.warehouses), old(replica.warehouses), q.warehouse, payment.warehouseValue,
                  old(replica.warehouses)[q.warehouse].value.(ytd := payment.warehouseValue.ytd), tid);
    OneRowFollows(old(master.districts), old(replica.districts), log.district, payment.districtValue,
                  old(replica.districts)[log.district].value.(ytd := payment.districtValue.ytd), tid);
    replica.ApplyOperation(payment.operation.data, tid, log);
  }

  // ---------- whole runs ----------

  ghost predicate SameValues<K(!new), V>(m: map<K, Row<V>>, r: map<K, Row<V>>) {
    m.Keys == r.Keys && forall k :: k in m ==> m[k].value == r[k].value
  }

  /** The replica holds the master's values, and no text holds a zero byte. */
  ghost predicate InStep(master: Database, replica: Database)
    reads master, replica
  {
    && SameValues(master.warehouses, replica.warehouses) && SameValues(master.districts, replica.districts)
    && SameValues(master.stocks, replica.stocks) && SameValues(master.customers, replica.customers)
    && NoZeros(master.customers)
  }

  lemma {:induction false} SameStays<K(!new), V>(m0: map<K, Row<V>>, r0: map<K, Row<V>>, m1: map<K, Row<V>>, r1: map<K,
          Row<V>>)
    requires SameValues(m0, r0) && Follows(m0, r0, m1, r1)
    ensures SameValues(m1, r1)
  {
  }

  method OrderStep(master: Database, replica: Database, t: Txn, a: Arithmetic)
    requires master != replica && InStep(master, replica) && Possible(TablesOf(master), t) && t.Order?
    modifies master, replica
    ensures InStep(master, replica)
    ensures TablesOf(master) == After(old(TablesOf(master)), t, a)
  {
    hide Follows, SameValues, NoZeros;
    SameKeys(master.districts, replica.districts);
    SameKeys(master.stocks, replica.stocks);
    var ok := ReplicateOrder(master, replica, t.order, t.tid, a);
    SameStays(old(master.districts), old(replica.districts), master.districts, replica.districts);
    SameStays(old(master.stocks), old(replica.stocks), master.stocks, replica.stocks);
    FollowsKeys(old(master.districts), old(replica.districts), master.districts, replica.districts);
    FollowsKeys(old(master.stocks), old(replica.stocks), master.stocks, replica.stocks);
  }

  lemma {:induction false} SameKeys<K(!new), V>(m: map<K, Row<V>>, r: map<K, Row<V>>)
    requires SameValues(m, r)
    ensures m.Keys == r.Keys
  {
  }

  lemma {:induction false} SameAt<K(!new), V>(m: map<K, Row<V>>, r: map<K, Row<V>>, k: K)
    requires SameValues(m, r) && k in m
    ensures k in r && m[k].value == r[k].value
  {
  }

  lemma {:induction false} FollowsKeys<K(!new), V>(m0: map<K, Row<V>>, r0: map<K, Row<V>>, m1: map<K, Row<V>>,
          r1: map<K, Row<V>>)
    requires Follows(m0, r0, m1, r1)
    ensures m1.Keys == m0.Keys
  {
  }

  method PaymentStep(master: Database, replica: Database, t: Txn, a: Arithmetic)
    requires master != replica && InStep(master, replica) && Possible(TablesOf(master), t) && t.Pay?
    modifies master, replica
    ensures InStep(master, replica)
    ensures TablesOf(master) == After(old(TablesOf(master)), t, a)
  {
    hide Follows, SameValues, NoZeros, Paid;
    SameKeys(master.warehouses, replica.warehouses);
    SameKeys(master.districts, replica.districts);
    SameAt(master.customers, replica.customers, t.payment.customer);
    ReplicatePayment(master, replica, t.payment, t.printed, t.executed, t.tid, a);
    SameStays(old(master.warehouses), old(replica.warehouses), master.warehouses, replica.warehouses);
    SameStays(old(master.districts), old(replica.districts), master.districts, replica.districts);
    FollowsKeys(old(master.warehouses), old(replica.warehouses), master.warehouses, replica.warehouses);
    FollowsKeys(old(master.districts), old(replica.districts), master.districts, replica.districts);
    CustomersStay(old(master.customers), old(replica.customers), master.customers, replica.customers, t, a);
  }

  lemma {:induction false} CustomersStay(m0: map<Triple, Row<Customer>>, r0: map<Triple, Row<Customer>>, m1: map<Triple,
          Row<Customer>>, r1: map<Triple, Row<Customer>>, t: Txn, a: Arithmetic)
    requires SameValues(m0, r0) && NoZeros(m0) && t.Pay? && t.payment.customer in m0
    requires m1
        == WithValue(m0, t.payment.customer,
            Paid(m0[t.payment.customer].value, t.printed, t.payment.amount, t.executed, a))
    requires t.payment.customer in r1 && r1 == r0[t.payment.customer := r1[t.payment.customer]]
    requires 0 !in m0[t.payment.customer].value.text ==> m1[t.payment.customer].value == r1[t.payment.customer].value
    ensures SameValues(m1, r1) && NoZeros(m1) && m1.Keys == m0.Keys
  {
    hide Paid;
    PaidHasNoZero(m0[t.payment.customer].value, t.printed, t.payment.amount, t.executed, a);
  }

  /** Any run of the two transactions, replayed in its order, does to the master what each transaction
      is for, and leaves the replica with the master's values. */
  method Run(master: Database, replica: Database, txns: seq<Txn>, a: Arithmetic)
    requires master != replica && InStep(master, replica)
    requires forall i :: 0 <= i < |txns| ==> Possible(TablesOf(master), txns[i])
    modifies master, replica
    ensures InStep(master, replica) && TablesOf(master) == AfterAll(old(TablesOf(master)), txns, a)
  {
    hide InStep, RowsExist, After, AfterAll;
    ghost var start := TablesOf(master);
    NoTxns(start, a);
    for i := 0 to |txns|
      invariant InStep(master, replica) && TablesOf(master) == AfterAll(start, txns[..i], a)
    {
      OneTxnMore(start, txns, i, a);
      if txns[i].Order? {
        OrderStep(master, replica, txns[i], a);
      } else {
        PaymentStep(master, replica, txns[i], a);
      }
    }
    assert txns[..|txns|] == txns;
  }
}
