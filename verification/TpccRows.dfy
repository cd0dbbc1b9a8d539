/** The rows that New-Order and Payment change, what each transaction makes of them, and what that comes
    to over a whole run: the counters count orders, remote orders and payments. */
module TpccRows {
  import opened Bytes
  import opened OperationCodec

  const DATA_SIZE: nat := 500
  const BLANK: byte := 32
  const BAD_CREDIT: seq<byte> := [66, 67]

  /** The float operations; what they compute does not matter. */
  datatype Arithmetic = Arithmetic(add: (float32, float32) -> float32, sub: (float32, float32) -> float32,
          addInt: (float32, int) -> float32)

  /** The rows, with the fields that the two transactions change; `rest` is everything else. */
  datatype Warehouse = Warehouse(ytd: float32, rest: seq<byte>)
  datatype District = District(ytd: float32, nextOrder: int32, rest: seq<byte>)
  datatype Stock = Stock(quantity: int16, ytd: float32, orderCount: int32, remoteCount: int32, rest: seq<byte>)
  datatype Customer = Customer(credit: seq<byte>, balance: float32, ytdPayment: float32, paymentCount: int32,
          text: Text, rest: seq<byte>)
  datatype Row<V> = Row(tid: nat, value: V)

  type Pair = (int32, int32)
  type Triple = (int32, int32, int32)

  // ---------- fixed-size text ----------

  type Text = s: seq<byte> | |s| == DATA_SIZE witness seq(DATA_SIZE, _ => BLANK)
  type Printout = s: seq<byte> | |s| <= DATA_SIZE

  /** The C string that starts a buffer. */
  function CString(s: seq<byte>): (t: seq<byte>)
    ensures |t| <= |s| && t == s[..|t|] && 0 !in t && (|t| < |s| ==> s[|t|] == 0)
  {
    if s == [] || s[0] == 0 then [] else [s[0]] + CString(s[1..])
  }

  /** Assigning a buffer to a text: up to the first zero byte, then blanks. */
  function Assigned(s: Text): (t: Text) {
    CString(s) + seq(DATA_SIZE - |CString(s)|, _ => BLANK)
  }

  lemma {:induction false} AssignedHasNoZero(s: Text)
    ensures 0 !in Assigned(s)
  {
  }

  /** Assigning a text to itself changes nothing exactly if it holds no zero byte. */
  lemma {:induction false} AssignedIsSame(s: Text)
    ensures Assigned(s) == s <==> 0 !in s
  {
    AssignedHasNoZero(s);
    if 0 !in s {
      assert |CString(s)| == |s|;
    }
  }

  // ---------- New-Order ----------

  datatype Line = Line(item: int32, supplier: int32, quantity: int)
  datatype NewOrderQuery = NewOrderQuery(warehouse: int32, district: int32, lines: seq<Line>)

  function StockKey(line: Line): Pair {
    (line.supplier, line.item)
  }

  /** The quantity in stock after an order. */
  function Restocked(quantity: int16, ordered: int): int16 {
    if quantity >= ordered + 10 then Wrap16(quantity - ordered) else Wrap16(quantity - ordered + 91)
  }

  /** Clause 2.4.2.2 keeps the quantity between 10 and 100 when up to 10 are ordered. */
  lemma {:induction false} QuantityStaysInRange(quantity: int16, ordered: int)
    requires 10 <= quantity <= 100 && 1 <= ordered <= 10
    ensures 10 <= Restocked(quantity, ordered) <= 100
    ensures (Restocked(quantity, ordered) - (quantity - ordered)) % 91 == 0
  {
  }

  function Supplied(s: Stock, warehouse: int32, line: Line, a: Arithmetic): Stock {
    Stock(Restocked(s.quantity, line.quantity), a.addInt(s.ytd, line.quantity), Wrap32(s.orderCount + 1),
          if line.supplier != warehouse then Wrap32(s.remoteCount + 1) else s.remoteCount, s.rest)
  }

  ghost predicate StockPresent(stocks: map<Pair, Row<Stock>>, lines: seq<Line>) {
    forall i :: 0 <= i < |lines| ==> StockKey(lines[i]) in stocks
  }

  type StockWrite = (Pair, Stock)

  /** All rows are read before any is written, also when a line repeats a key. */
  ghost function StockWrites(stocks: map<Pair, Row<Stock>>, q: NewOrderQuery, a: Arithmetic): (w: seq<StockWrite>)
    requires StockPresent(stocks, q.lines)
    ensures |w| == |q.lines|
  {
    seq(|q.lines|, i requires 0 <= i < |q.lines| =>
      (StockKey(q.lines[i]), Supplied(stocks[StockKey(q.lines[i])].value, q.warehouse, q.lines[i], a)))
  }

  function Ordered(d: District): District {
    d.(nextOrder := Wrap32(d.nextOrder + 1))
  }

  /** A table with a new value in one row. */
  function WithValue<K, V>(m: map<K, Row<V>>, k: K, v: V): map<K, Row<V>>
    requires k in m
  {
    m[k := Row(m[k].tid, v)]
  }

  ghost predicate Keyed(m: map<Pair, Row<Stock>>, writes: seq<StockWrite>) {
    forall i :: 0 <= i < |writes| ==> writes[i].0 in m
  }

  /** The stock table after the master's writes. */
  ghost function Written(m: map<Pair, Row<Stock>>, writes: seq<StockWrite>): (w: map<Pair, Row<Stock>>)
    requires Keyed(m, writes)
    ensures w.Keys == m.Keys
  {
    if writes == [] then m else
      var last := writes[|writes| - 1];
      WithValue(Written(m, writes[..|writes| - 1]), last.0, last.1)
  }

  // ---------- Payment ----------

  /** `customer` is the number given or found by last name. */
  datatype PaymentQuery = PaymentQuery(warehouse: int32, district: int32, customer: Triple, amount: float32)

  /** The customer row after a payment: only when the transaction is executed for good, and the
      text only with bad credit. */
  function Paid(c: Customer, printed: Printout, amount: float32, executed: bool, a: Arithmetic): Customer {
    if !executed then c else
      Customer(c.credit, a.sub(c.balance, amount), a.add(c.ytdPayment, amount), Wrap32(c.paymentCount + 1),
               if c.credit == BAD_CREDIT then Assigned(printed + c.text[..DATA_SIZE - |printed|]) else c.text, c.rest)
  }

  /** A text without zero bytes stays without. */
  lemma {:induction false} PaidHasNoZero(c: Customer, printed: Printout, amount: float32, executed: bool, a: Arithmetic)
    requires 0 !in c.text
    ensures 0 !in Paid(c, printed, amount, executed, a).text
  {
    hide Assigned, Wrap32;
    if executed && c.credit == BAD_CREDIT {
      AssignedHasNoZero(printed + c.text[..DATA_SIZE - |printed|]);
    }
  }

  ghost predicate KeepsRest(m: map<Pair, Row<Stock>>, writes: seq<StockWrite>) {
    Keyed(m, writes) && forall i :: 0 <= i < |writes| ==> writes[i].1.rest == m[writes[i].0].value.rest
  }

  lemma {:induction false} WritesKeepRest(stocks: map<Pair, Row<Stock>>, q: NewOrderQuery, a: Arithmetic)
    requires StockPresent(stocks, q.lines)
    ensures KeepsRest(stocks, StockWrites(stocks, q, a))
  {
  }

  ghost predicate NoZeros(customers: map<Triple, Row<Customer>>) {
    forall k :: k in customers ==> 0 !in customers[k].value.text
  }

  // ---------- transactions on tables ----------

  datatype Txn =
    | Order(order: NewOrderQuery, tid: nat)
    | Pay(payment: PaymentQuery, printed: Printout, executed: bool, tid: nat)

  ghost predicate RowsExist(t: Txn, warehouses: set<int32>,
          districts: set<Pair>, stocks: set<Pair>, customers: set<Triple>) {
    match t
    case Order(q, _) =>
        (q.warehouse, q.district) in districts && forall i :: 0 <= i < |q.lines| ==> StockKey(q.lines[i]) in stocks
    case Pay(q, _, _, _) =>
        q.warehouse in warehouses && (q.warehouse, q.district) in districts && q.customer in customers
  }

  datatype Tables = Tables(warehouses: map<int32, Row<Warehouse>>, districts: map<Pair, Row<District>>,
          stocks: map<Pair, Row<Stock>>, customers: map<Triple, Row<Customer>>)

  ghost predicate Possible(t: Tables, txn: Txn) {
    RowsExist(txn, t.warehouses.Keys, t.districts.Keys, t.stocks.Keys, t.customers.Keys)
  }

  /** No item number is the unused one. */
  predicate Accepted(q: NewOrderQuery) {
    forall i :: 0 <= i < |q.lines| ==> q.lines[i].item != 0
  }

  ghost function AfterOrder(t: Tables, q: NewOrderQuery, a: Arithmetic): Tables
    requires (q.warehouse, q.district) in t.districts && StockPresent(t.stocks, q.lines)
  {
    if !Accepted(q) then t else
      WritesKeepRest(t.stocks, q, a);
      t.(districts := WithValue(t.districts, (q.warehouse, q.district),
                                Ordered(t.districts[(q.warehouse, q.district)].value)),
         stocks := Written(t.stocks, StockWrites(t.stocks, q, a)))
  }

  ghost function AfterPayment(t: Tables, q: PaymentQuery, printed: Printout, executed: bool, a: Arithmetic): Tables
    requires q.warehouse in t.warehouses && (q.warehouse, q.district) in t.districts && q.customer in t.customers
  {
    var w, d := t.warehouses[q.warehouse].value, t.districts[(q.warehouse, q.district)].value;
    t.(warehouses := WithValue(t.warehouses, q.warehouse, w.(ytd := a.add(w.ytd, q.amount))),
       districts := WithValue(t.districts, (q.warehouse, q.district), d.(ytd := a.add(d.ytd, q.amount))),
       customers := WithValue(t.customers, q.customer,
                              Paid(t.customers[q.customer].value, printed, q.amount, executed, a)))
  }

  /** The master's tables after one transaction. */
  ghost function After(t: Tables, txn: Txn, a: Arithmetic): (r: Tables)
    requires Possible(t, txn)
    ensures SameKeySets(t, r)
  {
    match txn
    case Order(q, _) => AfterOrder(t, q, a)
    case Pay(q, printed, executed, _) => AfterPayment(t, q, printed, executed, a)
  }

  ghost predicate SameKeySets(t: Tables, r: Tables) {
    && r.warehouses.Keys == t.warehouses.Keys && r.districts.Keys == t.districts.Keys
    && r.stocks.Keys == t.stocks.Keys && r.customers.Keys == t.customers.Keys
  }

  /** The master's tables after a run. */
  ghost function AfterAll(t: Tables, txns: seq<Txn>, a: Arithmetic): (r: Tables)
    requires forall i :: 0 <= i < |txns| ==> Possible(t, txns[i])
    ensures SameKeySets(t, r)
  {
    if txns == [] then t else
      var front, txn := txns[..|txns| - 1], txns[|txns| - 1];
      assert forall i :: 0 <= i < |front| ==> front[i] == txns[i];
      var before := AfterAll(t, front, a);
      StillPossible(t, before, txn);
      After(before, txn, a)
  }

  lemma {:induction false} NoTxns(t: Tables, a: Arithmetic)
    ensures AfterAll(t, [], a) == t
  {
  }

  lemma {:induction false} OneTxnMore(t: Tables, txns: seq<Txn>, i: nat, a: Arithmetic)
    requires i < |txns| && forall k :: 0 <= k < |txns| ==> Possible(t, txns[k])
    ensures Possible(AfterAll(t, txns[..i], a), txns[i])
    ensures AfterAll(t, txns[..i + 1], a) == After(AfterAll(t, txns[..i], a), txns[i], a)
  {
    hide After, Possible;
    StillPossible(t, AfterAll(t, txns[..i], a), txns[i]);
    assert txns[..i + 1][..i] == txns[..i];
  }

  // ---------- what the transactions do to a row ----------

  /** `x` is `y + n` as far as 32 bits can count. */
  predicate Plus32(x: int32, y: int32, n: int) {
    (x - y - n) % 0x1_0000_0000 == 0
  }

  predicate Plus16(x: int16, y: int16, n: int) {
    (x - y - n) % 0x1_0000 == 0
  }

  /** Clause 2.4.2.2 on the stock row of one line: the quantity goes down by what is ordered, and up by
      91 if fewer than 10 would be left; one more order, one more remote order if it is one. */
  ghost predicate LineCounted(s: Stock, t: Stock, ordered: int, remote: bool, a: Arithmetic) {
    && Plus16(t.quantity, s.quantity, if s.quantity - ordered >= 10 then -ordered else 91 - ordered)
    && t.ytd == a.addInt(s.ytd, ordered) && Plus32(t.orderCount, s.orderCount, 1)
    && Plus32(t.remoteCount, s.remoteCount, if remote then 1 else 0) && t.rest == s.rest
  }

  lemma {:induction false} SuppliedIsCounted(s: Stock, warehouse: int32, line: Line, a: Arithmetic)
    ensures LineCounted(s, Supplied(s, warehouse, line, a), line.quantity, line.supplier != warehouse, a)
  {
  }

  /** One order more in a district. */
  predicate OrderNumbered(d: District, e: District) {
    Plus32(e.nextOrder, d.nextOrder, 1) && e.ytd == d.ytd && e.rest == d.rest
  }

  lemma {:induction false} OrderedIsNumbered(d: District)
    ensures OrderNumbered(d, Ordered(d))
  {
  }

  /** Clause 2.5.2.2 on the customer row: when the payment is executed for good it is taken off the
      balance and counted; with bad credit the printed numbers are put in front of the old text, of
      which as much is kept as there is room for, up to a zero byte. */
  ghost predicate PaymentCounted(c: Customer, e: Customer, printed: Printout, amount: float32, executed: bool,
          a: Arithmetic) {
    && e.credit == c.credit && e.rest == c.rest && (!executed ==> e == c)
    && (executed ==>
          && e.balance == a.sub(c.balance, amount) && e.ytdPayment == a.add(c.ytdPayment, amount)
          && Plus32(e.paymentCount, c.paymentCount, 1))
    && (c.credit != BAD_CREDIT ==> e.text == c.text)
    && (executed && c.credit == BAD_CREDIT && 0 !in printed && 0 !in c.text ==>
          e.text[..|printed|] == printed && e.text[|printed|..] == c.text[..DATA_SIZE - |printed|])
  }

  lemma {:induction false} PaidIsCounted(c: Customer, printed: Printout, amount: float32, executed: bool, a: Arithmetic)
    ensures PaymentCounted(c, Paid(c, printed, amount, executed, a), printed, amount, executed, a)
  {
    hide Assigned;
    AssignedIsSame(printed + c.text[..DATA_SIZE - |printed|]);
  }

  // ---------- what an order does to the stock table ----------

  /** The last line of an order with this key. */
  ghost predicate LastLine(lines: seq<Line>, k: Pair, i: nat) {
    i < |lines| && StockKey(lines[i]) == k && forall j :: i < j < |lines| ==> StockKey(lines[j]) != k
  }

  ghost predicate Orders(q: NewOrderQuery, k: Pair) {
    exists i :: 0 <= i < |q.lines| && StockKey(q.lines[i]) == k
  }

  lemma {:induction false} WrittenLast(m: map<Pair, Row<Stock>>, writes: seq<StockWrite>, k: Pair)
    requires Keyed(m, writes) && k in m
    ensures Written(m, writes)[k].tid == m[k].tid
    ensures (forall i :: 0 <= i < |writes| ==> writes[i].0 != k) ==> Written(m, writes)[k] == m[k]
    ensures forall i :: 0 <= i < |writes| && writes[i].0 == k && (forall j :: i < j < |writes| ==> writes[j].0 != k) ==>
              Written(m, writes)[k].value == writes[i].1
    decreases |writes|
  {
    if writes != [] {
      var front := writes[..|writes| - 1];
      WrittenLast(m, front, k);
      assert forall i :: 0 <= i < |front| ==> front[i] == writes[i];
    }
  }

  lemma {:induction false} LastLineExists(lines: seq<Line>, k: Pair, n: nat) returns (i: nat)
    requires n <= |lines| && (forall j :: n <= j < |lines| ==> StockKey(lines[j]) != k)
    requires exists j :: 0 <= j < n && StockKey(lines[j]) == k
    ensures LastLine(lines, k, i)
  {
    i := n - 1;
    if StockKey(lines[i]) != k {
      i := LastLineExists(lines, k, n - 1);
    }
  }

  /** The row is that of the last line with its key. */
  ghost predicate CountedByLast(q: NewOrderQuery, k: Pair, s: Stock, r: Stock, a: Arithmetic) {
    exists i: nat :: LastLine(q.lines, k, i) && LineCounted(s, r, q.lines[i].quantity, k.0 != q.warehouse, a)
  }

  /** An order counts once on each stock row it names, however many lines name it; the quantity is
      that of the last of them. All other rows stay. */
  lemma {:induction false} OrderCounts(t: Tables, q: NewOrderQuery, a: Arithmetic, k: Pair)
    requires (q.warehouse, q.district) in t.districts && StockPresent(t.stocks, q.lines) && Accepted(q) && k in t.stocks
    ensures k in AfterOrder(t, q, a).stocks
    ensures var s, r := t.stocks[k], AfterOrder(t, q, a).stocks[k];
            if Orders(q, k)
            then r.tid == s.tid && CountedByLast(q, k, s.value, r.value, a)
            else r == s
  {
    hide Supplied, LineCounted, Written;
    WritesKeepRest(t.stocks, q, a);
    var writes := StockWrites(t.stocks, q, a);
    WrittenLast(t.stocks, writes, k);
    if Orders(q, k) {
      var i := LastLineExists(q.lines, k, |q.lines|);
      assert writes[i].0 == k && forall j :: i < j < |writes| ==> writes[j].0 != k;
      SuppliedIsCounted(t.stocks[k].value, q.warehouse, q.lines[i], a);
    }
  }

  /** An order with home lines only leaves every remote count as it was. */
  lemma {:induction false} HomeOrder(t: Tables, q: NewOrderQuery, a: Arithmetic, k: Pair)
    requires (q.warehouse, q.district) in t.districts && StockPresent(t.stocks, q.lines) && k in t.stocks
    requires forall i :: 0 <= i < |q.lines| ==> q.lines[i].supplier == q.warehouse
    ensures k in AfterOrder(t, q, a).stocks
    ensures AfterOrder(t, q, a).stocks[k].value.remoteCount == t.stocks[k].value.remoteCount
  {
    if Accepted(q) {
      OrderCounts(t, q, a, k);
    }
  }

  // ---------- what a run counts ----------

  function OrdersIn(txns: seq<Txn>, d: Pair): nat {
    if txns == [] then 0
    else
      var txn := txns[|txns| - 1];
      OrdersIn(txns[..|txns| - 1], d)
      + if txn.Order? && Accepted(txn.order) && (txn.order.warehouse, txn.order.district) == d then 1 else 0
  }

  /** The orders that name a stock row; with `remote` those of other warehouses only. */
  ghost function OrdersOf(txns: seq<Txn>, k: Pair, remote: bool): nat {
    if txns == [] then 0
    else
      var txn := txns[|txns| - 1];
      OrdersOf(txns[..|txns| - 1], k, remote)
      + if txn.Order? && Accepted(txn.order) && Orders(txn.order, k) && (remote ==> k.0 != txn.order.warehouse) then 1
        else 0
  }

  function PaymentsOf(txns: seq<Txn>, c: Triple): nat {
    if txns == [] then 0
    else
      var txn := txns[|txns| - 1];
      PaymentsOf(txns[..|txns| - 1], c) + if txn.Pay? && txn.executed && txn.payment.customer == c then 1 else 0
  }

  lemma {:induction false} Adds(x: int32, y: int32, z: int32, m: int, n: int)
    requires Plus32(y, x, m) && Plus32(z, y, n)
    ensures Plus32(z, x, m + n)
  {
    assert z - x - (m + n) == (z - y - n) + (y - x - m);
  }

  /** Over any run the next order number of a district goes up by the orders taken there. */
  lemma {:induction false} RunCountsOrders(t: Tables, txns: seq<Txn>, a: Arithmetic, d: Pair)
    requires (forall i :: 0 <= i < |txns| ==> Possible(t, txns[i])) && d in t.districts
    ensures d in AfterAll(t, txns, a).districts
    ensures Plus32(AfterAll(t, txns, a).districts[d].value.nextOrder, t.districts[d].value.nextOrder, OrdersIn(txns, d))
  {
    hide Plus32, Possible, Written, StockWrites, Ordered, Paid;
    if txns == [] {
      NothingAdded(t.districts[d].value.nextOrder);
    } else {
      var front, txn := txns[..|txns| - 1], txns[|txns| - 1];
      var before := AfterAll(t, front, a);
      RunCountsOrders(t, front, a, d);
      StillPossible(t, before, txn);
      OneStepOrders(before, txn, a, d);
      Adds(t.districts[d].value.nextOrder, before.districts[d].value.nextOrder,
           AfterAll(t, txns, a).districts[d].value.nextOrder, OrdersIn(front, d),
           OrdersIn(txns, d) - OrdersIn(front, d));
    }
  }

  lemma {:induction false} NothingAdded(x: int32)
    ensures Plus32(x, x, 0)
  {
  }

  lemma {:induction false} StillPossible(t: Tables, r: Tables, txn: Txn)
    requires Possible(t, txn) && SameKeySets(t, r)
    ensures Possible(r, txn)
  {
  }

  lemma {:induction false} OneStepOrders(t: Tables, txn: Txn, a: Arithmetic, d: Pair)
    requires Possible(t, txn) && d in t.districts
    ensures Plus32(After(t, txn, a).districts[d].value.nextOrder, t.districts[d].value.nextOrder,
                   if txn.Order? && Accepted(txn.order) && (txn.order.warehouse, txn.order.district) == d then 1 else 0)
  {
    hide Written, StockWrites, Ordered, Paid;
    OrderedIsNumbered(t.districts[d].value);
  }

  /** And the counts of a stock row go up by the orders that name it, and by those of other warehouses. */
  lemma {:induction false} RunCountsLines(t: Tables, txns: seq<Txn>, a: Arithmetic, k: Pair)
    requires (forall i :: 0 <= i < |txns| ==> Possible(t, txns[i])) && k in t.stocks
    ensures k in AfterAll(t, txns, a).stocks
    ensures Plus32(AfterAll(t, txns, a).stocks[k].value.orderCount, t.stocks[k].value.orderCount,
                   OrdersOf(txns, k, false))
    ensures Plus32(AfterAll(t, txns, a).stocks[k].value.remoteCount, t.stocks[k].value.remoteCount,
                   OrdersOf(txns, k, true))
  {
    hide Plus32, Possible, After, Orders;
    var s := t.stocks[k].value;
    if txns == [] {
      NothingAdded(s.orderCount);
      NothingAdded(s.remoteCount);
    } else {
      var front, txn := txns[..|txns| - 1], txns[|txns| - 1];
      var before, after := AfterAll(t, front, a), AfterAll(t, txns, a);
      RunCountsLines(t, front, a, k);
      StillPossible(t, before, txn);
      OneStepLines(before, txn, a, k);
      var r := before.stocks[k].value;
      Adds(s.orderCount, r.orderCount, after.stocks[k].value.orderCount, OrdersOf(front, k, false),
           OrdersOf(txns, k, false) - OrdersOf(front, k, false));
      Adds(s.remoteCount, r.remoteCount, after.stocks[k].value.remoteCount, OrdersOf(front, k, true),
           OrdersOf(txns, k, true) - OrdersOf(front, k, true));
    }
  }

  lemma {:induction false} OneStepLines(t: Tables, txn: Txn, a: Arithmetic, k: Pair)
    requires Possible(t, txn) && k in t.stocks
    ensures var s, r := t.stocks[k].value, After(t, txn, a).stocks[k].value;
            var named := txn.Order? && Accepted(txn.order) && Orders(txn.order, k);
            && Plus32(r.orderCount, s.orderCount, if named then 1 else 0)
            && Plus32(r.remoteCount, s.remoteCount, if named && k.0 != txn.order.warehouse then 1 else 0)
  {
    hide Written, StockWrites, Ordered, Paid, Orders;
    if txn.Order? && Accepted(txn.order) {
      OrderCounts(t, txn.order, a, k);
    }
  }

  /** And the payment count of a customer by the payments executed for good. */
  lemma {:induction false} RunCountsPayments(t: Tables, txns: seq<Txn>, a: Arithmetic, c: Triple)
    requires (forall i :: 0 <= i < |txns| ==> Possible(t, txns[i])) && c in t.customers
    ensures c in AfterAll(t, txns, a).customers
    ensures Plus32(AfterAll(t, txns, a).customers[c].value.paymentCount, t.customers[c].value.paymentCount,
                   PaymentsOf(txns, c))
  {
    hide Plus32, Possible, After;
    if txns == [] {
      NothingAdded(t.customers[c].value.paymentCount);
    } else {
      var front, txn := txns[..|txns| - 1], txns[|txns| - 1];
      var before := AfterAll(t, front, a);
      RunCountsPayments(t, front, a, c);
      StillPossible(t, before, txn);
      OneStepPayments(before, txn, a, c);
      Adds(t.customers[c].value.paymentCount, before.customers[c].value.paymentCount,
           AfterAll(t, txns, a).customers[c].value.paymentCount, PaymentsOf(front, c),
           PaymentsOf(txns, c) - PaymentsOf(front, c));
    }
  }

  lemma {:induction false} OneStepPayments(t: Tables, txn: Txn, a: Arithmetic, c: Triple)
    requires Possible(t, txn) && c in t.customers
    ensures Plus32(After(t, txn, a).customers[c].value.paymentCount, t.customers[c].value.paymentCount,
                   if txn.Pay? && txn.executed && txn.payment.customer == c then 1 else 0)
  {
    hide Written, StockWrites, Ordered, Paid;
    if txn.Pay? {
      PaidIsCounted(t.customers[c].value, txn.printed, txn.payment.amount, txn.executed, a);
    }
  }
}
