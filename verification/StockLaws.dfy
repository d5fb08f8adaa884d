/** What every run of the handlers keeps, from a database without orders. */
module StockLaws {
  import opened Options
  import opened PurchaseFsm
  import opened StockLedger

  function Run(home: Option<nat>, db: Db, rs: seq<Request>): Db {
    if rs == [] then db else Apply(home, Run(home, db, rs[..|rs|-1]), rs[|rs|-1]).0
  }

  predicate Fresh(db: Db) {
    db.orders == [] && db.receives == [] && db.movements == []
  }

  // ----- orders -----

  /** The history leads from the initial status to the current one, every step
      allowed by the table. */
  predicate IsPath(created: Status, history: seq<HistoryItem>, status: Status) {
    if history == [] then status == created
    else
      var last := history[|history|-1];
      last.to == status && Target(last.from, last.event) == Some(last.to)
      && IsPath(created, history[..|history|-1], last.from)
  }

  function Receipts(history: seq<HistoryItem>): nat {
    if history == [] then 0
    else Receipts(history[..|history|-1]) + (if history[|history|-1].event == Receive then 1 else 0)
  }

  /** The quantities booked in for one order. */
  function BookedIn(receives: seq<ReceiveRecord>, id: nat): seq<int64> {
    if receives == [] then []
    else
      var last := receives[|receives|-1];
      BookedIn(receives[..|receives|-1], id) + (if last.order == id then [last.quantity] else [])
  }

  predicate OrderOk(o: Order) {
    o.quantity >= 1
    && o.created in {Ordered, Inquiry}
    && o.status != Tracking && o.status != NoStatus
    && IsPath(o.created, o.history, o.status)
    && Receipts(o.history) == if Stocked(o.status) then 1 else 0
  }

  /** One receive record per stocked order, for its full quantity; none otherwise. */
  predicate OrdersOk(db: Db) {
    (forall id :: 0 <= id < |db.orders| ==> OrderOk(db.orders[id]))
    && (forall id :: 0 <= id < |db.orders| ==>
          BookedIn(db.receives, id) == if Stocked(db.orders[id].status) then [db.orders[id].quantity] else [])
    && (forall k :: 0 <= k < |db.receives| ==> db.receives[k].order < |db.orders|)
  }

  lemma MovedOk(o: Order, e: Event)
    requires OrderOk(o) && Target(o.status, e).Some?
    ensures var o' := Moved(o, e, Target(o.status, e).value);
            OrderOk(o') && (Stocked(o'.status) <==> Stocked(o.status) || e == Receive)
            && (e == Receive ==> !Stocked(o.status))
  {
    hide Target, Stocked;
    var to := Target(o.status, e).value;
    ReceiptBoundary(o.status, e);
    NeverTracking(o.status, e);
    var o' := Moved(o, e, to);
    assert o'.history[..|o'.history|-1] == o.history;
  }

  lemma {:induction false} NoRecords(receives: seq<ReceiveRecord>, id: nat)
    requires forall k :: 0 <= k < |receives| ==> receives[k].order < id
    ensures BookedIn(receives, id) == []
  {
    if receives != [] { NoRecords(receives[..|receives|-1], id); }
  }

  lemma BookedInSnoc(receives: seq<ReceiveRecord>, r: ReceiveRecord, id: nat)
    ensures BookedIn(receives + [r], id) == BookedIn(receives, id) + (if r.order == id then [r.quantity] else [])
  {
    assert (receives + [r])[..|receives|] == receives;
  }

  lemma StepKeepsOrders(home: Option<nat>, db: Db, r: Request)
    requires OrdersOk(db)
    ensures OrdersOk(Apply(home, db, r).0)
  {
    hide Target, Stocked, IsPath, Receipts, BookedIn, Wrap;
    match r
    case CreateOrder(sku, quantity) =>
      NoRecords(db.receives, |db.orders|);
      FreshOrder(Order(sku, quantity, Ordered, Ordered, []));
    case AutoInquiry(sku, safetyStock) =>
      NoRecords(db.receives, |db.orders|);
      FreshOrder(NewInquiry(sku, safetyStock));
    case UpdateOrder(id, sku, quantity) =>
      if id < |db.orders| { EditableNotStocked(db.orders[id].status); }
    case Transition(id, event) =>
      TransitionKeepsOrders(home, db, id, event);
    case Adjust(_, _, _) =>
    case SetSafety(_, _) =>
  }

  lemma TransitionKeepsOrders(home: Option<nat>, db: Db, id: nat, event: Event)
    requires OrdersOk(db)
    ensures OrdersOk(Apply(home, db, Transition(id, event)).0)
  {
    hide Target, Stocked, IsPath, Receipts, BookedIn, Wrap, OrderOk, Moved;
    if id < |db.orders| && Target(db.orders[id].status, event).Some? {
      var o := db.orders[id];
      MovedOk(o, event);
      SameGoodsMoved(o, event);
      forall j ensures BookedIn(db.receives + [ReceiveRecord(id, o.quantity)], j)
                    == BookedIn(db.receives, j) + (if id == j then [o.quantity] else [])
      {
        BookedInSnoc(db.receives, ReceiveRecord(id, o.quantity), j);
      }
    }
  }

  lemma SameGoodsMoved(o: Order, e: Event)
    requires Target(o.status, e).Some?
    ensures var o' := Moved(o, e, Target(o.status, e).value); o'.quantity == o.quantity && o'.sku == o.sku
  {}

  lemma FreshOrder(o: Order)
    requires o.history == [] && o.status == o.created && o.created in {Ordered, Inquiry}
    ensures !Stocked(o.status) && (o.quantity >= 1 ==> OrderOk(o))
  {}

  lemma EditableNotStocked(s: Status)
    ensures Editable(s) ==> !Stocked(s)
  {}

  /** On every run each order's history is a path in the table from its initial
      status, with at most one receipt, which is booked in exactly once and for
      the whole quantity. */
  lemma {:induction false} OrdersStayOk(home: Option<nat>, db: Db, rs: seq<Request>)
    requires Fresh(db)
    ensures OrdersOk(Run(home, db, rs))
  {
    if rs != [] {
      OrdersStayOk(home, db, rs[..|rs|-1]);
      StepKeepsOrders(home, Run(home, db, rs[..|rs|-1]), rs[|rs|-1]);
    }
  }

  /** One order before and after some requests, once its goods have arrived. */
  predicate SameGoods(o: Order, o': Order) {
    Stocked(o'.status) && o'.sku == o.sku && o'.quantity == o.quantity && o.history <= o'.history
  }

  lemma StepKeepsGoods(home: Option<nat>, db: Db, r: Request, id: nat)
    requires id < |db.orders| && Stocked(db.orders[id].status)
    ensures id < |Apply(home, db, r).0.orders| && SameGoods(db.orders[id], Apply(home, db, r).0.orders[id])
  {
    hide Target, Stocked, Wrap;
    var o := db.orders[id];
    EditableNotStocked(o.status);
    if r.Transition? && r.id == id && Target(o.status, r.event).Some? {
      ReceiptBoundary(o.status, r.event);
    }
  }

  /** From the receipt on, an order's goods never change and it never leaves
      the stocked states. */
  lemma {:induction false} GoodsFrozen(home: Option<nat>, db: Db, rs: seq<Request>, id: nat)
    requires id < |db.orders| && Stocked(db.orders[id].status)
    ensures id < |Run(home, db, rs).orders| && SameGoods(db.orders[id], Run(home, db, rs).orders[id])
  {
    hide Apply, Stocked;
    if rs != [] {
      GoodsFrozen(home, db, rs[..|rs|-1], id);
      StepKeepsGoods(home, Run(home, db, rs[..|rs|-1]), rs[|rs|-1], id);
    }
  }

  // ----- the movement ledger -----

  /** The movements of `k` form a chain from `start` to `end`. */
  predicate Chained(ms: seq<Movement>, k: Key, start: int, end: int) {
    if ms == [] then start == end
    else
      var last := ms[|ms|-1];
      if last.key == k then last.after == end && Chained(ms[..|ms|-1], k, start, last.before)
      else Chained(ms[..|ms|-1], k, start, end)
  }

  lemma ChainedSnoc(ms: seq<Movement>, m: Movement, k: Key, start: int, end: int)
    ensures Chained(ms + [m], k, start, end) <==>
            if m.key == k then m.after == end && Chained(ms, k, start, m.before) else Chained(ms, k, start, end)
  {
    assert (ms + [m])[..|ms|] == ms;
  }

  lemma StepKeepsChain(home: Option<nat>, db: Db, r: Request, k: Key, start: int)
    requires Chained(db.movements, k, start, Quantity(db, k))
    ensures var db' := Apply(home, db, r).0; Chained(db'.movements, k, start, Quantity(db', k))
  {
    hide Chained, Target, Stocked, Wrap;
    var db' := Apply(home, db, r).0;
    if db'.movements != db.movements {
      assert |db'.movements| == |db.movements| + 1;
      ChainedSnoc(db.movements, db'.movements[|db.movements|], k, start, Quantity(db', k));
    }
  }

  /** Per warehouse and SKU, each movement starts at the quantity where the one
      before ended, and the last ends at the quantity in stock. */
  lemma {:induction false} LedgerChains(home: Option<nat>, db: Db, rs: seq<Request>, k: Key)
    requires Fresh(db)
    ensures var end := Run(home, db, rs); Chained(end.movements, k, Quantity(db, k), Quantity(end, k))
  {
    hide Apply;
    if rs != [] {
      LedgerChains(home, db, rs[..|rs|-1], k);
      StepKeepsChain(home, Run(home, db, rs[..|rs|-1]), rs[|rs|-1], k, Quantity(db, k));
    }
  }

  // ----- conservation -----

  function Share(o: Order, sku: string): int {
    if Stocked(o.status) && o.sku == sku then o.quantity else 0
  }

  /** The goods of all stocked orders for `sku`. */
  function StockedTotal(orders: seq<Order>, sku: string): int {
    if orders == [] then 0 else StockedTotal(orders[..|orders|-1], sku) + Share(orders[|orders|-1], sku)
  }

  lemma {:induction false} StockedTotalUpdate(orders: seq<Order>, id: nat, o: Order, sku: string)
    requires id < |orders|
    ensures StockedTotal(orders[id := o], sku) == StockedTotal(orders, sku) - Share(orders[id], sku) + Share(o, sku)
  {
    var init := orders[..|orders|-1];
    if id == |orders| - 1 {
      assert orders[id := o][..|orders|-1] == init;
    } else {
      StockedTotalUpdate(init, id, o, sku);
      assert orders[id := o][..|orders|-1] == init[id := o];
    }
  }

  /** What the purchase orders put into `k`: only the default warehouse receives. */
  function Purchased(home: Option<nat>, db: Db, k: Key): int {
    if home == Some(k.warehouse) then StockedTotal(db.orders, k.sku) else 0
  }

  /** The adjustment a request makes to `k`, if it is accepted. */
  function Adjustment(home: Option<nat>, db: Db, r: Request, k: Key): int {
    if r.Adjust? && r.key == k && Apply(home, db, r).1.Done? then r.quantity else 0
  }

  function TotalAdjusted(home: Option<nat>, db: Db, rs: seq<Request>, k: Key): int {
    if rs == [] then 0
    else
      var front := rs[..|rs|-1];
      TotalAdjusted(home, db, front, k) + Adjustment(home, Run(home, db, front), rs[|rs|-1], k)
  }

  lemma WrapAdds(x: int, y: int)
    ensures Wrap(Wrap(x) + y) == Wrap(x + y)
  {
    var a := x + MAX_INT64 + 1;
    assert a == (a / WORD) * WORD + a % WORD;
    var b := a % WORD + y;
    assert Wrap(x) + y + MAX_INT64 + 1 == b;
    assert x + y + MAX_INT64 + 1 == b + (a / WORD) * WORD;
    ModAddMultiple(b, a / WORD);
  }

  lemma ModAddMultiple(b: int, q: int)
    ensures (b + q * WORD) % WORD == b % WORD
  {
    var m := b + q * WORD;
    var d := m / WORD - (b / WORD + q);
    assert d * WORD == b % WORD - m % WORD;
  }

  /** Receiving an order moves its quantity from outside into the stocked total. */
  lemma TransitionShares(home: Option<nat>, db: Db, id: nat, e: Event, k: Key)
    requires OrdersOk(db) && id < |db.orders| && Target(db.orders[id].status, e).Some?
    ensures var o := db.orders[id];
            var o' := Moved(o, e, Target(o.status, e).value);
            StockedTotal(db.orders[id := o'], k.sku) - StockedTotal(db.orders, k.sku)
            == if e == Receive && o.sku == k.sku then o.quantity else 0
  {
    hide Target, Stocked;
    var o := db.orders[id];
    MovedOk(o, e);
    StockedTotalUpdate(db.orders, id, Moved(o, e, Target(o.status, e).value), k.sku);
  }

  /** What a request books into `k` as received goods. */
  function Receipt(home: Option<nat>, db: Db, r: Request, k: Key): int {
    if r.Transition? && r.event == Receive && Apply(home, db, r).1.Done? && r.id < |db.orders|
       && home == Some(k.warehouse) && db.orders[r.id].sku == k.sku
    then db.orders[r.id].quantity else 0
  }

  lemma StepShares(home: Option<nat>, db: Db, r: Request, k: Key)
    requires OrdersOk(db)
    ensures Purchased(home, Apply(home, db, r).0, k) - Purchased(home, db, k) == Receipt(home, db, r, k)
  {
    hide Target, Stocked, OrderOk, BookedIn, Wrap;
    match r
    case CreateOrder(sku, quantity) =>
      NewOrderTotal(db, Order(sku, quantity, Ordered, Ordered, []), k.sku);
    case AutoInquiry(sku, safetyStock) =>
      NewOrderTotal(db, NewInquiry(sku, safetyStock), k.sku);
    case UpdateOrder(id, sku, quantity) =>
      if id < |db.orders| {
        EditableNotStocked(db.orders[id].status);
        StockedTotalUpdate(db.orders, id, db.orders[id].(sku := sku, quantity := quantity), k.sku);
      }
    case Transition(id, e) =>
      if id < |db.orders| && Target(db.orders[id].status, e).Some? {
        TransitionShares(home, db, id, e, k);
      }
    case Adjust(_, _, _) =>
    case SetSafety(_, _) =>
  }

  lemma StepBooks(home: Option<nat>, db: Db, r: Request, k: Key)
    ensures Quantity(Apply(home, db, r).0, k)
         == Wrap(Quantity(db, k) + Adjustment(home, db, r, k) + Receipt(home, db, r, k))
  {
    hide Target, Stocked;
    WrapSmall(Quantity(db, k));
  }

  lemma WrapSmall(x: int64)
    ensures Wrap(x) == x
  {}

  lemma NewOrderTotal(db: Db, o: Order, sku: string)
    requires o.status == Ordered || o.status == Inquiry
    ensures StockedTotal(db.orders + [o], sku) == StockedTotal(db.orders, sku)
  {
    assert (db.orders + [o])[..|db.orders|] == db.orders;
  }

  /** In 64-bit arithmetic, the stock of a SKU is what was there at the start,
      plus all accepted adjustments, plus (in the default warehouse) the
      quantities of the orders that are received, in QC, reconciling or settled. */
  lemma {:induction false} StockConserved(home: Option<nat>, db: Db, rs: seq<Request>, k: Key)
    requires Fresh(db)
    ensures var end := Run(home, db, rs);
            Quantity(end, k) == Wrap(Quantity(db, k) + TotalAdjusted(home, db, rs, k) + Purchased(home, end, k))
  {
    hide Apply, Wrap, Adjustment, Quantity, Purchased, Receipt;
    if rs == [] {
      NothingPurchased(home, db, k);
      WrapSmall(Quantity(db, k));
    } else {
      var front := Run(home, db, rs[..|rs|-1]);
      StockConserved(home, db, rs[..|rs|-1], k);
      OrdersStayOk(home, db, rs[..|rs|-1]);
      StepBooks(home, front, rs[|rs|-1], k);
      StepShares(home, front, rs[|rs|-1], k);
      WrapAdds(Quantity(db, k) + TotalAdjusted(home, db, rs[..|rs|-1], k) + Purchased(home, front, k),
               Adjustment(home, front, rs[|rs|-1], k)
               + Purchased(home, Run(home, db, rs), k) - Purchased(home, front, k));
    }
  }

  lemma NothingPurchased(home: Option<nat>, db: Db, k: Key)
    requires db.orders == []
    ensures Purchased(home, db, k) == 0
  {}

  // ----- no negative stock, exactly when no receipt overflows -----

  predicate NonNegative(db: Db) {
    forall k :: k in db.stock ==> db.stock[k] >= 0
  }

  /** An accepted receipt whose sum leaves the 64-bit range: the case the
      receiving code does not check. */
  predicate Overflows(home: Option<nat>, db: Db, r: Request) {
    r.Transition? && r.event == Receive && Apply(home, db, r).1.Done? && home.Some? && r.id < |db.orders|
    && Quantity(db, Key(home.value, db.orders[r.id].sku)) + db.orders[r.id].quantity > MAX_INT64
  }

  lemma StepNonNegative(home: Option<nat>, db: Db, r: Request)
    requires OrdersOk(db) && NonNegative(db)
    ensures NonNegative(Apply(home, db, r).0) <==> !Overflows(home, db, r)
  {
    hide Target, Stocked, IsPath, Receipts, BookedIn;
    if r.Transition? && r.event == Receive && Apply(home, db, r).1.Done? {
      assert OrderOk(db.orders[r.id]);
      var k := Key(home.value, db.orders[r.id].sku);
      assert k in Apply(home, db, r).0.stock;
    }
  }

  lemma StepExact(home: Option<nat>, db: Db, r: Request, k: Key)
    requires OrdersOk(db) && NonNegative(db) && !Overflows(home, db, r)
    ensures Quantity(Apply(home, db, r).0, k)
         == Quantity(db, k) + Adjustment(home, db, r, k) + Receipt(home, db, r, k)
  {
    hide Target, Stocked, IsPath, Receipts, BookedIn;
    StepBooks(home, db, r, k);
    if r.Transition? && r.id < |db.orders| {
      assert OrderOk(db.orders[r.id]);
    }
  }

  /** No stock level is negative, now or at any point before. */
  predicate NeverNegative(home: Option<nat>, db: Db, rs: seq<Request>) {
    NonNegative(Run(home, db, rs)) && (rs != [] ==> NeverNegative(home, db, rs[..|rs|-1]))
  }

  predicate NeverOverflows(home: Option<nat>, db: Db, rs: seq<Request>) {
    rs != [] ==>
      NeverOverflows(home, db, rs[..|rs|-1]) && !Overflows(home, Run(home, db, rs[..|rs|-1]), rs[|rs|-1])
  }

  /** Stock never goes below zero on a run if and only if no receipt on it
      overflows; manual adjustments are always safe. */
  lemma {:induction false} NonNegativeExactly(home: Option<nat>, db: Db, rs: seq<Request>)
    requires Fresh(db) && NonNegative(db)
    ensures NeverNegative(home, db, rs) <==> NeverOverflows(home, db, rs)
  {
    hide Apply, Overflows, NonNegative;
    if rs != [] {
      NonNegativeExactly(home, db, rs[..|rs|-1]);
      OrdersStayOk(home, db, rs[..|rs|-1]);
      if NeverNegative(home, db, rs[..|rs|-1]) {
        NeverNegativeNow(home, db, rs[..|rs|-1]);
        StepNonNegative(home, Run(home, db, rs[..|rs|-1]), rs[|rs|-1]);
      }
    }
  }

  lemma NeverNegativeNow(home: Option<nat>, db: Db, rs: seq<Request>)
    requires NeverNegative(home, db, rs)
    ensures NonNegative(Run(home, db, rs))
  {}

  /** On such a run the balance is exact. */
  lemma {:induction false} StockConservedExactly(home: Option<nat>, db: Db, rs: seq<Request>, k: Key)
    requires Fresh(db) && NonNegative(db) && NeverOverflows(home, db, rs)
    ensures var end := Run(home, db, rs);
            Quantity(end, k) == Quantity(db, k) + TotalAdjusted(home, db, rs, k) + Purchased(home, end, k)
    ensures NonNegative(Run(home, db, rs))
  {
    hide Apply, Wrap, Adjustment, Quantity, Purchased, Receipt, Overflows, NonNegative;
    if rs == [] {
      NothingPurchased(home, db, k);
    } else {
      StockConservedExactly(home, db, rs[..|rs|-1], k);
      OrdersStayOk(home, db, rs[..|rs|-1]);
      StepExact(home, Run(home, db, rs[..|rs|-1]), rs[|rs|-1], k);
      StepShares(home, Run(home, db, rs[..|rs|-1]), rs[|rs|-1], k);
      StepNonNegative(home, Run(home, db, rs[..|rs|-1]), rs[|rs|-1]);
    }
  }

  /** Two receipts of half the range each are enough to go below zero. */
  lemma OverflowGoesNegative(home: nat, sku: string)
    ensures var half := 0x4000_0000_0000_0000;
            var rs := [CreateOrder(sku, half), CreateOrder(sku, half), Transition(0, Receive), Transition(1, Receive)];
            Quantity(Run(Some(home), Db([], map[], map[], [], [], []), rs), Key(home, sku)) < 0
  {
    hide FindRule;
    var half := 0x4000_0000_0000_0000;
    var db := Db([], map[], map[], [], [], []);
    var k := Key(home, sku);
    var rs := [CreateOrder(sku, half), CreateOrder(sku, half), Transition(0, Receive), Transition(1, Receive)];
    assert rs[..3][..2] == rs[..2] && rs[..2][..1] == rs[..1] && rs[..1][..0] == [];
    var o := Order(sku, half, Ordered, Ordered, []);
    assert Run(Some(home), db, rs[..1]).orders == [o];
    assert Run(Some(home), db, rs[..2]).orders == [o, o];
    OrderedReceives();
    var third := Run(Some(home), db, rs[..3]);
    assert third.orders[1] == o && Quantity(third, k) == half;
    assert Run(Some(home), db, rs) == Apply(Some(home), third, rs[3]).0;
    assert Quantity(Run(Some(home), db, rs), k) == Wrap(half + half);
  }

  lemma OrderedReceives()
    ensures Target(Ordered, Receive) == Some(Received)
  {
    assert RULES[5] in RULES && Matches(RULES[5], Ordered, Receive);
    TargetIff(Ordered, Receive, Received);
  }
}
