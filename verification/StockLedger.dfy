/** Purchase orders, stock and the movement ledger: the handlers that write
    them, one atomic transaction each. */
module StockLedger {
  import opened Options
  import opened PurchaseFsm

  const MAX_INT64 := 0x7fff_ffff_ffff_ffff
  const WORD := 0x1_0000_0000_0000_0000

  type int64 = x: int | -MAX_INT64 - 1 <= x <= MAX_INT64

  /** Go's int arithmetic: the value modulo 2^64 in the signed range. */
  function Wrap(x: int): int64 {
    (x + MAX_INT64 + 1) % WORD - MAX_INT64 - 1
  }

  datatype HistoryItem = HistoryItem(from: Status, to: Status, event: Event)

  /** `created` is the status the order was inserted with. */
  datatype Order = Order(sku: string, quantity: int64, status: Status, created: Status, history: seq<HistoryItem>)

  datatype Key = Key(warehouse: nat, sku: string)

  datatype MovementKind = Inbound | Outbound | Adjusted | Returned

  datatype Movement = Movement(key: Key, kind: MovementKind, quantity: int64, before: int64, after: int64)

  datatype ReceiveRecord = ReceiveRecord(order: nat, quantity: int64)

  datatype AlertKind = LowStock | OutOfStock

  datatype Alert = Alert(key: Key, kind: AlertKind, quantity: int64, threshold: int64, pending: bool)

  /** Orders are named by their position in the table. `safety` has the safety stocks
      that were set; the others are zero. */
  datatype Db = Db(orders: seq<Order>, stock: map<Key, int64>, safety: map<Key, int64>,
                   movements: seq<Movement>, receives: seq<ReceiveRecord>, alerts: seq<Alert>)

  datatype Request =
    | CreateOrder(sku: string, quantity: int64)
    | AutoInquiry(sku: string, safetyStock: int64)
    | UpdateOrder(id: nat, sku: string, quantity: int64)
    | Transition(id: nat, event: Event)
    | Adjust(key: Key, quantity: int64, kind: MovementKind)
    | SetSafety(key: Key, safetyStock: int64)

  datatype Reply = Done | BadRequest | NotFound | StateConflict | NotAllowed | NoWarehouse | StockInsufficient

  // ----- what one request does -----

  function Quantity(db: Db, k: Key): int64 {
    if k in db.stock then db.stock[k] else 0
  }

  function Safety(db: Db, k: Key): int64 {
    if k in db.stock && k in db.safety then db.safety[k] else 0
  }

  /** A new stock row starts without a safety stock. */
  function SafetyWithRow(db: Db, k: Key): map<Key, int64> {
    if k in db.stock then db.safety else db.safety[k := 0]
  }

  /** The alert an adjustment raises, if it leaves the stock at or below the safety stock. */
  function Raised(db: Db, k: Key, after: int64): seq<Alert> {
    if Safety(db, k) > 0 && after <= Safety(db, k) then [Alert(k, LowStock, after, Safety(db, k), true)] else []
  }

  /** The quantity the alert pass orders. */
  function ReorderQuantity(safetyStock: int64): int64 {
    var q := Wrap(safetyStock * 2);
    if q <= 0 then 100 else q
  }

  /** The order the alert pass inserts. */
  function NewInquiry(sku: string, safetyStock: int64): Order {
    Order(sku, ReorderQuantity(safetyStock), Inquiry, Inquiry, [])
  }

  /** `handleReceive`, when the default warehouse exists. */
  function AfterReceipt(db: Db, id: nat, warehouse: nat): Db
    requires id < |db.orders|
  {
    var o := db.orders[id];
    var k := Key(warehouse, o.sku);
    var before := Quantity(db, k);
    var after := Wrap(before + o.quantity);
    db.(stock := db.stock[k := after],
        safety := SafetyWithRow(db, k),
        movements := db.movements + [Movement(k, Inbound, o.quantity, before, after)],
        receives := db.receives + [ReceiveRecord(id, o.quantity)])
  }

  function Moved(o: Order, e: Event, to: Status): Order {
    o.(status := to, history := o.history + [HistoryItem(o.status, to, e)])
  }

  function Apply(home: Option<nat>, db: Db, r: Request): (Db, Reply) {
    match r
    case CreateOrder(sku, quantity) =>
      if quantity < 1 then (db, BadRequest)
      else (db.(orders := db.orders + [Order(sku, quantity, Ordered, Ordered, [])]), Done)
    case AutoInquiry(sku, safetyStock) =>
      (db.(orders := db.orders + [NewInquiry(sku, safetyStock)]), Done)
    case UpdateOrder(id, sku, quantity) =>
      if id >= |db.orders| then (db, NotFound)
      else if !Editable(db.orders[id].status) then (db, StateConflict)
      else if quantity < 1 then (db, BadRequest)
      else (db.(orders := db.orders[id := db.orders[id].(sku := sku, quantity := quantity)]), Done)
    case Transition(id, event) =>
      if event == Unknown("") then (db, BadRequest)
      else if id >= |db.orders| then (db, NotFound)
      else
        var o := db.orders[id];
        var to := Target(o.status, event);
        if to.None? then (db, NotAllowed)
        else if event == Receive && home.None? then (db, NoWarehouse)
        else
          var moved := db.(orders := db.orders[id := Moved(o, event, to.value)]);
          (if event == Receive then AfterReceipt(moved, id, home.value) else moved, Done)
    case Adjust(k, quantity, kind) =>
      if quantity == 0 || k.sku == "" || k.warehouse == 0 then (db, BadRequest)
      else if k !in db.stock && !(quantity > 0 && kind == Inbound) then (db, NotFound)
      else
        var before := Quantity(db, k);
        var after := Wrap(before + quantity);
        if after < 0 then (db, StockInsufficient)
        else
          var amount := if quantity < 0 then Wrap(-(quantity as int)) else quantity;
          (db.(stock := db.stock[k := after],
               safety := SafetyWithRow(db, k),
               movements := db.movements + [Movement(k, kind, amount, before, after)],
               alerts := db.alerts + Raised(db, k, after)), Done)
    case SetSafety(k, safetyStock) =>
      (if k in db.stock then db.(safety := db.safety[k := safetyStock]) else db, Done)
  }

  // ----- the handlers -----

  class Handlers {
    const home: Option<nat>
    var orders: seq<Order>
    var stock: map<Key, int64>
    var safety: map<Key, int64>
    var movements: seq<Movement>
    var receives: seq<ReceiveRecord>
    var alerts: seq<Alert>

    ghost function View(): Db
      reads this
    {
      Db(orders, stock, safety, movements, receives, alerts)
    }

    constructor (home: Option<nat>, stock: map<Key, int64>, safety: map<Key, int64>)
      ensures this.home == home && View() == Db([], stock, safety, [], [], [])
    {
      this.home, this.stock, this.safety := home, stock, safety;
      orders, movements, receives, alerts := [], [], [], [];
    }

    method HandleCreateOrder(sku: string, quantity: int64) returns (reply: Reply)
      modifies this
      ensures (View(), reply) == Apply(home, old(View()), CreateOrder(sku, quantity))
    {
      if quantity < 1 { return BadRequest; }
      orders := orders + [Order(sku, quantity, Ordered, Ordered, [])];
      return Done;
    }

    method HandleUpdateOrder(id: nat, sku: string, quantity: int64) returns (reply: Reply)
      modifies this
      ensures (View(), reply) == Apply(home, old(View()), UpdateOrder(id, sku, quantity))
    {
      if id >= |orders| { return NotFound; }
      if orders[id].status != Inquiry && orders[id].status != Quoting { return StateConflict; }
      if quantity < 1 { return BadRequest; }
      orders := orders[id := orders[id].(sku := sku, quantity := quantity)];
      return Done;
    }

    method HandleTransition(id: nat, event: Event) returns (reply: Reply)
      modifies this
      ensures (View(), reply) == Apply(home, old(View()), Transition(id, event))
    {
      hide FindRule, Target, AfterReceipt, Wrap;
      if event == Unknown("") { return BadRequest; }
      if id >= |orders| { return NotFound; }
      var order := orders[id];
      var sm := new StateMachine(order.status);
      var ok, allowed := sm.Transition(event);
      if !ok { return NotAllowed; }
      var newStatus := sm.current;
      var saved := orders;
      var history := order.history + [HistoryItem(order.status, newStatus, event)];
      orders := orders[id := order.(status := newStatus, history := history)];
      if event == Receive {
        var received := HandleReceive(id);
        if !received {
          orders := saved;
          return NoWarehouse;
        }
      }
      return Done;
    }

    /** Adds the goods of an order to the default warehouse. */
    method HandleReceive(id: nat) returns (ok: bool)
      requires id < |orders|
      modifies this`stock, this`safety, this`movements, this`receives
      ensures ok <==> home.Some?
      ensures View() == if ok then AfterReceipt(old(View()), id, home.value) else old(View())
    {
      if home.None? { return false; }
      var order := orders[id];
      var key := Key(home.value, order.sku);
      if key !in stock {
        stock, safety := stock[key := 0], safety[key := 0];
      }
      var beforeQty := stock[key];
      stock := stock[key := Wrap(beforeQty + order.quantity)];
      movements := movements + [Movement(key, Inbound, order.quantity, beforeQty, stock[key])];
      receives := receives + [ReceiveRecord(id, order.quantity)];
      assert old(stock)[key := 0][key := stock[key]] == old(stock)[key := stock[key]];
      return true;
    }

    method HandleAdjust(key: Key, quantity: int64, kind: MovementKind) returns (reply: Reply)
      modifies this
      ensures (View(), reply) == Apply(home, old(View()), Adjust(key, quantity, kind))
    {
      if quantity == 0 || key.sku == "" || key.warehouse == 0 { return BadRequest; }
      var saved, savedSafety := stock, safety;
      if key !in stock {
        if quantity > 0 && kind == Inbound {
          stock, safety := stock[key := 0], safety[key := 0];
        } else {
          return NotFound;
        }
      }
      var beforeQty := stock[key];
      var afterQty := Wrap(beforeQty + quantity);
      if afterQty < 0 {
        stock, safety := saved, savedSafety;
        return StockInsufficient;
      }
      stock := stock[key := afterQty];
      assert stock == saved[key := afterQty];
      var absQty := quantity;
      if absQty < 0 { absQty := Wrap(-(quantity as int)); }
      movements := movements + [Movement(key, kind, absQty, beforeQty, afterQty)];
      var safetyStock := if key in safety then safety[key] else 0;
      if safetyStock > 0 && afterQty <= safetyStock {
        alerts := alerts + [Alert(key, LowStock, afterQty, safetyStock, true)];
      }
      assert alerts == old(alerts) + Raised(old(View()), key, afterQty);
      return Done;
    }

    /** The safety stock is set on an existing row only. */
    method HandleUpdateInventory(key: Key, safetyStock: int64) returns (reply: Reply)
      modifies this
      ensures (View(), reply) == Apply(home, old(View()), SetSafety(key, safetyStock))
    {
      if key in stock { safety := safety[key := safetyStock]; }
      return Done;
    }
  }
}
