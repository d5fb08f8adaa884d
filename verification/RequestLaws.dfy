/** Which requests the ledger accepts, and what each changes, told by quantities. */
module RequestLaws {
  import opened Options
  import opened PurchaseFsm
  import opened StockLaws
  import opened StockLedger

  // ----- adjustments -----

  predicate Complete(k: Key, quantity: int64) {
    quantity != 0 && k.sku != "" && k.warehouse != 0
  }

  /** The row exists, or the request creates it. */
  predicate HasRow(db: Db, k: Key, quantity: int64, kind: MovementKind) {
    k in db.stock || (quantity > 0 && kind == Inbound)
  }

  lemma WrapRange(x: int)
    requires -2 * (MAX_INT64 + 1) <= x <= 2 * MAX_INT64
    ensures Wrap(x) == if x > MAX_INT64 then x - 2 * MAX_INT64 - 2
                       else if x < -MAX_INT64 - 1 then x + 2 * MAX_INT64 + 2 else x
  {}

  /** A complete request on a known row is accepted exactly when the sum is neither
      negative nor too large (or, from a negative stock, so small that it wraps
      around); the reasons for a refusal; and a refusal changes nothing. */
  lemma AdjustExactly(home: Option<nat>, db: Db, k: Key, quantity: int64, kind: MovementKind)
    ensures var (db', reply) := Apply(home, db, Adjust(k, quantity, kind));
            var sum := Quantity(db, k) + quantity;
            (reply == BadRequest <==> !Complete(k, quantity))
            && (reply == NotFound <==> Complete(k, quantity) && !HasRow(db, k, quantity, kind))
            && (reply == Done <==> Complete(k, quantity) && HasRow(db, k, quantity, kind)
                                   && (0 <= sum <= MAX_INT64 || sum < -MAX_INT64 - 1))
            && (reply == StockInsufficient <==> Complete(k, quantity) && HasRow(db, k, quantity, kind)
                                                && (-MAX_INT64 - 1 <= sum < 0 || sum > MAX_INT64))
            && (reply != Done ==> db' == db)
  {
    hide Wrap;
    WrapRange(Quantity(db, k) + quantity);
  }

  /** Where stock is not negative, which it never is without an overflowing receipt:
      accepted if and only if the sum fits, and then the stock is the sum, the movement
      shows both quantities and the amount, and nothing else moves. */
  lemma AdjustFromStock(home: Option<nat>, db: Db, k: Key, quantity: int64, kind: MovementKind)
    requires Quantity(db, k) >= 0
    ensures var (db', reply) := Apply(home, db, Adjust(k, quantity, kind));
            var sum := Quantity(db, k) + quantity;
            (reply == Done <==> Complete(k, quantity) && HasRow(db, k, quantity, kind) && 0 <= sum <= MAX_INT64)
            && (Complete(k, quantity) && HasRow(db, k, quantity, kind) && reply != Done ==> reply == StockInsufficient)
            && (reply == Done ==>
                  Quantity(db', k) == sum
                  && (forall other :: other != k ==> Quantity(db', other) == Quantity(db, other))
                  && db'.orders == db.orders && db'.receives == db.receives
                  && |db'.movements| == |db.movements| + 1 && db.movements <= db'.movements
                  && var m := db'.movements[|db.movements|];
                     m.key == k && m.kind == kind && m.before == Quantity(db, k) && m.after == sum
                     && m.quantity == if quantity < 0 then -quantity else quantity)
            && (reply != Done ==> db' == db)
  {
    hide Wrap;
    WrapRange(Quantity(db, k) + quantity);
    WrapRange(-(quantity as int));
  }

  /** An accepted adjustment raises one pending low-stock alert, with the new stock and
      the safety stock, if and only if a positive safety stock is reached. */
  lemma AlertExactly(home: Option<nat>, db: Db, k: Key, quantity: int64, kind: MovementKind)
    ensures var (db', reply) := Apply(home, db, Adjust(k, quantity, kind));
            var threshold := if k in db.stock && k in db.safety then db.safety[k] else 0;
            db.alerts <= db'.alerts
            && (reply == Done && 0 < threshold && Quantity(db', k) <= threshold ==>
                  |db'.alerts| == |db.alerts| + 1
                  && db'.alerts[|db.alerts|] == Alert(k, LowStock, Quantity(db', k), threshold, true))
            && (reply != Done || threshold <= 0 || Quantity(db', k) > threshold ==> db'.alerts == db.alerts)
  {
    hide Wrap;
  }

  /** After any run without overflow, a withdrawal of at most what is in stock is
      served, a larger one is refused and changes nothing. */
  lemma WithdrawalServed(home: Option<nat>, db: Db, rs: seq<Request>, k: Key, n: int64, kind: MovementKind)
    requires Fresh(db) && NonNegative(db) && NeverOverflows(home, db, rs)
    requires n > 0 && k.sku != "" && k.warehouse != 0 && k in Run(home, db, rs).stock
    ensures var end := Run(home, db, rs);
            var (db', reply) := Apply(home, end, Adjust(k, -n, kind));
            if n <= Quantity(end, k) then reply == Done && Quantity(db', k) == Quantity(end, k) - n
            else reply == StockInsufficient && db' == end
  {
    hide Apply, NeverOverflows, Run;
    var end := Run(home, db, rs);
    StockConservedExactly(home, db, rs, k);
    AdjustFromStock(home, end, k, -n, kind);
    RefusalChangesNothing(home, end, Adjust(k, -n, kind));
  }

  /** After any run without overflow, goods can be added as long as the sum fits. */
  lemma InboundServed(home: Option<nat>, db: Db, rs: seq<Request>, k: Key, n: int64)
    requires Fresh(db) && NonNegative(db) && NeverOverflows(home, db, rs)
    requires n > 0 && k.sku != "" && k.warehouse != 0
    ensures var end := Run(home, db, rs);
            var (db', reply) := Apply(home, end, Adjust(k, n, Inbound));
            if Quantity(end, k) + n <= MAX_INT64 then reply == Done && Quantity(db', k) == Quantity(end, k) + n
            else reply == StockInsufficient && db' == end
  {
    hide Apply, NeverOverflows, Run;
    var end := Run(home, db, rs);
    StockConservedExactly(home, db, rs, k);
    AdjustFromStock(home, end, k, n, Inbound);
    RefusalChangesNothing(home, end, Adjust(k, n, Inbound));
  }

  // ----- every request -----

  lemma RefusalChangesNothing(home: Option<nat>, db: Db, r: Request)
    ensures Apply(home, db, r).1 != Done ==> Apply(home, db, r).0 == db
  {
    hide Wrap, FindRule;
  }

  /** Creating an order succeeds exactly for a quantity of at least one, and adds one
      ordered order; an automatic inquiry adds one inquiry. */
  lemma CreationExactly(home: Option<nat>, db: Db, sku: string, quantity: int64)
    ensures var (db', reply) := Apply(home, db, CreateOrder(sku, quantity));
            (reply == Done <==> quantity >= 1) && (reply != Done ==> reply == BadRequest)
            && (reply == Done ==>
                  db' == db.(orders := db'.orders) && |db'.orders| == |db.orders| + 1 && db.orders <= db'.orders
                  && var o := db'.orders[|db.orders|];
                     o.sku == sku && o.quantity == quantity && o.status == Ordered && o.created == Ordered
                     && o.history == [])
    ensures var (db', reply) := Apply(home, db, AutoInquiry(sku, quantity));
            reply == Done && db' == db.(orders := db'.orders) && |db'.orders| == |db.orders| + 1
            && db.orders <= db'.orders
            && var o := db'.orders[|db.orders|];
               o.sku == sku && o.status == Inquiry && o.created == Inquiry && o.history == []
               && (0 < quantity ==> o.quantity == if quantity <= MAX_INT64 / 2 then 2 * quantity else 100)
  {
    hide Wrap;
    WrapRange(quantity * 2);
  }

  /** Editing succeeds exactly for an order in inquiry or quoting and a quantity of at
      least one; it sets SKU and quantity of that order and nothing else. */
  lemma EditExactly(home: Option<nat>, db: Db, id: nat, sku: string, quantity: int64)
    ensures var (db', reply) := Apply(home, db, UpdateOrder(id, sku, quantity));
            (reply == Done <==> id < |db.orders| && db.orders[id].status in {Inquiry, Quoting} && quantity >= 1)
            && (id < |db.orders| && db.orders[id].status !in {Inquiry, Quoting} ==> reply == StateConflict)
            && (reply == Done ==>
                  |db'.orders| == |db.orders| && db' == db.(orders := db'.orders)
                  && (forall j :: 0 <= j < |db.orders| && j != id ==> db'.orders[j] == db.orders[j])
                  && var o, o' := db.orders[id], db'.orders[id];
                     o'.sku == sku && o'.quantity == quantity && o'.status == o.status && o'.created == o.created
                     && o'.history == o.history)
  {}

  /** An event fires exactly when the table allows it in the order's status and, for a
      receipt, the default warehouse exists; it is written to the order's history, and
      only a receipt touches the stock: by the order's quantity, in the default warehouse. */
  lemma TransitionExactly(home: Option<nat>, db: Db, id: nat, event: Event, to: Status)
    requires id < |db.orders| && event != Unknown("")
    ensures var (db', reply) := Apply(home, db, Transition(id, event));
            var o := db.orders[id];
            (reply == NotAllowed <==> forall s :: Target(o.status, event) != Some(s))
            && (Target(o.status, event) == Some(to) ==>
                  (reply == Done <==> event != Receive || home.Some?)
                  && (reply != Done ==> reply == NoWarehouse)
                  && (reply == Done ==>
                        |db'.orders| == |db.orders|
                        && (forall j :: 0 <= j < |db.orders| && j != id ==> db'.orders[j] == db.orders[j])
                        && var o' := db'.orders[id];
                           o'.status == to && o'.sku == o.sku && o'.quantity == o.quantity && o'.created == o.created
                           && o'.history == o.history + [HistoryItem(o.status, to, event)])
                  && (reply == Done && event != Receive ==> db' == db.(orders := db'.orders)))
  {
    hide FindRule, Wrap;
  }

  /** A receipt adds the order's goods to the default warehouse, one movement and one
      receive record, and leaves all other stock alone. */
  lemma ReceiptExactly(home: nat, db: Db, id: nat)
    requires id < |db.orders| && Target(db.orders[id].status, Receive).Some?
    ensures var db' := Apply(Some(home), db, Transition(id, Receive)).0;
            var o, k := db.orders[id], Key(home, db.orders[id].sku);
            var sum := Quantity(db, k) + o.quantity;
            (0 <= sum <= MAX_INT64 ==> Quantity(db', k) == sum)
            && (forall other :: other != k ==> Quantity(db', other) == Quantity(db, other))
            && db'.movements == db.movements + [Movement(k, Inbound, o.quantity, Quantity(db, k), Quantity(db', k))]
            && db'.receives == db.receives + [ReceiveRecord(id, o.quantity)]
            && db'.alerts == db.alerts
  {
    hide FindRule, Wrap;
    WrapRange(Quantity(db, Key(home, db.orders[id].sku)) + db.orders[id].quantity);
  }

  /** A safety stock can be set on an existing row only; a row that is created starts
      with none, whatever was set before. */
  lemma SafetyExactly(home: Option<nat>, db: Db, k: Key, threshold: int64, quantity: int64)
    ensures Safety(Apply(home, db, SetSafety(k, threshold)).0, k) == if k in db.stock then threshold else 0
    ensures var db' := Apply(home, db, SetSafety(k, threshold)).0;
            forall other :: other != k ==> Safety(db', other) == Safety(db, other)
    ensures var (db', reply) := Apply(home, db, Adjust(k, quantity, Inbound));
            forall other :: Safety(db', other) == if other == k && k !in db.stock then 0 else Safety(db, other)
  {
    hide Wrap;
  }
}
