/** The low-stock pass: one inquiry order and one round of messages per low row,
    unless an unread message for the row is still there. */
module StockAlerts {
  import opened Numerals
  import opened Options
  import opened PurchaseFsm
  import StockLaws
  import StockLedger

  datatype Row = Row(warehouse: nat, sku: string, available: StockLedger.int64, safety: StockLedger.int64)

  /** Suppliers of the products that have one, the default supplier (0 when there
      is none), and the users to notify. */
  datatype Catalog = Catalog(suppliers: map<string, nat>, defaultSupplier: nat, notify: seq<nat>)

  /** An order with the warehouse its remark names and its supplier. */
  datatype Placed = Placed(order: StockLedger.Order, warehouse: nat, supplier: nat)

  datatype Level = Warning | Critical

  datatype Message = Message(user: nat, level: Level, refId: string, read: bool)

  datatype AlertDb = AlertDb(placed: seq<Placed>, messages: seq<Message>, alerts: seq<StockLedger.Alert>)

  // ----- one row -----

  predicate Low(r: Row) {
    r.safety > 0 && r.available <= r.safety
  }

  function LowRows(table: seq<Row>): (low: seq<Row>)
    ensures |low| <= |table|
  {
    if table == [] then []
    else LowRows(table[..|table|-1]) + if Low(table[|table|-1]) then [table[|table|-1]] else []
  }

  function RefId(sku: string, warehouse: nat): string {
    sku + "-" + Decimal(warehouse)
  }

  /** The message key identifies SKU and warehouse, whatever the SKU contains. */
  lemma RefIdExact(sku1: string, wh1: nat, sku2: string, wh2: nat)
    ensures RefId(sku1, wh1) == RefId(sku2, wh2) <==> sku1 == sku2 && wh1 == wh2
  {
    hide Print;
    if RefId(sku1, wh1) == RefId(sku2, wh2) {
      assert "-" == ['-'];
      LastSeparator(sku1, Decimal(wh1), sku2, Decimal(wh2), '-');
      PrintInjective(wh1, wh2, 10);
    }
  }

  function LevelOf(r: Row): Level {
    if r.available == 0 then Critical else Warning
  }

  function SupplierOf(cat: Catalog, r: Row): nat {
    if r.sku in cat.suppliers && cat.suppliers[r.sku] > 0 then cat.suppliers[r.sku] else cat.defaultSupplier
  }

  function MessagesFor(notify: seq<nat>, r: Row): (ms: seq<Message>)
    ensures |ms| == |notify|
    ensures forall i :: 0 <= i < |ms| ==> ms[i] == Message(notify[i], LevelOf(r), RefId(r.sku, r.warehouse), false)
  {
    seq(|notify|, i requires 0 <= i < |notify| => Message(notify[i], LevelOf(r), RefId(r.sku, r.warehouse), false))
  }

  function KeyOf(r: Row): StockLedger.Key {
    StockLedger.Key(r.warehouse, r.sku)
  }

  predicate HasPending(alerts: seq<StockLedger.Alert>, r: Row) {
    exists i :: 0 <= i < |alerts| && alerts[i].key == KeyOf(r) && alerts[i].pending
  }

  function AlertFor(r: Row): StockLedger.Alert {
    var kind := if r.available == 0 then StockLedger.OutOfStock else StockLedger.LowStock;
    StockLedger.Alert(KeyOf(r), kind, r.available, r.safety, true)
  }

  function OrderFor(cat: Catalog, r: Row): Placed {
    Placed(StockLedger.NewInquiry(r.sku, r.safety), r.warehouse, SupplierOf(cat, r))
  }

  function Triggered(d: AlertDb, cat: Catalog, r: Row): AlertDb {
    AlertDb(d.placed + [OrderFor(cat, r)],
            d.messages + MessagesFor(cat.notify, r),
            if HasPending(d.alerts, r) then d.alerts else d.alerts + [AlertFor(r)])
  }

  // ----- one pass -----

  predicate HasUnread(d: AlertDb, refId: string) {
    exists i :: 0 <= i < |d.messages| && d.messages[i].refId == refId && !d.messages[i].read
  }

  function UnreadRefs(d: AlertDb): (refs: set<string>)
    ensures forall refId :: refId in refs <==> HasUnread(d, refId)
  {
    set i | 0 <= i < |d.messages| && !d.messages[i].read :: d.messages[i].refId
  }

  /** Whether a row is acted on, given the unread keys loaded at the start. */
  predicate Acts(refs: set<string>, cat: Catalog, r: Row, commits: bool) {
    RefId(r.sku, r.warehouse) !in refs && SupplierOf(cat, r) > 0 && commits
  }

  function PassUpTo(d: AlertDb, refs: set<string>, cat: Catalog, low: seq<Row>, commits: nat -> bool, k: nat): AlertDb
    requires k <= |low|
  {
    if k == 0 then d
    else
      var before := PassUpTo(d, refs, cat, low, commits, k - 1);
      if Acts(refs, cat, low[k-1], commits(k - 1)) then Triggered(before, cat, low[k-1]) else before
  }

  /** `commits(k)` says whether the transaction for the k-th low row commits. */
  function Pass(d: AlertDb, cat: Catalog, table: seq<Row>, commits: nat -> bool): AlertDb {
    var low := LowRows(table);
    PassUpTo(d, UnreadRefs(d), cat, low, commits, |low|)
  }

  class AlertService {
    var db: AlertDb

    /** One row in one transaction: everything, or nothing and an error. */
    method TriggerOne(r: Row, refID: string, cat: Catalog, commit: bool) returns (ok: bool)
      requires refID == RefId(r.sku, r.warehouse)
      modifies this
      ensures ok <==> SupplierOf(cat, r) > 0 && commit
      ensures db == if ok then Triggered(old(db), cat, r) else old(db)
    {
      var level, alertType := Warning, StockLedger.LowStock;
      if r.available == 0 { level, alertType := Critical, StockLedger.OutOfStock; }
      var supplierID := cat.defaultSupplier;
      if r.sku in cat.suppliers {
        if cat.suppliers[r.sku] > 0 { supplierID := cat.suppliers[r.sku]; }
      }
      if supplierID == 0 { return false; }
      var quantity := StockLedger.Wrap(r.safety * 2);
      if quantity <= 0 { quantity := 100; }
      var tx := db;
      var order := StockLedger.Order(r.sku, quantity, Inquiry, Inquiry, []);
      tx := tx.(placed := tx.placed + [Placed(order, r.warehouse, supplierID)]);
      if !HasPending(tx.alerts, r) {
        tx := tx.(alerts := tx.alerts + [StockLedger.Alert(KeyOf(r), alertType, r.available, r.safety, true)]);
      }
      var messages: seq<Message> := [];
      for i := 0 to |cat.notify|
        invariant |messages| == i && messages == MessagesFor(cat.notify, r)[..i]
        invariant db == old(db)
      {
        messages := messages + [Message(cat.notify[i], level, refID, false)];
      }
      tx := tx.(messages := tx.messages + messages);
      if !commit { return false; }
      db := tx;
      return true;
    }

    method CheckAndTrigger(table: seq<Row>, cat: Catalog, commits: nat -> bool)
        returns (triggered: nat, skipped: nat, failed: nat)
      modifies this
      ensures db == Pass(old(db), cat, table, commits)
      ensures triggered + skipped + failed == |LowRows(table)|
      ensures |db.placed| == |old(db).placed| + triggered
    {
      hide Triggered, RefId, SupplierOf, HasUnread, LowRows;
      var invs := FindLow(table);
      ghost var low := LowRows(table);
      triggered, skipped, failed := 0, 0, 0;
      if |invs| == 0 { return; }
      var existingRefIDs := UnreadRefs(db);
      for k := 0 to |invs|
        invariant db == PassUpTo(old(db), existingRefIDs, cat, low, commits, k)
        invariant triggered + skipped + failed == k
        invariant |db.placed| == |old(db).placed| + triggered
      {
        var refID := RefId(invs[k].sku, invs[k].warehouse);
        if refID in existingRefIDs {
          skipped := skipped + 1;
          continue;
        }
        OneMoreOrder(db, cat, invs[k]);
        var ok := TriggerOne(invs[k], refID, cat, commits(k));
        if !ok {
          failed := failed + 1;
          continue;
        }
        triggered := triggered + 1;
      }
    }

    /** The query, over the table in its order by warehouse and SKU. */
    method FindLow(table: seq<Row>) returns (low: seq<Row>)
      ensures low == LowRows(table)
    {
      low := [];
      for i := 0 to |table|
        invariant low == LowRows(table[..i])
      {
        assert table[..i+1][..i] == table[..i];
        if table[i].safety > 0 && table[i].available <= table[i].safety { low := low + [table[i]]; }
      }
      assert table[..|table|] == table;
    }
  }

  lemma OneMoreOrder(d: AlertDb, cat: Catalog, r: Row)
    ensures |Triggered(d, cat, r).placed| == |d.placed| + 1
  {}

  /** An order is never for nothing, and for twice the safety stock unless that
      does not fit 64 bits. */
  lemma QuantityLaw(r: Row)
    requires Low(r)
    ensures StockLedger.ReorderQuantity(r.safety) > 0
    ensures StockLedger.ReorderQuantity(r.safety) == 2 * r.safety <==> r.safety < 0x4000_0000_0000_0000
  {}

  // ----- the second pass -----

  lemma TriggerLeavesUnread(d: AlertDb, cat: Catalog, r: Row, refId: string)
    ensures HasUnread(Triggered(d, cat, r), refId)
       <==> HasUnread(d, refId) || (cat.notify != [] && refId == RefId(r.sku, r.warehouse))
  {
    var d' := Triggered(d, cat, r);
    var ms := MessagesFor(cat.notify, r);
    if HasUnread(d', refId) {
      var i :| 0 <= i < |d'.messages| && d'.messages[i].refId == refId && !d'.messages[i].read;
      assert i < |d.messages| ==> d.messages[i] == d'.messages[i];
      assert i >= |d.messages| ==> ms[i - |d.messages|] == d'.messages[i];
    }
    if HasUnread(d, refId) {
      var i :| 0 <= i < |d.messages| && d.messages[i].refId == refId && !d.messages[i].read;
      assert d'.messages[i] == d.messages[i];
    }
    if cat.notify != [] && refId == RefId(r.sku, r.warehouse) {
      assert d'.messages[|d.messages|] == ms[0];
    }
  }

  /** What is unread after part of a pass: what was, and the keys of the rows acted
      on, provided somebody is notified. */
  lemma {:induction false} PassUnread(d: AlertDb, refs: set<string>, cat: Catalog, low: seq<Row>,
                                      commits: nat -> bool, k: nat, refId: string)
    requires k <= |low|
    ensures HasUnread(PassUpTo(d, refs, cat, low, commits, k), refId) <==>
            HasUnread(d, refId)
            || (cat.notify != []
                && exists j :: 0 <= j < k && Acts(refs, cat, low[j], commits(j))
                               && RefId(low[j].sku, low[j].warehouse) == refId)
  {
    hide Triggered, HasUnread, RefId, Acts;
    if k > 0 {
      PassUnread(d, refs, cat, low, commits, k - 1, refId);
      TriggerLeavesUnread(PassUpTo(d, refs, cat, low, commits, k - 1), cat, low[k-1], refId);
    }
  }

  /** Nothing acts, nothing changes; something acts, an order is added. */
  lemma {:induction false} IdlePass(d: AlertDb, refs: set<string>, cat: Catalog, low: seq<Row>,
                                    commits: nat -> bool, k: nat)
    requires k <= |low|
    ensures |PassUpTo(d, refs, cat, low, commits, k).placed| >= |d.placed|
    ensures (forall j :: 0 <= j < k ==> !Acts(refs, cat, low[j], commits(j))) ==>
              PassUpTo(d, refs, cat, low, commits, k) == d
    ensures (exists j :: 0 <= j < k && Acts(refs, cat, low[j], commits(j))) ==>
              |PassUpTo(d, refs, cat, low, commits, k).placed| > |d.placed|
  {
    hide Triggered, Acts;
    if k > 0 {
      IdlePass(d, refs, cat, low, commits, k - 1);
      OneMoreOrder(PassUpTo(d, refs, cat, low, commits, k - 1), cat, low[k-1]);
    }
  }

  predicate ActsSomewhere(d: AlertDb, cat: Catalog, table: seq<Row>, commits: nat -> bool) {
    var low := LowRows(table);
    exists j :: 0 <= j < |low| && Acts(UnreadRefs(d), cat, low[j], commits(j))
  }

  lemma PassChanges(d: AlertDb, cat: Catalog, table: seq<Row>, commits: nat -> bool)
    ensures Pass(d, cat, table, commits) != d <==> ActsSomewhere(d, cat, table, commits)
  {
    hide Triggered, Acts, LowRows;
    var low := LowRows(table);
    IdlePass(d, UnreadRefs(d), cat, low, commits, |low|);
  }

  /** The first pass left an unread message with the key of `r`: it acted on a row
      with that key while somebody was to be notified. */
  predicate Announced(d: AlertDb, cat: Catalog, table: seq<Row>, commits: nat -> bool, r: Row) {
    var low := LowRows(table);
    cat.notify != []
    && exists i :: 0 <= i < |low| && Acts(UnreadRefs(d), cat, low[i], commits(i))
                   && RefId(low[i].sku, low[i].warehouse) == RefId(r.sku, r.warehouse)
  }

  /** What is left to do for a second pass. */
  predicate StillActs(d: AlertDb, cat1: Catalog, table1: seq<Row>, commits1: nat -> bool,
                      cat2: Catalog, table2: seq<Row>, commits2: nat -> bool) {
    var low := LowRows(table2);
    exists j :: 0 <= j < |low| && Acts(UnreadRefs(d), cat2, low[j], commits2(j))
                && !Announced(d, cat1, table1, commits1, low[j])
  }

  /** With nothing read in between, whatever else changed and whichever transactions
      failed: a second pass changes something if and only if some low row without
      an old unread message can be ordered now and was not announced by the first. */
  lemma SecondPassExactly(d: AlertDb, cat1: Catalog, table1: seq<Row>, commits1: nat -> bool,
                          cat2: Catalog, table2: seq<Row>, commits2: nat -> bool)
    ensures var once := Pass(d, cat1, table1, commits1);
            Pass(once, cat2, table2, commits2) != once
            <==> StillActs(d, cat1, table1, commits1, cat2, table2, commits2)
  {
    hide Acts, LowRows, Pass, Announced;
    var low := LowRows(table2);
    var once := Pass(d, cat1, table1, commits1);
    PassChanges(once, cat2, table2, commits2);
    forall j | 0 <= j < |low|
      ensures Acts(UnreadRefs(once), cat2, low[j], commits2(j))
         <==> Acts(UnreadRefs(d), cat2, low[j], commits2(j)) && !Announced(d, cat1, table1, commits1, low[j])
    {
      ActsAgain(d, cat1, table1, commits1, cat2, low[j], commits2(j));
    }
  }

  lemma ActsAgain(d: AlertDb, cat1: Catalog, table1: seq<Row>, commits1: nat -> bool,
                  cat2: Catalog, r: Row, commit: bool)
    ensures Acts(UnreadRefs(Pass(d, cat1, table1, commits1)), cat2, r, commit)
       <==> Acts(UnreadRefs(d), cat2, r, commit) && !Announced(d, cat1, table1, commits1, r)
  {
    hide HasUnread, RefId, LowRows, PassUpTo, SupplierOf;
    var low := LowRows(table1);
    PassUnread(d, UnreadRefs(d), cat1, low, commits1, |low|, RefId(r.sku, r.warehouse));
  }

  /** In particular, when every transaction commits, repeating a pass changes nothing
      if and only if somebody was notified or there was nothing to do. */
  lemma RepeatedPassExactly(d: AlertDb, cat: Catalog, table: seq<Row>, commits: nat -> bool)
    requires forall k :: commits(k)
    ensures var once := Pass(d, cat, table, commits);
            Pass(once, cat, table, commits) == once <==> cat.notify != [] || once == d
  {
    hide Acts, LowRows, Pass;
    SecondPassExactly(d, cat, table, commits, cat, table, commits);
    PassChanges(d, cat, table, commits);
  }

  // ----- the pass as requests to the ledger -----

  function Orders(placed: seq<Placed>): (os: seq<StockLedger.Order>)
    ensures |os| == |placed| && forall i :: 0 <= i < |os| ==> os[i] == placed[i].order
  {
    seq(|placed|, i requires 0 <= i < |placed| => placed[i].order)
  }

  /** The ledger requests that stand for the rows acted on. */
  function Inquiries(refs: set<string>, cat: Catalog, low: seq<Row>, commits: nat -> bool, k: nat)
      : seq<StockLedger.Request>
    requires k <= |low|
  {
    if k == 0 then []
    else
      var before := Inquiries(refs, cat, low, commits, k - 1);
      if Acts(refs, cat, low[k-1], commits(k - 1))
      then before + [StockLedger.AutoInquiry(low[k-1].sku, low[k-1].safety)] else before
  }

  /** The orders of a pass are those of ledger requests, so every law about runs of
      the ledger holds across alert passes. */
  lemma {:induction false} PassIsInquiries(d: AlertDb, refs: set<string>, cat: Catalog, low: seq<Row>,
                                           commits: nat -> bool, k: nat, home: Option<nat>, ledger: StockLedger.Db)
    requires k <= |low| && ledger.orders == Orders(d.placed)
    ensures StockLaws.Run(home, ledger, Inquiries(refs, cat, low, commits, k))
         == ledger.(orders := Orders(PassUpTo(d, refs, cat, low, commits, k).placed))
  {
    hide Acts;
    if k > 0 {
      PassIsInquiries(d, refs, cat, low, commits, k - 1, home, ledger);
      var before, all := Inquiries(refs, cat, low, commits, k - 1), Inquiries(refs, cat, low, commits, k);
      if Acts(refs, cat, low[k-1], commits(k - 1)) {
        assert all[..|all|-1] == before;
        var d' := PassUpTo(d, refs, cat, low, commits, k - 1);
        assert Orders(Triggered(d', cat, low[k-1]).placed)
            == Orders(d'.placed) + [StockLedger.NewInquiry(low[k-1].sku, low[k-1].safety)];
      }
    }
  }

  // ----- runs -----

  /** Passes over any stock, with failing transactions, and messages being read. */
  datatype Action = Check(table: seq<Row>, cat: Catalog, commits: nat -> bool) | Read(which: set<nat>)

  function MarkRead(d: AlertDb, which: set<nat>): AlertDb {
    d.(messages := seq(|d.messages|, i requires 0 <= i < |d.messages| =>
                     if i in which then d.messages[i].(read := true) else d.messages[i]))
  }

  function Step(d: AlertDb, x: Action): AlertDb {
    match x
    case Check(table, cat, commits) => Pass(d, cat, table, commits)
    case Read(which) => MarkRead(d, which)
  }

  function Run(d: AlertDb, run: seq<Action>): AlertDb {
    if run == [] then d else Step(Run(d, run[..|run|-1]), run[|run|-1])
  }

  /** Rows are unique by SKU and warehouse, and somebody is notified. */
  ghost predicate Regular(run: seq<Action>) {
    forall i :: 0 <= i < |run| && run[i].Check? ==> UniqueRows(run[i].table) && run[i].cat.notify != []
  }

  ghost predicate UniqueRows(rows: seq<Row>) {
    forall i, j :: 0 <= i < j < |rows| ==> rows[i].sku != rows[j].sku || rows[i].warehouse != rows[j].warehouse
  }

  function OrdersOf(placed: seq<Placed>, sku: string, warehouse: nat): nat {
    if placed == [] then 0
    else
      var o := placed[|placed|-1];
      OrdersOf(placed[..|placed|-1], sku, warehouse) + if o.order.sku == sku && o.warehouse == warehouse then 1 else 0
  }

  function One(b: bool): nat { if b then 1 else 0 }

  /** How often the run took the last unread message of the row away. */
  function TimesRead(d: AlertDb, run: seq<Action>, refId: string): nat {
    if run == [] then 0
    else
      var front := run[..|run|-1];
      TimesRead(d, front, refId) + One(HasUnread(Run(d, front), refId) && !HasUnread(Run(d, run), refId))
  }

  lemma {:induction false} LowRowsUnique(table: seq<Row>)
    requires UniqueRows(table)
    ensures UniqueRows(LowRows(table))
    ensures forall i :: 0 <= i < |LowRows(table)| ==> LowRows(table)[i] in table
  {
    if table != [] {
      var front, r := table[..|table|-1], table[|table|-1];
      assert forall i :: 0 <= i < |front| ==> front[i] == table[i];
      LowRowsUnique(front);
      forall i | 0 <= i < |LowRows(front)|
        ensures LowRows(front)[i].sku != r.sku || LowRows(front)[i].warehouse != r.warehouse
      {
        var at :| 0 <= at < |front| && front[at] == LowRows(front)[i];
        assert table[at] == front[at];
      }
    }
  }

  lemma TriggerOrders(d: AlertDb, cat: Catalog, r: Row, sku: string, warehouse: nat)
    ensures OrdersOf(Triggered(d, cat, r).placed, sku, warehouse)
         == OrdersOf(d.placed, sku, warehouse) + One(r.sku == sku && r.warehouse == warehouse)
  {
    var all := Triggered(d, cat, r).placed;
    assert all[..|all|-1] == d.placed;
  }

  /** A pass orders at most once for a row, and not at all while its message is unread. */
  lemma {:induction false} PassOrders(d: AlertDb, refs: set<string>, cat: Catalog, low: seq<Row>,
                                      commits: nat -> bool, k: nat, sku: string, warehouse: nat)
    requires k <= |low| && UniqueRows(low)
    ensures OrdersOf(PassUpTo(d, refs, cat, low, commits, k).placed, sku, warehouse)
         == OrdersOf(d.placed, sku, warehouse)
            + One(exists j :: 0 <= j < k && low[j].sku == sku && low[j].warehouse == warehouse
                              && Acts(refs, cat, low[j], commits(j)))
  {
    hide Triggered, Acts;
    if k > 0 {
      PassOrders(d, refs, cat, low, commits, k - 1, sku, warehouse);
      TriggerOrders(PassUpTo(d, refs, cat, low, commits, k - 1), cat, low[k-1], sku, warehouse);
    }
  }

  lemma CheckKeepsBound(d: AlertDb, x: Action, sku: string, warehouse: nat)
    requires x.Check? && UniqueRows(x.table) && x.cat.notify != []
    ensures var refId, d' := RefId(sku, warehouse), Step(d, x);
            (HasUnread(d, refId) ==> HasUnread(d', refId))
            && OrdersOf(d'.placed, sku, warehouse)
               == OrdersOf(d.placed, sku, warehouse) + One(HasUnread(d', refId) && !HasUnread(d, refId))
  {
    hide HasUnread, RefId, LowRows, PassUpTo, SupplierOf, OrdersOf, UniqueRows;
    var low, refs, refId := LowRows(x.table), UnreadRefs(d), RefId(sku, warehouse);
    LowRowsUnique(x.table);
    PassUnread(d, refs, x.cat, low, x.commits, |low|, refId);
    PassOrders(d, refs, x.cat, low, x.commits, |low|, sku, warehouse);
    forall j | 0 <= j < |low| && RefId(low[j].sku, low[j].warehouse) == refId
      ensures low[j].sku == sku && low[j].warehouse == warehouse
    {
      RefIdExact(low[j].sku, low[j].warehouse, sku, warehouse);
    }
  }

  /** Over every run, the orders for a row are exactly those there were, one for
      every time its unread message was taken away, and one while it is unread:
      no second order while the first is still unread. */
  lemma {:induction false} OneOrderPerUnreadPeriod(d: AlertDb, run: seq<Action>, sku: string, warehouse: nat)
    requires Regular(run)
    ensures OrdersOf(Run(d, run).placed, sku, warehouse) + One(HasUnread(d, RefId(sku, warehouse)))
         == OrdersOf(d.placed, sku, warehouse) + TimesRead(d, run, RefId(sku, warehouse))
            + One(HasUnread(Run(d, run), RefId(sku, warehouse)))
  {
    hide HasUnread, RefId, OrdersOf, Pass, UniqueRows;
    if run != [] {
      var front, x := run[..|run|-1], run[|run|-1];
      assert forall i :: 0 <= i < |front| ==> front[i] == run[i];
      OneOrderPerUnreadPeriod(d, front, sku, warehouse);
      var before := Run(d, front);
      if x.Check? {
        CheckKeepsBound(before, x, sku, warehouse);
      } else {
        ReadOnlyRemoves(before, x.which, RefId(sku, warehouse));
      }
    }
  }

  lemma ReadOnlyRemoves(d: AlertDb, which: set<nat>, refId: string)
    ensures HasUnread(MarkRead(d, which), refId) ==> HasUnread(d, refId)
  {
    var d' := MarkRead(d, which);
    if HasUnread(d', refId) {
      var i :| 0 <= i < |d'.messages| && d'.messages[i].refId == refId && !d'.messages[i].read;
      assert d.messages[i] == d'.messages[i];
    }
  }
}
