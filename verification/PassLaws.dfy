/** What an alert pass writes, field by field, and for which rows. */
module PassLaws {
  import opened Options
  import opened PurchaseFsm
  import opened StockAlerts
  import StockLedger

  const HALF_RANGE := 0x4000_0000_0000_0000

  lemma {:induction false} LowExactly(table: seq<Row>, r: Row)
    ensures r in LowRows(table) <==> r in table && r.safety > 0 && r.available <= r.safety
  {
    if table != [] {
      LowExactly(table[..|table|-1], r);
      assert table == table[..|table|-1] + [table[|table|-1]];
    }
  }

  /** Product supplier if there is one, else the default. */
  function Supplier(cat: Catalog, sku: string): nat {
    if sku in cat.suppliers && cat.suppliers[sku] != 0 then cat.suppliers[sku] else cat.defaultSupplier
  }

  // ----- what a row adds -----

  predicate OrderFits(cat: Catalog, r: Row, p: Placed) {
    p.order.sku == r.sku && p.order.status == Inquiry && p.order.created == Inquiry && p.order.history == []
    && p.order.quantity == (if r.safety < HALF_RANGE then 2 * r.safety else 100)
    && p.warehouse == r.warehouse && p.supplier == Supplier(cat, r.sku)
  }

  predicate MessageFits(r: Row, user: nat, m: Message) {
    m.user == user && !m.read && m.refId == RefId(r.sku, r.warehouse)
    && (m.level == Critical <==> r.available == 0)
  }

  predicate AlertFits(r: Row, x: StockLedger.Alert) {
    x.key.sku == r.sku && x.key.warehouse == r.warehouse && x.pending
    && x.quantity == r.available && x.threshold == r.safety
    && (x.kind == StockLedger.OutOfStock <==> r.available == 0)
  }

  lemma OrderIsFit(cat: Catalog, r: Row)
    requires r.safety > 0
    ensures OrderFits(cat, r, OrderFor(cat, r)) && SupplierOf(cat, r) == Supplier(cat, r.sku)
  {}

  lemma MessagesFit(cat: Catalog, r: Row)
    ensures forall m :: m in MessagesFor(cat.notify, r) ==> exists u :: u in cat.notify && MessageFits(r, u, m)
    ensures forall u :: u in cat.notify ==> exists m :: m in MessagesFor(cat.notify, r) && MessageFits(r, u, m)
  {
    hide RefId;
    var ms := MessagesFor(cat.notify, r);
    forall m | m in ms ensures exists u :: u in cat.notify && MessageFits(r, u, m) {
      var i :| 0 <= i < |ms| && ms[i] == m;
      assert cat.notify[i] in cat.notify && MessageFits(r, cat.notify[i], m);
    }
    forall u | u in cat.notify ensures exists m :: m in ms && MessageFits(r, u, m) {
      var i :| 0 <= i < |cat.notify| && cat.notify[i] == u;
      assert ms[i] in ms && MessageFits(r, u, ms[i]);
    }
  }

  lemma AlertIsFit(r: Row)
    ensures AlertFits(r, AlertFor(r))
  {}

  /** The row is low, has no unread message, can be ordered, and commits. */
  predicate Serves(d: AlertDb, cat: Catalog, r: Row, commit: bool) {
    r.safety > 0 && r.available <= r.safety && !HasUnread(d, RefId(r.sku, r.warehouse))
    && Supplier(cat, r.sku) != 0 && commit
  }

  // ----- a pass -----

  lemma ActsIsServes(d: AlertDb, cat: Catalog, r: Row, commit: bool)
    requires r.safety > 0 && r.available <= r.safety
    ensures Acts(UnreadRefs(d), cat, r, commit) <==> Serves(d, cat, r, commit)
  {
    hide RefId, HasUnread;
  }

  lemma {:induction false} PlacedByPass(d: AlertDb, refs: set<string>, cat: Catalog, low: seq<Row>,
                                        commits: nat -> bool, k: nat, p: Placed)
    requires k <= |low|
    ensures p in PassUpTo(d, refs, cat, low, commits, k).placed <==>
            p in d.placed || exists j :: 0 <= j < k && Acts(refs, cat, low[j], commits(j)) && p == OrderFor(cat, low[j])
  {
    hide OrderFor, Acts;
    if k > 0 { PlacedByPass(d, refs, cat, low, commits, k - 1, p); }
  }

  lemma {:induction false} SentByPass(d: AlertDb, refs: set<string>, cat: Catalog, low: seq<Row>,
                                      commits: nat -> bool, k: nat, m: Message)
    requires k <= |low|
    ensures m in PassUpTo(d, refs, cat, low, commits, k).messages <==>
            m in d.messages
            || exists j :: 0 <= j < k && Acts(refs, cat, low[j], commits(j)) && m in MessagesFor(cat.notify, low[j])
  {
    hide OrderFor, Acts, MessagesFor;
    if k > 0 { SentByPass(d, refs, cat, low, commits, k - 1, m); }
  }

  lemma {:induction false} RaisedByPass(d: AlertDb, refs: set<string>, cat: Catalog, low: seq<Row>,
                                        commits: nat -> bool, k: nat, x: StockLedger.Alert)
    requires k <= |low|
    ensures var alerts := PassUpTo(d, refs, cat, low, commits, k).alerts;
            d.alerts <= alerts
            && (x in alerts && x !in d.alerts ==>
                  exists j :: 0 <= j < k && Acts(refs, cat, low[j], commits(j)) && x == AlertFor(low[j])
                              && !HasPending(d.alerts, low[j]))
            && forall j :: 0 <= j < k && Acts(refs, cat, low[j], commits(j)) ==> HasPending(alerts, low[j])
  {
    hide OrderFor, Acts, MessagesFor, AlertFor;
    if k > 0 {
      RaisedByPass(d, refs, cat, low, commits, k - 1, x);
      var before := PassUpTo(d, refs, cat, low, commits, k - 1);
      StaysPending(d.alerts, before.alerts, low[k-1]);
      if Acts(refs, cat, low[k-1], commits(k - 1)) {
        AlertIsFit(low[k-1]);
        NowPending(before.alerts, low[k-1]);
        forall j | 0 <= j < k - 1 && Acts(refs, cat, low[j], commits(j))
          ensures HasPending(Triggered(before, cat, low[k-1]).alerts, low[j])
        {
          StaysPending(before.alerts, Triggered(before, cat, low[k-1]).alerts, low[j]);
        }
      }
    }
  }

  lemma StaysPending(a: seq<StockLedger.Alert>, b: seq<StockLedger.Alert>, r: Row)
    requires a <= b
    ensures HasPending(a, r) ==> HasPending(b, r)
  {
    if HasPending(a, r) {
      var i :| 0 <= i < |a| && a[i].key == KeyOf(r) && a[i].pending;
      assert b[i] == a[i];
    }
  }

  lemma NowPending(alerts: seq<StockLedger.Alert>, r: Row)
    ensures HasPending(alerts + [AlertFor(r)], r)
  {
    assert (alerts + [AlertFor(r)])[|alerts|] == AlertFor(r);
  }

  /** Every order, message and alert that a pass adds belongs to a low row of the table
      that had no unread message and has a supplier, with that row's data. */
  lemma PassAddsOnly(d: AlertDb, cat: Catalog, table: seq<Row>, commits: nat -> bool,
                     p: Placed, m: Message, x: StockLedger.Alert)
    ensures var d' := Pass(d, cat, table, commits);
            (p in d'.placed && p !in d.placed ==>
               exists r :: r in table && Serves(d, cat, r, true) && OrderFits(cat, r, p))
            && (m in d'.messages && m !in d.messages ==>
                  exists r, u :: r in table && Serves(d, cat, r, true) && u in cat.notify && MessageFits(r, u, m))
            && (x in d'.alerts && x !in d.alerts ==>
                  exists r :: r in table && Serves(d, cat, r, true) && AlertFits(r, x) && !HasPending(d.alerts, r))
  {
    hide Acts, MessagesFor, OrderFor, AlertFor, PassUpTo, LowRows;
    hide Serves, OrderFits, MessageFits, AlertFits, HasPending;
    var low, refs := LowRows(table), UnreadRefs(d);
    PlacedByPass(d, refs, cat, low, commits, |low|, p);
    SentByPass(d, refs, cat, low, commits, |low|, m);
    RaisedByPass(d, refs, cat, low, commits, |low|, x);
    forall j | 0 <= j < |low| && Acts(refs, cat, low[j], commits(j))
      ensures low[j] in table && Serves(d, cat, low[j], true) && OrderFits(cat, low[j], OrderFor(cat, low[j]))
              && AlertFits(low[j], AlertFor(low[j]))
              && forall m :: m in MessagesFor(cat.notify, low[j]) ==>
                   exists u :: u in cat.notify && MessageFits(low[j], u, m)
    {
      RowOfPass(d, cat, table, commits, j);
    }
  }

  lemma RowOfPass(d: AlertDb, cat: Catalog, table: seq<Row>, commits: nat -> bool, j: nat)
    requires j < |LowRows(table)| && Acts(UnreadRefs(d), cat, LowRows(table)[j], commits(j))
    ensures var r := LowRows(table)[j];
            r in table && Serves(d, cat, r, true) && OrderFits(cat, r, OrderFor(cat, r)) && AlertFits(r, AlertFor(r))
            && forall m :: m in MessagesFor(cat.notify, r) ==> exists u :: u in cat.notify && MessageFits(r, u, m)
  {
    hide RefId, HasUnread, MessagesFor, OrderFor, OrderFits, LowRows;
    var r := LowRows(table)[j];
    LowExactly(table, r);
    ActsIsServes(d, cat, r, commits(j));
    OrderIsFit(cat, r);
    AlertIsFit(r);
    MessagesFit(cat, r);
  }

  /** And it leaves out none: every such row, if transactions commit, gets its order, a
      message for everybody to be notified, and a pending alert. */
  lemma PassServesAll(d: AlertDb, cat: Catalog, table: seq<Row>, commits: nat -> bool, r: Row)
    requires r in table && Serves(d, cat, r, true) && forall k :: commits(k)
    ensures var d' := Pass(d, cat, table, commits);
            (exists p :: p in d'.placed && OrderFits(cat, r, p))
            && (forall u :: u in cat.notify ==> exists m :: m in d'.messages && MessageFits(r, u, m))
            && HasPending(d'.alerts, r)
  {
    hide Acts, MessagesFor, OrderFor, AlertFor, PassUpTo, LowRows, OrderFits, MessageFits, HasPending, HasUnread, RefId;
    var low, refs := LowRows(table), UnreadRefs(d);
    LowExactly(table, r);
    var j :| 0 <= j < |low| && low[j] == r;
    ActsIsServes(d, cat, r, commits(j));
    OrderIsFit(cat, r);
    MessagesFit(cat, r);
    PlacedByPass(d, refs, cat, low, commits, |low|, OrderFor(cat, r));
    RaisedByPass(d, refs, cat, low, commits, |low|, AlertFor(r));
    var d' := Pass(d, cat, table, commits);
    forall u | u in cat.notify ensures exists m :: m in d'.messages && MessageFits(r, u, m) {
      var m :| m in MessagesFor(cat.notify, r) && MessageFits(r, u, m);
      SentByPass(d, refs, cat, low, commits, |low|, m);
    }
  }
}
