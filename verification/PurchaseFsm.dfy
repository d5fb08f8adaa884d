/** The purchase order's state machine: the transition table and what every
    path through it has in common. */
module PurchaseFsm {
  import opened Options

  datatype Status =
    | NoStatus | Inquiry | Quoting | Ordered | Tracking | Shipped
    | Received | QC | Reconciling | Settled | Cancelled

  datatype Event =
    | Inquire | Quote | SelectQuote | PlaceOrder | Ship | Receive
    | Inspect | Reconcile | Settle | Cancel | Reopen | Unknown(name: string)

  datatype Rule = Rule(event: Event, src: seq<Status>, dst: Status)

  const RULES: seq<Rule> := [
    Rule(Inquire, [NoStatus], Inquiry),
    Rule(Quote, [Inquiry], Quoting),
    Rule(SelectQuote, [Quoting, Inquiry], Ordered),
    Rule(PlaceOrder, [Quoting, Inquiry], Ordered),
    Rule(Ship, [Ordered], Shipped),
    Rule(Receive, [Ordered, Shipped, Tracking], Received),
    Rule(Inspect, [Received], QC),
    Rule(Reconcile, [QC, Received], Reconciling),
    Rule(Settle, [Reconciling], Settled),
    Rule(Cancel, [Inquiry, Quoting, Ordered, Tracking, Shipped], Cancelled),
    Rule(Reopen, [Cancelled], Inquiry)
  ]

  predicate Matches(r: Rule, s: Status, e: Event) {
    r.event == e && s in r.src
  }

  /** The first rule that speaks about `s` and `e`. */
  function FindRule(rules: seq<Rule>, s: Status, e: Event): (r: Option<Rule>)
    ensures r.Some? ==> r.value in rules && Matches(r.value, s, e)
    ensures r.None? ==> forall x :: x in rules ==> !Matches(x, s, e)
  {
    if rules == [] then None
    else if Matches(rules[0], s, e) then Some(rules[0])
    else FindRule(rules[1..], s, e)
  }

  /** The state that `e` leads to from `s`, if the table allows it. */
  function Target(s: Status, e: Event): Option<Status> {
    match FindRule(RULES, s, e)
    case None => None
    case Some(r) => Some(r.dst)
  }

  /** One of the rules leads from `s` by `e` to `d`. */
  predicate Allows(rules: seq<Rule>, s: Status, e: Event, d: Status) {
    exists x :: x in rules && Matches(x, s, e) && x.dst == d
  }

  /** At most one rule speaks about a state and an event, so the order of the
      table does not matter. */
  lemma TableUnambiguous(x: Rule, y: Rule, s: Status, e: Event)
    requires x in RULES && y in RULES && Matches(x, s, e) && Matches(y, s, e)
    ensures x == y
  {
    var j :| 0 <= j < |RULES| && RULES[j] == x;
    var k :| 0 <= k < |RULES| && RULES[k] == y;
    RuleOwnsEvent(j, k);
  }

  /** Rules for the same event are the same rule. */
  lemma RuleOwnsEvent(j: nat, k: nat)
    requires j < |RULES| && k < |RULES| && RULES[j].event == RULES[k].event
    ensures j == k
  {}

  lemma TargetIff(s: Status, e: Event, d: Status)
    ensures Target(s, e) == Some(d) <==> Allows(RULES, s, e, d)
  {
    hide FindRule, Matches;
    if Allows(RULES, s, e, d) {
      var x :| x in RULES && Matches(x, s, e) && x.dst == d;
      TableUnambiguous(x, FindRule(RULES, s, e).value, s, e);
    }
  }

  class StateMachine {
    var current: Status

    constructor (current: Status)
      ensures this.current == current
    {
      this.current := current;
    }

    /** Fires the event, or explains which events the state allows. */
    method Transition(e: Event) returns (ok: bool, allowed: seq<(Event, Status)>)
      modifies this
      ensures ok <==> Target(old(current), e).Some?
      ensures current == if ok then Target(old(current), e).value else old(current)
      ensures !ok ==> forall f, d :: (f, d) in allowed <==> Target(current, f) == Some(d)
    {
      var t := Target(current, e);
      if t.None? {
        allowed := AllowedEventsFromState(current);
        return false, allowed;
      }
      current := t.value;
      return true, [];
    }

    method AllowedEventsFromState(state: Status) returns (events: seq<(Event, Status)>)
      ensures forall f, d :: (f, d) in events <==> Target(state, f) == Some(d)
    {
      events := CollectAllowed(RULES, state);
      forall f, d ensures (f, d) in events <==> Target(state, f) == Some(d) {
        TargetIff(state, f, d);
      }
    }

    /** The nested loops over a table: one entry per source that is the state. */
    method CollectAllowed(rules: seq<Rule>, state: Status) returns (events: seq<(Event, Status)>)
      ensures forall f, d :: (f, d) in events <==> Allows(rules, state, f, d)
    {
      events := [];
      for k := 0 to |rules|
        invariant forall f, d :: (f, d) in events <==> Allows(rules[..k], state, f, d)
      {
        assert rules[..k+1] == rules[..k] + [rules[k]];
        events := AddRule(rules[k], state, events);
      }
      assert rules[..|rules|] == rules;
    }

    method AddRule(rule: Rule, state: Status, before: seq<(Event, Status)>) returns (events: seq<(Event, Status)>)
      ensures forall f, d :: (f, d) in events <==> (f, d) in before || (Matches(rule, state, f) && rule.dst == d)
    {
      events := before;
      for i := 0 to |rule.src|
        invariant forall f, d :: (f, d) in events <==>
          (f, d) in before || (state in rule.src[..i] && f == rule.event && d == rule.dst)
      {
        if rule.src[i] == state {
          events := events + [(rule.event, rule.dst)];
        }
      }
      assert rule.src[..|rule.src|] == rule.src;
    }
  }

  /** The goods are in the warehouse. */
  predicate Stocked(s: Status) {
    s in {Received, QC, Reconciling, Settled}
  }

  /** The states an order can be edited in. */
  predicate Editable(s: Status) {
    s in {Inquiry, Quoting}
  }

  /** Every rule: `receive` and only `receive` crosses into the stocked states,
      none leaves them, and none ends in `tracking` or the empty status. */
  lemma RuleShape(k: nat, s: Status)
    requires k < |RULES| && s in RULES[k].src
    ensures var r := RULES[k];
            (Stocked(r.dst) <==> Stocked(s) || r.event == Receive)
            && (Stocked(s) ==> r.event != Receive)
            && r.dst != Tracking && r.dst != NoStatus && r.dst != s
  {}

  /** `receive` is the one way into the stocked states, and there is no way out
      and no second `receive`. */
  lemma ReceiptBoundary(s: Status, e: Event)
    requires Target(s, e).Some?
    ensures Stocked(Target(s, e).value) <==> Stocked(s) || e == Receive
    ensures Stocked(s) ==> e != Receive
  {
    hide FindRule, Stocked;
    var k :| 0 <= k < |RULES| && RULES[k] == FindRule(RULES, s, e).value;
    RuleShape(k, s);
  }

  // ----- the business process -----

  /** The stages of an order; an order can be cancelled up to stage 4. */
  function Stage(s: Status): nat {
    match s
    case NoStatus => 0
    case Inquiry => 1
    case Quoting => 2
    case Ordered => 3
    case Tracking => 4
    case Shipped => 4
    case Received => 5
    case QC => 6
    case Reconciling => 7
    case Settled => 8
    case Cancelled => 9
  }

  /** Event by event: the stages it starts from and where it leads. */
  predicate Moves(s: Status, e: Event, d: Status) {
    match e
    case Inquire => Stage(s) == 0 && d == Inquiry
    case Quote => Stage(s) == 1 && d == Quoting
    case SelectQuote => 1 <= Stage(s) <= 2 && d == Ordered
    case PlaceOrder => 1 <= Stage(s) <= 2 && d == Ordered
    case Ship => Stage(s) == 3 && d == Shipped
    case Receive => 3 <= Stage(s) <= 4 && d == Received
    case Inspect => Stage(s) == 5 && d == QC
    case Reconcile => 5 <= Stage(s) <= 6 && d == Reconciling
    case Settle => Stage(s) == 7 && d == Settled
    case Cancel => 1 <= Stage(s) <= 4 && d == Cancelled
    case Reopen => Stage(s) == 9 && d == Inquiry
    case Unknown(_) => false
  }

  lemma EarlyRuleMoves(k: nat, s: Status)
    requires k < 6
    ensures s in RULES[k].src <==> Moves(s, RULES[k].event, RULES[k].dst)
  {}

  lemma LateRuleMoves(k: nat, s: Status)
    requires 6 <= k < |RULES|
    ensures s in RULES[k].src <==> Moves(s, RULES[k].event, RULES[k].dst)
  {}

  lemma RuleMoves(k: nat, s: Status)
    requires k < |RULES|
    ensures s in RULES[k].src <==> Moves(s, RULES[k].event, RULES[k].dst)
  {
    hide Moves;
    if k < 6 { EarlyRuleMoves(k, s); } else { LateRuleMoves(k, s); }
  }

  lemma OneDestination(k: nat, s: Status, d: Status)
    requires k < |RULES| && Moves(s, RULES[k].event, d)
    ensures d == RULES[k].dst
  {}

  /** The place of an event's rule. */
  function Place(e: Event): (k: nat)
    requires !e.Unknown?
    ensures k < |RULES| && RULES[k].event == e
  {
    match e
    case Inquire => 0
    case Quote => 1
    case SelectQuote => 2
    case PlaceOrder => 3
    case Ship => 4
    case Receive => 5
    case Inspect => 6
    case Reconcile => 7
    case Settle => 8
    case Cancel => 9
    case Reopen => 10
  }

  /** The table says exactly that: goods move one or two stages forward, a cancellation
      is possible until they arrive, and only a cancelled order is reopened. */
  lemma MovesExactly(s: Status, e: Event, d: Status)
    ensures Target(s, e) == Some(d) <==> Moves(s, e, d)
  {
    hide FindRule, Moves, Stage;
    TargetIff(s, e, d);
    if Allows(RULES, s, e, d) {
      var x :| x in RULES && Matches(x, s, e) && x.dst == d;
      var k :| 0 <= k < |RULES| && RULES[k] == x;
      RuleMoves(k, s);
    }
    if Moves(s, e, d) {
      if e.Unknown? { NoUnknownMoves(s, e, d); } else {
        OneDestination(Place(e), s, d);
        RuleMoves(Place(e), s);
        assert RULES[Place(e)] in RULES && Matches(RULES[Place(e)], s, e);
      }
    }
  }

  lemma NoUnknownMoves(s: Status, e: Event, d: Status)
    requires e.Unknown?
    ensures !Moves(s, e, d)
  {}

  /** Every event but a cancellation and a reopening moves the order on, never past
      the receipt without passing through it. */
  lemma StagesAdvance(s: Status, e: Event, d: Status)
    requires Target(s, e) == Some(d) && e != Cancel && e != Reopen
    ensures Stage(s) < Stage(d) <= 8 && !(Stage(s) < 5 < Stage(d))
  {
    hide Target, FindRule;
    MovesExactly(s, e, d);
  }

  /** No event leads to `tracking` or to the empty status, so the rules that
      leave them never fire for an order that starts elsewhere. */
  lemma NeverTracking(s: Status, e: Event)
    requires Target(s, e).Some?
    ensures Target(s, e).value != Tracking && Target(s, e).value != NoStatus && Target(s, e).value != s
  {
    hide FindRule, Stocked;
    var k :| 0 <= k < |RULES| && RULES[k] == FindRule(RULES, s, e).value;
    RuleShape(k, s);
  }
}
