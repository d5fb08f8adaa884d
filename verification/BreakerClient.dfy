/** The remote client behind the breaker: one call on its own, and any number of
    concurrent callers as interleaved steps. */
module BreakerClient {
  import opened CircuitBreakers
  import opened Options

  // ----- one search -----

  /** What a remote call can come to, in the order the client checks it. */
  datatype Remote<+D> =
    | EncodeFailed
    | RequestInvalid
    | TransportError
    | BodyUnreadable
    | Response(status: int, body: Option<Reply<D>>)

  datatype Reply<+D> = Reply(code: int, docs: seq<D>)

  datatype Answer<+D> = Docs(docs: seq<D>) | Failed

  /** Without a fallback searcher the answer is empty, not an error. */
  function FallbackAnswer<D>(fallback: Option<Answer<D>>): Answer<D> {
    match fallback
    case None => Docs([])
    case Some(a) => a
  }

  class RemoteRagClient<D> {
    const breaker: CircuitBreaker

    constructor (breaker: CircuitBreaker)
      ensures this.breaker == breaker
    {
      this.breaker := breaker;
    }

    /** `remote` is what the network would answer, `fallback` what the local
        searcher would; `now` and `later` are the clock at the two lock sections. */
    method Search(now: int, later: int, remote: Remote<D>, fallback: Option<Answer<D>>) returns (r: Answer<D>)
      requires breaker.Valid()
      modifies breaker
      ensures breaker.Valid()
      ensures var granted := old(Grants(breaker.params, breaker.history, now));
              var success := remote.Response? && remote.status == 200 && remote.body.Some?
                             && remote.body.value.code == 0;
              (granted && success ==> r == Docs(remote.body.value.docs))
              && (!granted || !success ==> r == if fallback.Some? then fallback.value else Docs([]))
              && breaker.history == old(breaker.history)
                 + (if !granted then [Denied(now)] else [Granted(now), if success then Success else Failure(later)])
    {
      hide Grants, ModeOf, FailureRun, OpenedAt, GrantedSinceFailure;
      var ok := breaker.Allow(now);
      if !ok {
        return FallbackAnswer(fallback);
      }
      match remote {
        case EncodeFailed =>
          breaker.RecordFailure(later);
          return FallbackAnswer(fallback);
        case RequestInvalid =>
          breaker.RecordFailure(later);
          return FallbackAnswer(fallback);
        case TransportError =>
          breaker.RecordFailure(later);
          return FallbackAnswer(fallback);
        case BodyUnreadable =>
          breaker.RecordFailure(later);
          return FallbackAnswer(fallback);
        case Response(status, body) =>
          if status != 200 {
            breaker.RecordFailure(later);
            return FallbackAnswer(fallback);
          }
          if body.None? {
            breaker.RecordFailure(later);
            return FallbackAnswer(fallback);
          }
          if body.value.code != 0 {
            breaker.RecordFailure(later);
            return FallbackAnswer(fallback);
          }
          breaker.RecordSuccess();
          return Docs(body.value.docs);
      }
    }
  }

  // ----- many callers -----

  /** The breaker as its history, the callers between their two lock sections,
      and the clock. */
  datatype System = System(history: History, inFlight: set<nat>, clock: int)

  datatype Action = Start(caller: nat, at: int) | Finish(caller: nat, ok: bool, at: int)

  function Initial(t0: int): System {
    System([], {}, t0)
  }

  predicate Enabled(s: System, a: Action) {
    a.at >= s.clock && (if a.Start? then a.caller !in s.inFlight else a.caller in s.inFlight)
  }

  /** One lock section of one caller; an action out of turn does nothing. */
  ghost function Step(p: Params, s: System, a: Action): System {
    if !Enabled(s, a) then s
    else match a
      case Start(c, t) =>
        if Grants(p, s.history, t) then System(s.history + [Granted(t)], s.inFlight + {c}, t)
        else System(s.history + [Denied(t)], s.inFlight, t)
      case Finish(c, ok, t) =>
        System(s.history + [if ok then Success else Failure(t)], s.inFlight - {c}, t)
  }

  ghost function Run(p: Params, s: System, actions: seq<Action>): System {
    if actions == [] then s else Step(p, Run(p, s, actions[..|actions|-1]), actions[|actions|-1])
  }

  function GrantCount(h: History): nat {
    if h == [] then 0 else GrantCount(h[..|h|-1]) + (if h[|h|-1].Granted? then 1 else 0)
  }

  function Outcomes(h: History): nat {
    if h == [] then 0 else Outcomes(h[..|h|-1]) + (if h[|h|-1].Success? || h[|h|-1].Failure? then 1 else 0)
  }

  /** The grants after the last outcome. */
  function Recent(h: History): nat {
    if h == [] then 0
    else match h[|h|-1]
      case Granted(_) => Recent(h[..|h|-1]) + 1
      case Denied(_) => Recent(h[..|h|-1])
      case _ => 0
  }

  lemma Counting(h: History, e: Event)
    ensures GrantCount(h + [e]) == GrantCount(h) + (if e.Granted? then 1 else 0)
    ensures Outcomes(h + [e]) == Outcomes(h) + (if e.Success? || e.Failure? then 1 else 0)
    ensures Recent(h + [e]) == match e { case Granted(_) => Recent(h) + 1 case Denied(_) => Recent(h) case _ => 0 }
  {
    assert (h + [e])[..|h|] == h;
  }

  /** Every granted call is either recorded, once, or still in flight; a denied
      call records nothing. */
  lemma {:induction false} CallsAccounted(p: Params, t0: int, actions: seq<Action>)
    ensures var s := Run(p, Initial(t0), actions);
            GrantCount(s.history) == Outcomes(s.history) + |s.inFlight| && Recent(s.history) <= |s.inFlight|
  {
    if actions != [] {
      var s, a := Run(p, Initial(t0), actions[..|actions|-1]), actions[|actions|-1];
      CallsAccounted(p, t0, actions[..|actions|-1]);
      if Enabled(s, a) {
        match a
        case Start(c, t) => Counting(s.history, if Grants(p, s.history, t) then Granted(t) else Denied(t));
        case Finish(c, ok, t) => Counting(s.history, if ok then Success else Failure(t));
      }
    }
  }

  // ----- a bound on wasted calls -----

  /** Only callers below `n`, and every call fails. */
  predicate AllFail(actions: seq<Action>, n: nat) {
    forall i :: 0 <= i < |actions| ==> actions[i].caller < n && (actions[i].Finish? ==> !actions[i].ok)
  }

  /** What holds after `k` half-open phases. */
  ghost predicate Wasting(p: Params, t0: int, n: nat, s: System, k: nat) {
    var h := s.history;
    var spent := Limit(p) - 1 + n + k * n;
    (forall c :: c in s.inFlight ==> c < n)
    && t0 <= s.clock
    && match ModeOf(p, h)
       case Closed => k == 0 && GrantCount(h) == FailureRun(h) + |s.inFlight|
       case Open => GrantCount(h) <= spent && t0 + k * p.openDuration <= OpenedAt(p, h) <= s.clock && Recent(h) == 0
       case HalfOpen => k > 0 && GrantCount(h) - Recent(h) <= spent - n && t0 + k * p.openDuration <= s.clock
  }

  lemma {:induction false} InFlightBound(s: set<nat>, n: nat)
    requires forall c :: c in s ==> c < n
    ensures |s| <= n
    decreases n
  {
    if n > 0 {
      InFlightBound(s - {n - 1}, n - 1);
      if n - 1 in s { assert |s - {n - 1}| == |s| - 1; }
      else { assert s - {n - 1} == s; }
    } else {
      assert s == {};
    }
  }

  lemma WastingStart(p: Params, t0: int, n: nat, s: System, k: nat, c: nat, t: int) returns (k': nat)
    requires p.openDuration > 0 && Wasting(p, t0, n, s, k) && Enabled(s, Start(c, t)) && c < n
    ensures Wasting(p, t0, n, Step(p, s, Start(c, t)), k')
  {
    hide FailureRun, GrantedSinceFailure, OpenedAt, GrantCount, Recent;
    var h := s.history;
    k' := k;
    if Grants(p, h, t) {
      AfterGranted(p, h, t);
      Counting(h, Granted(t));
      if ModeOf(p, h) == Open {
        k' := k + 1;
        assert (k + 1) * n == k * n + n;
        assert (k + 1) * p.openDuration == k * p.openDuration + p.openDuration;
      }
    } else {
      AfterDenied(p, h, t);
      Counting(h, Denied(t));
    }
  }

  lemma WastingFinish(p: Params, t0: int, n: nat, s: System, k: nat, c: nat, t: int)
    requires p.openDuration > 0 && Wasting(p, t0, n, s, k) && Enabled(s, Finish(c, false, t))
    requires Recent(s.history) <= |s.inFlight|
    ensures Wasting(p, t0, n, Step(p, s, Finish(c, false, t)), k)
  {
    hide FailureRun, GrantedSinceFailure, OpenedAt, GrantCount, Recent;
    var h := s.history;
    AfterFailure(p, h, t);
    Counting(h, Failure(t));
    InFlightBound(s.inFlight, n);
    if ModeOf(p, h) == Closed {
      CountWraps(FailureRun(h));
    }
  }

  lemma {:induction false} WastingRun(p: Params, t0: int, n: nat, actions: seq<Action>) returns (k: nat)
    requires p.openDuration > 0 && AllFail(actions, n)
    ensures Wasting(p, t0, n, Run(p, Initial(t0), actions), k)
  {
    if actions == [] {
      k := 0;
    } else {
      var front, a := actions[..|actions|-1], actions[|actions|-1];
      var s := Run(p, Initial(t0), front);
      assert forall i :: 0 <= i < |front| ==> front[i] == actions[i];
      k := WastingRun(p, t0, n, front);
      if Enabled(s, a) {
        match a
        case Start(c, t) =>
          k := WastingStart(p, t0, n, s, k, c, t);
        case Finish(c, ok, t) =>
          CallsAccounted(p, t0, front);
          WastingFinish(p, t0, n, s, k, c, t);
      }
    }
  }

  lemma QuotientAtLeast(k: nat, d: int, x: int)
    requires d > 0 && k * d <= x
    ensures k <= x / d
  {
    var q := x / d;
    assert x < (q + 1) * d;
    if k > q {
      MulMonotone(q + 1, k, d);
    }
  }

  lemma MulMonotone(a: int, b: int, d: int)
    requires a <= b && d >= 0
    ensures a * d <= b * d
  {}

  /** While everything fails, `n` concurrent callers are let through at most
      threshold - 1 + n times, plus n times per pause that fits into the time. */
  lemma WastedCallsBounded(p: Params, t0: int, n: nat, actions: seq<Action>)
    requires p.openDuration > 0 && AllFail(actions, n)
    ensures var s := Run(p, Initial(t0), actions);
            s.clock >= t0 && GrantCount(s.history) <= Limit(p) - 1 + n + n * ((s.clock - t0) / p.openDuration)
  {
    hide Run, FailureRun, GrantedSinceFailure, OpenedAt, GrantCount, Recent;
    var s := Run(p, Initial(t0), actions);
    var k := WastingRun(p, t0, n, actions);
    CallsAccounted(p, t0, actions);
    InFlightBound(s.inFlight, n);
    var q := (s.clock - t0) / p.openDuration;
    if ModeOf(p, s.history) != Closed {
      QuotientAtLeast(k, p.openDuration, s.clock - t0);
    }
    ScaledBound(k, q, n, GrantCount(s.history), Limit(p) - 1 + n);
  }

  lemma ScaledBound(k: int, q: int, n: nat, count: int, base: int)
    requires k <= q && count <= base + k * n
    ensures count <= base + n * q
  {
    MulMonotone(k, q, n);
  }

  /** A single sequential caller wastes at most threshold + T / openDuration calls. */
  lemma SequentialWasteBounded(p: Params, t0: int, actions: seq<Action>)
    requires p.openDuration > 0 && AllFail(actions, 1)
    ensures var s := Run(p, Initial(t0), actions);
            GrantCount(s.history) <= Limit(p) + (s.clock - t0) / p.openDuration
  {
    WastedCallsBounded(p, t0, 1, actions);
  }

  // ----- half-open admits everyone -----

  /** `n` callers start, one after the other, at time `t`. */
  function Starts(n: nat, t: int): seq<Action> {
    if n == 0 then [] else Starts(n - 1, t) + [Start(n - 1, t)]
  }

  /** Caller 0 fails `n` times at time 0. */
  function FailingCalls(n: nat): seq<Action> {
    if n == 0 then [] else FailingCalls(n - 1) + [Start(0, 0)] + [Finish(0, false, 0)]
  }

  lemma {:induction false} RunConcat(p: Params, s: System, a: seq<Action>, b: seq<Action>)
    ensures Run(p, s, a + b) == Run(p, Run(p, s, a), b)
  {
    if b == [] {
      assert a + b == a;
    } else {
      assert (a + b)[..|a+b|-1] == a + b[..|b|-1];
      RunConcat(p, s, a, b[..|b|-1]);
    }
  }

  lemma RunOne(p: Params, s: System, a: Action)
    ensures Run(p, s, [a]) == Step(p, s, a)
  {
    assert [a][..0] == [];
  }

  lemma FailOnce(p: Params, s: System)
    requires s.inFlight == {} && s.clock == 0 && ModeOf(p, s.history) == Closed
    ensures var s' := Run(p, Run(p, s, [Start(0, 0)]), [Finish(0, false, 0)]);
            s'.inFlight == {} && s'.clock == 0 && FailureRun(s'.history) == FailureRun(s.history) + 1
            && ModeOf(p, s'.history) == (if FailureRun(s.history) + 1 < Limit(p) then Closed else Open)
            && (FailureRun(s.history) + 1 == Limit(p) ==> OpenedAt(p, s'.history) == 0)
            && GrantCount(s'.history) == GrantCount(s.history) + 1 && Recent(s'.history) == 0
  {
    hide FailureRun, GrantedSinceFailure, OpenedAt, Run, GrantCount, Recent;
    RunOne(p, s, Start(0, 0));
    AfterGranted(p, s.history, 0);
    Counting(s.history, Granted(0));
    var mid := System(s.history + [Granted(0)], {0}, 0);
    assert s.inFlight + {0} == {0};
    assert Run(p, s, [Start(0, 0)]) == mid;
    RunOne(p, mid, Finish(0, false, 0));
    AfterFailure(p, mid.history, 0);
    Counting(mid.history, Failure(0));
    CountWraps(FailureRun(s.history));
    assert {0} - {0} == {};
  }

  lemma {:induction false} AfterFailingCalls(p: Params, n: nat)
    requires n <= Limit(p)
    ensures var s := Run(p, Initial(0), FailingCalls(n));
            s.inFlight == {} && s.clock == 0 && FailureRun(s.history) == n && GrantCount(s.history) == n
            && Recent(s.history) == 0
            && ModeOf(p, s.history) == (if n < Limit(p) then Closed else Open)
            && (n == Limit(p) ==> OpenedAt(p, s.history) == 0)
  {
    if n == 0 {
      FailureRunNothing(p);
      RunNothing(p, Initial(0));
    } else {
      hide Run, FailureRun, GrantedSinceFailure, OpenedAt, ModeOf, GrantCount, Recent;
      AfterFailingCalls(p, n - 1);
      var s := Run(p, Initial(0), FailingCalls(n - 1));
      RunConcat(p, Initial(0), FailingCalls(n - 1), [Start(0, 0)]);
      RunConcat(p, Initial(0), FailingCalls(n - 1) + [Start(0, 0)], [Finish(0, false, 0)]);
      FailOnce(p, s);
    }
  }

  /** The callers below `n`. */
  function Callers(n: nat): (cs: set<nat>)
    ensures |cs| == n && forall c: nat :: c in cs <==> c < n
  {
    if n == 0 then {} else Callers(n - 1) + {n - 1}
  }

  /** Every caller below `n` is in flight after a start at time `t`. */
  ghost predicate AllStarted(p: Params, s: System, n: nat, t: int, s': System) {
    s'.inFlight == Callers(n) && s'.clock == t
    && GrantCount(s'.history) == GrantCount(s.history) + n && FailureRun(s'.history) == FailureRun(s.history)
    && Recent(s'.history) == Recent(s.history) + n
    && ModeOf(p, s'.history) == if ModeOf(p, s.history) == Closed then Closed else HalfOpen
  }

  lemma StartOneMore(p: Params, s: System, n: nat, t: int, s': System)
    requires Grants(p, s'.history, t)
    requires if n == 0 then s' == s && s.inFlight == {} && s.clock <= t else AllStarted(p, s, n, t, s')
    ensures AllStarted(p, s, n + 1, t, Run(p, s', [Start(n, t)]))
  {
    hide Run, FailureRun, GrantedSinceFailure, OpenedAt, GrantCount, Recent;
    RunOne(p, s', Start(n, t));
    AfterGranted(p, s'.history, t);
    Counting(s'.history, Granted(t));
    assert s'.inFlight + {n} == Callers(n + 1);
  }

  lemma {:induction false} AllStartsGranted(p: Params, s: System, n: nat, t: int)
    requires s.inFlight == {} && s.clock <= t && Grants(p, s.history, t) && n >= 1
    ensures AllStarted(p, s, n, t, Run(p, s, Starts(n, t)))
  {
    hide Run, FailureRun, GrantedSinceFailure, OpenedAt, ModeOf, GrantCount;
    RunConcat(p, s, Starts(n - 1, t), [Start(n - 1, t)]);
    if n == 1 {
      RunNothing(p, s);
      assert Run(p, s, Starts(0, t)) == s;
    } else {
      AllStartsGranted(p, s, n - 1, t);
    }
    StartOneMore(p, s, n - 1, t, Run(p, s, Starts(n - 1, t)));
  }

  lemma FailureRunNothing(p: Params)
    ensures FailureRun([]) == 0 && ModeOf(p, []) == Closed
  {}

  lemma RunNothing(p: Params, s: System)
    ensures Run(p, s, []) == s
  {}

  /** The pause that has to pass; a negative one passes at once. */
  function Pause(p: Params): nat {
    if p.openDuration < 0 then 0 else p.openDuration
  }

  lemma ClosedOrPaused(p: Params, s: System, t: int)
    requires ModeOf(p, s.history) == Open ==> t - OpenedAt(p, s.history) >= Pause(p)
    ensures Grants(p, s.history, t)
  {}

  /** Contrary to the comment on the type, a half-open breaker does not let one
      probe through: any number of callers can be in flight at once. */
  lemma HalfOpenAdmitsEveryCaller(p: Params, n: nat)
    requires n >= 1
    ensures var s := Run(p, Initial(0), FailingCalls(Limit(p)) + Starts(n, Pause(p)));
            ModeOf(p, s.history) == HalfOpen && |s.inFlight| == n && Recent(s.history) == n
  {
    hide Run, FailureRun, GrantedSinceFailure, OpenedAt, ModeOf, GrantCount, Recent;
    AfterFailingCalls(p, Limit(p));
    RunConcat(p, Initial(0), FailingCalls(Limit(p)), Starts(n, Pause(p)));
    ClosedOrPaused(p, Run(p, Initial(0), FailingCalls(Limit(p))), Pause(p));
    AllStartsGranted(p, Run(p, Initial(0), FailingCalls(Limit(p))), n, Pause(p));
  }

  predicate Below(actions: seq<Action>, n: nat) {
    forall i :: 0 <= i < |actions| ==> actions[i].caller < n
  }

  /** In the half-open state at most one call was granted since the last outcome,
      and at most one is in flight. */
  ghost predicate OneProbe(p: Params, s: System) {
    ModeOf(p, s.history) == HalfOpen ==> Recent(s.history) <= 1 && |s.inFlight| <= 1
  }

  lemma {:induction false} InFlightBelow(p: Params, t0: int, n: nat, actions: seq<Action>)
    requires Below(actions, n)
    ensures forall c :: c in Run(p, Initial(t0), actions).inFlight ==> c < n
  {
    if actions != [] {
      var front := actions[..|actions|-1];
      assert forall i :: 0 <= i < |front| ==> front[i] == actions[i];
      InFlightBelow(p, t0, n, front);
    }
  }

  lemma {:induction false} WitnessBelow(n: nat, m: nat, t: int, calls: nat)
    requires n >= 1 && m <= n
    ensures Below(Starts(m, t), n) && Below(Finishes(m, t), n) && Below(FailingCalls(calls), n)
    decreases m, calls
  {
    if m > 0 {
      WitnessBelow(n, m - 1, t, calls);
    } else if calls > 0 {
      WitnessBelow(n, m, t, calls - 1);
    }
  }

  /** The promise of one probe holds on all runs of `n` callers if and only if
      there is at most one caller. */
  lemma OneProbeExactly(p: Params, n: nat)
    ensures (forall actions :: Below(actions, n) ==> OneProbe(p, Run(p, Initial(0), actions))) <==> n <= 1
  {
    hide Run, ModeOf, Recent;
    if n <= 1 {
      forall actions | Below(actions, n) ensures OneProbe(p, Run(p, Initial(0), actions)) {
        CallsAccounted(p, 0, actions);
        InFlightBelow(p, 0, n, actions);
        InFlightBound(Run(p, Initial(0), actions).inFlight, n);
      }
    } else {
      HalfOpenAdmitsEveryCaller(p, n);
      WitnessBelow(n, n, Pause(p), Limit(p));
      var actions := FailingCalls(Limit(p)) + Starts(n, Pause(p));
      assert Below(actions, n) && !OneProbe(p, Run(p, Initial(0), actions));
    }
  }

  // ----- the bound is attained -----

  /** The callers below `n` fail, one after the other, at time `t`. */
  function Finishes(n: nat, t: int): seq<Action> {
    if n == 0 then [] else Finishes(n - 1, t) + [Finish(n - 1, false, t)]
  }

  /** The worst case: one failure short of the limit, then all callers at once, and
      all again after each of `k` pauses. */
  function Wasteful(p: Params, n: nat, k: nat): seq<Action>
    decreases k, 1
  {
    BeforeRound(p, n, k) + Starts(n, k * Pause(p)) + Finishes(n, k * Pause(p))
  }

  /** What happens before the `k`-th round. */
  function BeforeRound(p: Params, n: nat, k: nat): seq<Action>
    decreases k, 0
  {
    if k == 0 then FailingCalls(Limit(p) - 1) else Wasteful(p, n, k - 1)
  }

  /** After the first `m` of `n` callers failed at time `t`. */
  ghost predicate SomeFailed(p: Params, s: System, n: nat, m: nat, t: int, s': System) {
    s'.inFlight == Callers(n) - Callers(m) && s'.clock == t
    && GrantCount(s'.history) == GrantCount(s.history) && FailureRun(s'.history) == FailureRun(s.history) + m
    && ModeOf(p, s'.history) == Open && OpenedAt(p, s'.history) == t
  }

  lemma FailOneMore(p: Params, s: System, n: nat, m: nat, t: int, s': System)
    requires m < n
    requires if m > 0 then SomeFailed(p, s, n, m, t, s')
             else s' == s && s.inFlight == Callers(n) && s.clock == t
                  && (ModeOf(p, s.history) == HalfOpen || FailureRun(s.history) + 1 == Limit(p))
    ensures SomeFailed(p, s, n, m + 1, t, Run(p, s', [Finish(m, false, t)]))
  {
    hide Run, FailureRun, GrantedSinceFailure, OpenedAt, GrantCount, Recent, Outcomes, Callers;
    RunOne(p, s', Finish(m, false, t));
    AfterFailure(p, s'.history, t);
    Counting(s'.history, Failure(t));
    assert s'.inFlight - {m} == Callers(n) - Callers(m + 1);
  }

  lemma {:induction false} AllFinish(p: Params, s: System, n: nat, m: nat, t: int)
    requires 1 <= m <= n && s.inFlight == Callers(n) && s.clock == t
    requires ModeOf(p, s.history) == HalfOpen || FailureRun(s.history) + 1 == Limit(p)
    ensures SomeFailed(p, s, n, m, t, Run(p, s, Finishes(m, t)))
  {
    hide Run, FailureRun, GrantedSinceFailure, OpenedAt, ModeOf, GrantCount;
    RunConcat(p, s, Finishes(m - 1, t), [Finish(m - 1, false, t)]);
    if m == 1 {
      RunNothing(p, s);
      assert Run(p, s, Finishes(0, t)) == s;
    } else {
      AllFinish(p, s, n, m - 1, t);
    }
    FailOneMore(p, s, n, m - 1, t, Run(p, s, Finishes(m - 1, t)));
  }

  /** One round of all callers: `n` more grants and failures, then a fresh pause. */
  lemma WastefulRound(p: Params, s: System, n: nat, t: int)
    requires n >= 1 && s.inFlight == {} && s.clock <= t && Grants(p, s.history, t)
    requires ModeOf(p, s.history) == Closed ==> FailureRun(s.history) + 1 == Limit(p)
    ensures var s' := Run(p, s, Starts(n, t) + Finishes(n, t));
            s'.inFlight == {} && s'.clock == t && GrantCount(s'.history) == GrantCount(s.history) + n
            && FailureRun(s'.history) == FailureRun(s.history) + n
            && ModeOf(p, s'.history) == Open && OpenedAt(p, s'.history) == t
  {
    hide Run, FailureRun, GrantedSinceFailure, OpenedAt, ModeOf, GrantCount;
    RunConcat(p, s, Starts(n, t), Finishes(n, t));
    AllStartsGranted(p, s, n, t);
    AllFinish(p, Run(p, s, Starts(n, t)), n, n, t);
    assert Callers(n) - Callers(n) == {};
  }

  lemma {:induction false} FailingCallsFail(n: nat, callers: nat)
    requires callers >= 1
    ensures AllFail(FailingCalls(n), callers)
  {
    if n > 0 { FailingCallsFail(n - 1, callers); }
  }

  lemma {:induction false} RoundFails(n: nat, m: nat, t: int)
    requires m <= n
    ensures AllFail(Starts(m, t), n) && AllFail(Finishes(m, t), n)
  {
    if m > 0 { RoundFails(n, m - 1, t); }
  }

  /** What holds just before the `k`-th round. */
  lemma ReadyForRound(p: Params, n: nat, k: nat)
    requires n >= 1
    ensures var s := Run(p, Initial(0), BeforeRound(p, n, k));
            AllFail(BeforeRound(p, n, k), n) && s.inFlight == {} && s.clock <= k * Pause(p)
            && Grants(p, s.history, k * Pause(p))
            && GrantCount(s.history) == Limit(p) - 1 + n * k && FailureRun(s.history) == Limit(p) - 1 + n * k
            && (k == 0 <==> ModeOf(p, s.history) == Closed)
    decreases k, 0
  {
    hide Run, FailureRun, GrantedSinceFailure, OpenedAt, ModeOf, GrantCount, Recent, Grants;
    if k == 0 {
      FailingCallsFail(Limit(p) - 1, n);
      AfterFailingCalls(p, Limit(p) - 1);
    } else {
      AfterRounds(p, n, k - 1);
      assert k * Pause(p) == (k - 1) * Pause(p) + Pause(p);
      assert n * k == n * (k - 1) + n;
    }
    ClosedOrPaused(p, Run(p, Initial(0), BeforeRound(p, n, k)), k * Pause(p));
  }

  /** What holds just after it. */
  lemma AfterRounds(p: Params, n: nat, k: nat)
    requires n >= 1
    ensures var s := Run(p, Initial(0), Wasteful(p, n, k));
            AllFail(Wasteful(p, n, k), n) && s.inFlight == {} && s.clock == k * Pause(p)
            && GrantCount(s.history) == Limit(p) - 1 + n + n * k && FailureRun(s.history) == Limit(p) - 1 + n + n * k
            && ModeOf(p, s.history) == Open && OpenedAt(p, s.history) == s.clock
    decreases k, 1
  {
    hide Run, FailureRun, GrantedSinceFailure, OpenedAt, ModeOf, GrantCount, Starts, Finishes, BeforeRound, Grants;
    var t := k * Pause(p);
    RoundFails(n, n, t);
    ReadyForRound(p, n, k);
    var before := BeforeRound(p, n, k);
    assert Wasteful(p, n, k) == before + (Starts(n, t) + Finishes(n, t));
    RunConcat(p, Initial(0), before, Starts(n, t) + Finishes(n, t));
    WastefulRound(p, Run(p, Initial(0), before), n, t);
  }

  /** The bound on wasted calls cannot be improved: for every threshold, number of
      callers and number of pauses there is an all-failing run that meets it. */
  lemma WasteBoundAttained(p: Params, n: nat, k: nat)
    requires p.openDuration > 0 && n >= 1
    ensures var s := Run(p, Initial(0), Wasteful(p, n, k));
            AllFail(Wasteful(p, n, k), n) && s.clock == k * p.openDuration
            && GrantCount(s.history) == Limit(p) - 1 + n + n * k
  {
    AfterRounds(p, n, k);
  }

  // ----- whether the pause counts from the last failure -----

  ghost predicate PausesFromLastFailure(p: Params, s: System) {
    ModeOf(p, s.history) != Closed ==> OpenedAt(p, s.history) == LastFailure(s.history)
  }

  lemma LastFailureAfter(h: History, e: Event)
    ensures LastFailure(h + [e]) == if e.Failure? then e.at else LastFailure(h)
  {
    assert (h + [e])[..|h|] == h;
  }

  /** With one caller, nothing is in flight while the breaker is open. */
  ghost predicate Alone(p: Params, n: nat, s: System) {
    PausesFromLastFailure(p, s)
    && (forall c :: c in s.inFlight ==> c < n)
    && (n <= 1 && ModeOf(p, s.history) == Open ==> s.inFlight == {})
  }

  lemma StartsAlone(p: Params, n: nat, s: System, c: nat, t: int)
    requires Alone(p, n, s) && Enabled(s, Start(c, t)) && c < n
    ensures Alone(p, n, Step(p, s, Start(c, t)))
  {
    hide FailureRun, GrantedSinceFailure, OpenedAt, LastFailure;
    if Grants(p, s.history, t) {
      AfterGranted(p, s.history, t);
      LastFailureAfter(s.history, Granted(t));
    } else {
      AfterDenied(p, s.history, t);
      LastFailureAfter(s.history, Denied(t));
    }
  }

  lemma FinishesAlone(p: Params, n: nat, s: System, c: nat, ok: bool, t: int)
    requires (n <= 1 || p.threshold == 0) && Alone(p, n, s) && Enabled(s, Finish(c, ok, t))
    ensures Alone(p, n, Step(p, s, Finish(c, ok, t)))
  {
    hide FailureRun, GrantedSinceFailure, OpenedAt, LastFailure;
    if ok {
      AfterSuccess(p, s.history);
    } else {
      AfterFailure(p, s.history, t);
      LastFailureAfter(s.history, Failure(t));
      CountWraps(FailureRun(s.history));
      if n <= 1 { assert s.inFlight - {c} == {}; }
    }
  }

  /** One caller: every failure of an open or half-open breaker ends a probe, and so
      restarts the pause, however often the counter wraps. */
  lemma {:induction false} OneCallerRestarts(p: Params, n: nat, actions: seq<Action>)
    requires (n <= 1 || p.threshold == 0) && Below(actions, n)
    ensures Alone(p, n, Run(p, Initial(0), actions))
  {
    hide Alone, Run, Step;
    if actions == [] {
      RunNothing(p, Initial(0));
      AloneAtFirst(p, n);
    } else {
      var front, a := actions[..|actions|-1], actions[|actions|-1];
      var s := Run(p, Initial(0), front);
      assert forall i :: 0 <= i < |front| ==> front[i] == actions[i];
      OneCallerRestarts(p, n, front);
      RunLast(p, actions);
      if Enabled(s, a) {
        match a {
          case Start(c, t) => StartsAlone(p, n, s, c, t);
          case Finish(c, ok, t) => FinishesAlone(p, n, s, c, ok, t);
        }
      } else {
        DisabledStep(p, s, a);
      }
    }
  }

  lemma AloneAtFirst(p: Params, n: nat)
    ensures Alone(p, n, Initial(0))
  {}

  lemma DisabledStep(p: Params, s: System, a: Action)
    requires !Enabled(s, a)
    ensures Step(p, s, a) == s
  {}

  lemma RunLast(p: Params, actions: seq<Action>)
    requires actions != []
    ensures Run(p, Initial(0), actions)
         == Step(p, Run(p, Initial(0), actions[..|actions|-1]), actions[|actions|-1])
  {}

  lemma AloneGives(p: Params, n: nat, s: System)
    requires Alone(p, n, s)
    ensures PausesFromLastFailure(p, s)
  {}

  /** The round in which the 32-bit counter wraps on the second of two failures. */
  function WrapRound(p: Params): nat {
    (UINT32 - Limit(p)) / 2
  }

  /** Two callers fail together, round after round, until the second failure of a
      round wraps the counter; that one comes a moment later. */
  function WrappingRun(p: Params): seq<Action> {
    var t := WrapRound(p) * Pause(p);
    BeforeRound(p, 2, WrapRound(p)) + Starts(2, t) + Finishes(1, t) + [Finish(1, false, t + 1)]
  }

  lemma WrapCount(p: Params)
    requires p.threshold >= 1
    ensures (Limit(p) - 1 + 2 * WrapRound(p) + 2) % UINT32 < p.threshold
  {
    var count := Limit(p) - 1 + 2 * WrapRound(p) + 2;
    if p.threshold % 2 == 1 { assert count == UINT32; } else { assert count == UINT32 + 1; }
  }

  lemma WrapRestartsNothing(p: Params)
    requires p.threshold >= 1
    ensures Below(WrappingRun(p), 2) && !PausesFromLastFailure(p, Run(p, Initial(0), WrappingRun(p)))
  {
    hide Run, FailureRun, GrantedSinceFailure, OpenedAt, LastFailure, GrantCount, Recent;
    hide Starts, BeforeRound, WrapRound;
    var k := WrapRound(p);
    var t := k * Pause(p);
    var s0 := Run(p, Initial(0), BeforeRound(p, 2, k));
    ReadyForRound(p, 2, k);
    AllStartsGranted(p, s0, 2, t);
    RunConcat(p, Initial(0), BeforeRound(p, 2, k), Starts(2, t));
    var s1 := Run(p, s0, Starts(2, t));
    AllFinish(p, s1, 2, 1, t);
    RunConcat(p, Initial(0), BeforeRound(p, 2, k) + Starts(2, t), Finishes(1, t));
    var s2 := Run(p, s1, Finishes(1, t));
    RunConcat(p, Initial(0), BeforeRound(p, 2, k) + Starts(2, t) + Finishes(1, t), [Finish(1, false, t + 1)]);
    RunOne(p, s2, Finish(1, false, t + 1));
    AfterFailure(p, s2.history, t + 1);
    LastFailureAfter(s2.history, Failure(t + 1));
    WrapCount(p);
    WitnessBelow(2, 2, t, 0);
  }

  /** On every run of `n` callers an open or half-open breaker counts its pause from
      the last failure, if and only if there is at most one caller or the threshold
      is zero. */
  lemma PauseFromLastFailureExactly(p: Params, n: nat)
    ensures (forall actions :: Below(actions, n) ==> PausesFromLastFailure(p, Run(p, Initial(0), actions)))
       <==> n <= 1 || p.threshold == 0
  {
    hide PausesFromLastFailure, Run, WrappingRun;
    if n <= 1 || p.threshold == 0 {
      forall actions | Below(actions, n) ensures PausesFromLastFailure(p, Run(p, Initial(0), actions)) {
        OneCallerRestarts(p, n, actions);
        AloneGives(p, n, Run(p, Initial(0), actions));
      }
    } else {
      WrapRestartsNothing(p);
      assert Below(WrappingRun(p), n);
    }
  }
}
