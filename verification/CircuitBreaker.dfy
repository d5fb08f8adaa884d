/** The circuit breaker in front of the RAG service. Its fields are a function
    of the history of calls, whatever the interleaving of the callers. */
module CircuitBreakers {

  const UINT32 := 0x1_0000_0000

  type uint32 = n: nat | n < UINT32

  datatype Mode = Closed | Open | HalfOpen

  /** One call under the breaker's lock, with the clock reading it made. */
  datatype Event = Granted(at: int) | Denied(at: int) | Success | Failure(at: int)

  type History = seq<Event>

  datatype Params = Params(threshold: uint32, openDuration: int)

  // ----- what a history means -----

  /** The failures since the last success. */
  function FailureRun(h: History): nat {
    if h == [] then 0
    else match h[|h|-1]
      case Success => 0
      case Failure(_) => FailureRun(h[..|h|-1]) + 1
      case _ => FailureRun(h[..|h|-1])
  }

  /** The first failure opens the breaker even when the threshold is zero. */
  function Limit(p: Params): nat {
    if p.threshold == 0 then 1 else p.threshold
  }

  /** Some call was let through after the last failure. */
  ghost predicate GrantedSinceFailure(h: History) {
    exists i :: 0 <= i < |h| && h[i].Granted? && forall j :: i < j < |h| ==> !h[j].Failure?
  }

  ghost function ModeOf(p: Params, h: History): Mode {
    if FailureRun(h) < Limit(p) then Closed
    else if GrantedSinceFailure(h) then HalfOpen
    else Open
  }

  /** A failure that (re)opens the breaker and restarts its clock: one that
      ends a half-open phase, or one whose 32-bit count is at the threshold. */
  ghost predicate Reopens(p: Params, before: History) {
    ModeOf(p, before) == HalfOpen || (FailureRun(before) + 1) % UINT32 >= p.threshold
  }

  ghost function OpenedAt(p: Params, h: History): int {
    if h == [] then 0
    else
      var before := h[..|h|-1];
      if h[|h|-1].Failure? && Reopens(p, before) then h[|h|-1].at else OpenedAt(p, before)
  }

  ghost predicate Grants(p: Params, h: History, now: int) {
    ModeOf(p, h) == Open ==> now - OpenedAt(p, h) >= p.openDuration
  }

  /** The time of the last failure. */
  function LastFailure(h: History): int {
    if h == [] then 0
    else if h[|h|-1].Failure? then h[|h|-1].at
    else LastFailure(h[..|h|-1])
  }

  // ----- one event at a time -----

  lemma AfterGranted(p: Params, h: History, t: int)
    ensures var h' := h + [Granted(t)];
            FailureRun(h') == FailureRun(h) && OpenedAt(p, h') == OpenedAt(p, h)
            && GrantedSinceFailure(h')
            && ModeOf(p, h') == (if ModeOf(p, h) == Closed then Closed else HalfOpen)
  {
    var h' := h + [Granted(t)];
    assert h'[..|h'|-1] == h;
    assert h'[|h|].Granted?;
  }

  lemma AfterDenied(p: Params, h: History, t: int)
    ensures var h' := h + [Denied(t)];
            FailureRun(h') == FailureRun(h) && OpenedAt(p, h') == OpenedAt(p, h) && ModeOf(p, h') == ModeOf(p, h)
            && (GrantedSinceFailure(h') <==> GrantedSinceFailure(h))
  {
    var h' := h + [Denied(t)];
    assert h'[..|h'|-1] == h;
    if GrantedSinceFailure(h) {
      var i :| 0 <= i < |h| && h[i].Granted? && forall j :: i < j < |h| ==> !h[j].Failure?;
      assert h'[i].Granted?;
    }
    if GrantedSinceFailure(h') {
      var i :| 0 <= i < |h'| && h'[i].Granted? && forall j :: i < j < |h'| ==> !h'[j].Failure?;
      assert h[i].Granted?;
      assert forall j :: i < j < |h| ==> h[j] == h'[j];
    }
  }

  lemma AfterSuccess(p: Params, h: History)
    ensures var h' := h + [Success];
            FailureRun(h') == 0 && OpenedAt(p, h') == OpenedAt(p, h) && ModeOf(p, h') == Closed
  {
    assert (h + [Success])[..|h|] == h;
  }

  lemma AfterFailure(p: Params, h: History, t: int)
    ensures var h' := h + [Failure(t)];
            FailureRun(h') == FailureRun(h) + 1
            && OpenedAt(p, h') == (if Reopens(p, h) then t else OpenedAt(p, h))
            && ModeOf(p, h') == (if FailureRun(h) + 1 < Limit(p) then Closed else Open)
            && !GrantedSinceFailure(h')
  {
    var h' := h + [Failure(t)];
    assert h'[..|h'|-1] == h;
    assert h'[|h|].Failure?;
  }

  // ----- the breaker -----

  class CircuitBreaker {
    const params: Params
    var failures: uint32
    var mode: Mode
    var openedAt: int
    ghost var history: History

    /** The whole concrete state is what the history says. */
    ghost predicate Valid()
      reads this
    {
      failures == FailureRun(history) % UINT32
      && mode == ModeOf(params, history)
      && openedAt == OpenedAt(params, history)
    }

    constructor (params: Params)
      ensures Valid() && this.params == params && history == []
    {
      this.params := params;
      failures, mode, openedAt, history := 0, Closed, 0, [];
    }

    method Allow(now: int) returns (ok: bool)
      requires Valid()
      modifies this
      ensures Valid()
      ensures ok <==> Grants(params, old(history), now)
      ensures history == old(history) + [if ok then Granted(now) else Denied(now)]
      ensures !ok ==> failures == old(failures) && mode == old(mode) && openedAt == old(openedAt)
    {
      AfterGranted(params, history, now);
      AfterDenied(params, history, now);
      match mode {
        case Closed =>
          ok := true;
        case Open =>
          if now - openedAt >= params.openDuration {
            mode := HalfOpen;
            ok := true;
          } else {
            ok := false;
          }
        case HalfOpen =>
          ok := true;
      }
      history := history + [if ok then Granted(now) else Denied(now)];
    }

    method RecordSuccess()
      requires Valid()
      modifies this
      ensures Valid() && history == old(history) + [Success]
      ensures mode == Closed && failures == 0 && openedAt == old(openedAt)
    {
      AfterSuccess(params, history);
      failures := 0;
      if mode != Closed { mode := Closed; }
      history := history + [Success];
    }

    method RecordFailure(now: int)
      requires Valid()
      modifies this
      ensures Valid() && history == old(history) + [Failure(now)]
    {
      hide FailureRun, GrantedSinceFailure, OpenedAt;
      AfterFailure(params, history, now);
      history := history + [Failure(now)];
      var count := (failures + 1) % UINT32;
      CountWraps(FailureRun(old(history)));
      failures := count;
      if mode == HalfOpen {
        mode := Open;
        openedAt := now;
        return;
      }
      if count >= params.threshold {
        mode := Open;
        openedAt := now;
      }
    }
  }

  lemma CountWraps(n: nat)
    ensures (n % UINT32 + 1) % UINT32 == (n + 1) % UINT32
    ensures n + 1 < UINT32 ==> (n + 1) % UINT32 == n + 1
  {}

  // ----- consequences -----

  /** While fewer than 2^32 failures are on record in a row, an open or half-open
      breaker counts its pause from the last failure. */
  lemma {:induction false} OpenedAtIsLastFailure(p: Params, h: History)
    requires Limit(p) <= FailureRun(h) < UINT32
    ensures OpenedAt(p, h) == LastFailure(h)
  {
    var before := h[..|h|-1];
    if h[|h|-1].Failure? {
      assert (FailureRun(before) + 1) % UINT32 == FailureRun(h);
    } else {
      OpenedAtIsLastFailure(p, before);
    }
  }

  lemma {:induction false} OpenedAtUnmoved(p: Params, h: History, tail: History)
    requires forall i :: 0 <= i < |tail| ==> !tail[i].Failure?
    ensures OpenedAt(p, h + tail) == OpenedAt(p, h)
    decreases |tail|
  {
    if tail == [] {
      assert h + tail == h;
    } else {
      assert (h + tail)[..|h+tail|-1] == h + tail[..|tail|-1];
      OpenedAtUnmoved(p, h, tail[..|tail|-1]);
    }
  }

  /** The pause is counted from the last failure, whenever that was, if and only if
      that failure reopened the breaker. */
  lemma PauseRestartsExactly(p: Params, before: History, tail: History)
    requires forall i :: 0 <= i < |tail| ==> !tail[i].Failure?
    ensures (forall t: int :: OpenedAt(p, before + [Failure(t)] + tail) == t) <==> Reopens(p, before)
  {
    hide Reopens, OpenedAt;
    forall t: int
      ensures OpenedAt(p, before + [Failure(t)] + tail) == if Reopens(p, before) then t else OpenedAt(p, before)
    {
      OpenedAtUnmoved(p, before + [Failure(t)], tail);
      AfterFailure(p, before, t);
    }
    var other := OpenedAt(p, before) + 1;
    assert OpenedAt(p, before + [Failure(other)] + tail) == if Reopens(p, before) then other else OpenedAt(p, before);
  }
}
