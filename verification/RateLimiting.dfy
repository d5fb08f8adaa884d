/** The token bucket in front of the HTTP handlers: a buffered channel filled by a
    ticker and drained by requests, as a sequence of atomic events. */
module RateLimiting {

  datatype Event = Tick | Request

  /** Tokens in a bucket of size `rps` that starts full. */
  function Level(rps: nat, run: seq<Event>): (n: nat)
    ensures n <= rps
  {
    if run == [] then rps
    else
      var n := Level(rps, run[..|run|-1]);
      match run[|run|-1]
      case Tick => if n < rps then n + 1 else n
      case Request => if n > 0 then n - 1 else n
  }

  function Count(run: seq<Event>, e: Event): nat {
    if run == [] then 0 else Count(run[..|run|-1], e) + if run[|run|-1] == e then 1 else 0
  }

  /** Requests let through. */
  function Admitted(rps: nat, run: seq<Event>): nat {
    if run == [] then 0
    else
      var front := run[..|run|-1];
      Admitted(rps, front) + if run[|run|-1] == Request && Level(rps, front) > 0 then 1 else 0
  }

  lemma AfterEvent(rps: nat, run: seq<Event>, e: Event)
    ensures Level(rps, run + [e]) == match e
            { case Tick => if Level(rps, run) < rps then Level(rps, run) + 1 else rps
              case Request => if Level(rps, run) > 0 then Level(rps, run) - 1 else 0 }
    ensures Admitted(rps, run + [e]) == Admitted(rps, run) + if e == Request && Level(rps, run) > 0 then 1 else 0
  {
    assert (run + [e])[..|run|] == run;
  }

  class RateLimiter {
    const rps: nat
    var bucket: nat
    ghost var history: seq<Event>

    ghost predicate Valid()
      reads this
    {
      bucket == Level(rps, history)
    }

    constructor (rps: nat)
      requires rps > 0
      ensures Valid() && this.rps == rps && history == []
    {
      this.rps, bucket, history := rps, rps, [];
    }

    method Refill()
      requires Valid()
      modifies this
      ensures Valid() && history == old(history) + [Tick]
    {
      hide Level, Admitted;
      AfterEvent(rps, history, Tick);
      if bucket < rps { bucket := bucket + 1; }
      history := history + [Tick];
    }

    method Allow() returns (ok: bool)
      requires Valid()
      modifies this
      ensures Valid() && history == old(history) + [Request]
      ensures Admitted(rps, history) == Admitted(rps, old(history)) + if ok then 1 else 0
    {
      hide Level, Admitted;
      AfterEvent(rps, history, Request);
      ok := bucket > 0;
      if ok { bucket := bucket - 1; }
      history := history + [Request];
    }
  }

  lemma CountSnoc(run: seq<Event>, i: nat, e: Event)
    requires i < |run|
    ensures Count(run[i..], e) == Count(run[i..|run|-1], e) + if run[|run|-1] == e then 1 else 0
  {
    assert run[i..][..|run| - i - 1] == run[i..|run|-1];
  }

  /** In any window, at most the bucket's size plus the window's ticks get through. */
  lemma {:induction false} WindowBounded(rps: nat, run: seq<Event>, i: nat)
    requires i <= |run|
    ensures Admitted(rps, run) + Level(rps, run)
         <= Admitted(rps, run[..i]) + Level(rps, run[..i]) + Count(run[i..], Tick)
    ensures Admitted(rps, run) - Admitted(rps, run[..i]) <= rps + Count(run[i..], Tick)
  {
    if i < |run| {
      var front := run[..|run|-1];
      WindowBounded(rps, front, i);
      assert front[..i] == run[..i] && front[i..] == run[i..|run|-1];
      CountSnoc(run, i, Tick);
    } else {
      assert run[..i] == run;
    }
  }

  /** While nothing has been turned away, the level is what is left since the bucket
      was last full. */
  lemma {:induction false} SinceLastFull(rps: nat, run: seq<Event>) returns (i: nat)
    requires Admitted(rps, run) == Count(run, Request)
    ensures i <= |run| && Level(rps, run) == rps + Count(run[i..], Tick) - Count(run[i..], Request)
  {
    if run == [] {
      i := 0;
    } else {
      var front := run[..|run|-1];
      AdmittedAtMost(rps, front);
      i := SinceLastFull(rps, front);
      if run[|run|-1] == Tick && Level(rps, front) == rps {
        i := |run|;
      } else {
        assert front[i..] == run[i..|run|-1];
        CountSnoc(run, i, Tick);
        CountSnoc(run, i, Request);
      }
    }
  }

  lemma {:induction false} AdmittedAtMost(rps: nat, run: seq<Event>)
    ensures Admitted(rps, run) <= Count(run, Request)
  {
    if run != [] { AdmittedAtMost(rps, run[..|run|-1]); }
  }

  /** No window asks for more than the bucket's size plus its ticks. */
  ghost predicate Conforms(rps: nat, run: seq<Event>) {
    forall i, j :: 0 <= i <= j <= |run| ==> Count(run[i..j], Request) <= rps + Count(run[i..j], Tick)
  }

  lemma {:induction false} AdmittedPrefix(rps: nat, run: seq<Event>, j: nat)
    requires j <= |run| && Admitted(rps, run) == Count(run, Request)
    ensures Admitted(rps, run[..j]) == Count(run[..j], Request)
  {
    if j < |run| {
      var front := run[..|run|-1];
      AdmittedAtMost(rps, front);
      AdmittedPrefix(rps, front, j);
      assert front[..j] == run[..j];
    } else {
      assert run[..j] == run;
    }
  }

  lemma {:induction false} CountSplit(run: seq<Event>, i: nat, e: Event)
    requires i <= |run|
    ensures Count(run, e) == Count(run[..i], e) + Count(run[i..], e)
  {
    if i < |run| {
      var front := run[..|run|-1];
      CountSplit(front, i, e);
      assert front[..i] == run[..i] && front[i..] == run[i..|run|-1];
      CountSnoc(run, i, e);
    } else {
      assert run[..i] == run;
    }
  }

  /** Nothing is turned away if and only if the traffic conforms: the limiter
      refuses no conforming traffic and lets no other through whole. */
  lemma {:induction false} AdmitsExactlyConforming(rps: nat, run: seq<Event>)
    ensures Admitted(rps, run) == Count(run, Request) <==> Conforms(rps, run)
  {
    if Admitted(rps, run) == Count(run, Request) {
      forall i, j | 0 <= i <= j <= |run|
        ensures Count(run[i..j], Request) <= rps + Count(run[i..j], Tick)
      {
        var part := run[..j];
        AdmittedPrefix(rps, run, j);
        AdmittedPrefix(rps, part, i);
        WindowBounded(rps, part, i);
        CountSplit(part, i, Request);
        assert part[i..] == run[i..j];
      }
    } else if Conforms(rps, run) {
      var front := run[..|run|-1];
      assert forall i, j :: 0 <= i <= j <= |front| ==> front[i..j] == run[i..j];
      AdmitsExactlyConforming(rps, front);
      var i := SinceLastFull(rps, front);
      assert front[i..] == run[i..|run|-1] && run[i..|run|] == run[i..];
      CountSnoc(run, i, Tick);
      CountSnoc(run, i, Request);
    }
  }
}
