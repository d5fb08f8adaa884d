/** The load tester's workers, which share one atomic counter: every interleaving
    of claiming a request, recording its result and stopping. */
module WorkerPool {

  datatype Phase = Ready | InFlight | Stopped

  datatype Pool = Pool(workers: seq<Phase>, completed: nat, results: nat)

  function Start(n: nat): Pool {
    Pool(seq(n, i => Ready), 0, 0)
  }

  /** One atomic step of worker `w` in a run of `total` requests: counting up and
      comparing, or appending the result. A stopped worker takes no step. */
  function Step(p: Pool, total: int, w: nat): Pool {
    if w >= |p.workers| then p
    else match p.workers[w]
      case Ready =>
        var completed := p.completed + 1;
        Pool(p.workers[w := if completed > total then Stopped else InFlight], completed, p.results)
      case InFlight => Pool(p.workers[w := Ready], p.completed, p.results + 1)
      case Stopped => p
  }

  predicate Steps(p: Pool, w: nat) {
    w < |p.workers| && p.workers[w] != Stopped
  }

  function Run(n: nat, total: int, schedule: seq<nat>): Pool {
    if schedule == [] then Start(n)
    else Step(Run(n, total, schedule[..|schedule|-1]), total, schedule[|schedule|-1])
  }

  /** Only workers that can step are scheduled. */
  predicate Schedulable(n: nat, total: int, schedule: seq<nat>) {
    schedule != [] ==>
      Schedulable(n, total, schedule[..|schedule|-1])
      && Steps(Run(n, total, schedule[..|schedule|-1]), schedule[|schedule|-1])
  }

  predicate Finished(p: Pool) {
    forall w :: 0 <= w < |p.workers| ==> p.workers[w] == Stopped
  }

  function CountOf(ws: seq<Phase>, x: Phase): nat {
    if ws == [] then 0 else CountOf(ws[..|ws|-1], x) + if ws[|ws|-1] == x then 1 else 0
  }

  lemma {:induction false} CountUpdate(ws: seq<Phase>, w: nat, y: Phase, x: Phase)
    requires w < |ws|
    ensures CountOf(ws[w := y], x) == CountOf(ws, x) - (if ws[w] == x then 1 else 0) + (if y == x then 1 else 0)
  {
    var front := ws[..|ws|-1];
    if w < |front| {
      CountUpdate(front, w, y, x);
      assert ws[w := y][..|ws|-1] == front[w := y];
    } else {
      assert ws[w := y][..|ws|-1] == front;
    }
  }

  lemma {:induction false} CountAll(ws: seq<Phase>, x: Phase)
    ensures CountOf(ws, x) == |ws| <==> forall w :: 0 <= w < |ws| ==> ws[w] == x
    ensures CountOf(ws, x) <= |ws|
  {
    if ws != [] {
      CountAll(ws[..|ws|-1], x);
      assert forall w :: 0 <= w < |ws| - 1 ==> ws[..|ws|-1][w] == ws[w];
    }
  }

  lemma {:induction false} CountNone(ws: seq<Phase>, x: Phase)
    requires forall w :: 0 <= w < |ws| ==> ws[w] != x
    ensures CountOf(ws, x) == 0
  {
    if ws != [] { CountNone(ws[..|ws|-1], x); }
  }

  function Wanted(total: int): nat {
    if total < 0 then 0 else total
  }

  /** Claims up to the total are in flight or recorded; claims beyond it stop a
      worker each. */
  predicate Accounted(p: Pool, n: nat, total: int) {
    |p.workers| == n
    && p.completed == p.results + CountOf(p.workers, InFlight) + CountOf(p.workers, Stopped)
    && p.results + CountOf(p.workers, InFlight) <= Wanted(total)
    && (CountOf(p.workers, Stopped) > 0 ==> p.results + CountOf(p.workers, InFlight) == Wanted(total))
  }

  lemma {:induction false} AlwaysAccounted(n: nat, total: int, schedule: seq<nat>)
    ensures Accounted(Run(n, total, schedule), n, total)
  {
    if schedule == [] {
      CountNone(Start(n).workers, InFlight);
      CountNone(Start(n).workers, Stopped);
    } else {
      var p, w := Run(n, total, schedule[..|schedule|-1]), schedule[|schedule|-1];
      AlwaysAccounted(n, total, schedule[..|schedule|-1]);
      if w < n && p.workers[w] != Stopped {
        var y := Step(p, total, w).workers[w];
        CountUpdate(p.workers, w, y, InFlight);
        CountUpdate(p.workers, w, y, Stopped);
      }
    }
  }

  /** However the workers interleave, a finished run has issued exactly the requested
      number of requests, and the counter shows one more per worker. */
  lemma ExactTotal(n: nat, total: int, schedule: seq<nat>)
    requires n >= 1 && Finished(Run(n, total, schedule))
    ensures Run(n, total, schedule).results == Wanted(total)
    ensures Run(n, total, schedule).completed == Wanted(total) + n
  {
    var p := Run(n, total, schedule);
    AlwaysAccounted(n, total, schedule);
    CountAll(p.workers, Stopped);
    CountNone(p.workers, InFlight);
  }

  lemma {:induction false} StepsCounted(n: nat, total: int, schedule: seq<nat>)
    requires Schedulable(n, total, schedule)
    ensures |schedule| == Run(n, total, schedule).completed + Run(n, total, schedule).results
  {
    if schedule != [] { StepsCounted(n, total, schedule[..|schedule|-1]); }
  }

  /** Every run ends: a schedule of workers that can step is never longer than two
      steps per request and one per worker, and is that long exactly when all
      workers have stopped. */
  lemma RunLength(n: nat, total: int, schedule: seq<nat>)
    requires n >= 1 && Schedulable(n, total, schedule)
    ensures |schedule| <= 2 * Wanted(total) + n
    ensures |schedule| == 2 * Wanted(total) + n <==> Finished(Run(n, total, schedule))
  {
    hide Run, Schedulable;
    var p := Run(n, total, schedule);
    StepsCounted(n, total, schedule);
    AlwaysAccounted(n, total, schedule);
    CountAll(p.workers, Stopped);
    if Finished(p) { ExactTotal(n, total, schedule); }
  }
}
