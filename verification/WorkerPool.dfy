/** `mapWithConcurrency` as an interleaving of workers that share the next index; code between two awaits is one step.
    */
module WorkerPool {
  datatype Worker = Ready | Running(index: nat) | Done

  /** `started` and `finished` are the calls of `fn` so far, in order. */
  datatype Pool = Pool(next: nat, workers: seq<Worker>, started: seq<nat>, finished: seq<nat>)

  function AtLeastOne(limit: int): nat { if limit > 1 then limit else 1 }

  function Size(items: nat, limit: int): nat {
    if AtLeastOne(limit) < items then AtLeastOne(limit) else items
  }

  function Fresh(items: nat, limit: int): Pool {
    Pool(0, seq(Size(items, limit), _ => Ready), [], [])
  }

  /** Worker k runs from where it waits to its next await: its call is over, it claims an index, it starts a call or
      returns. */
  function Resume(items: nat, p: Pool, k: nat): Pool
    requires k < |p.workers| && !p.workers[k].Done?
  {
    var finished := if p.workers[k].Running? then p.finished + [p.workers[k].index] else p.finished;
    if p.next >= items then Pool(p.next + 1, p.workers[k := Done], p.started, finished)
    else Pool(p.next + 1, p.workers[k := Running(p.next)], p.started + [p.next], finished)
  }

  predicate Active(p: Pool, k: nat) { k < |p.workers| && !p.workers[k].Done? }

  /** Any interleaving: at every step some worker that has not returned runs on. */
  ghost predicate IsRun(items: nat, limit: int, run: seq<Pool>) {
    && run != [] && run[0] == Fresh(items, limit)
    && forall i :: 0 <= i < |run| - 1 ==> exists k :: Active(run[i], k) && run[i + 1] == Resume(items, run[i], k)
  }

  function CountRunning(workers: seq<Worker>): nat {
    if workers == [] then 0
    else CountRunning(workers[..|workers| - 1]) + (if workers[|workers| - 1].Running? then 1 else 0)
  }

  function CountActive(workers: seq<Worker>): nat {
    if workers == [] then 0
    else CountActive(workers[..|workers| - 1]) + (if workers[|workers| - 1].Done? then 0 else 1)
  }

  /** Calls started and not finished. */
  function InFlight(p: Pool): int { |p.started| - |p.finished| }

  /** Items not started and workers not returned. */
  function Left(items: nat, p: Pool): int { items - |p.started| + CountActive(p.workers) }

  ghost predicate Distinct(s: seq<nat>) { forall i, j :: 0 <= i < j < |s| ==> s[i] != s[j] }

  ghost predicate RunningOn(p: Pool, index: nat) { exists k :: 0 <= k < |p.workers| && p.workers[k] == Running(index) }

  ghost predicate Inv(items: nat, limit: int, p: Pool) {
    && |p.workers| == Size(items, limit)
    && |p.started| == (if p.next < items then p.next else items)
    && (forall i :: 0 <= i < |p.started| ==> p.started[i] == i)
    && Distinct(p.finished) && InFlight(p) == CountRunning(p.workers)
    && (forall i :: i in p.finished ==> i < |p.started| && !RunningOn(p, i))
    && (forall i: nat :: i < |p.started| && i !in p.finished ==> RunningOn(p, i))
    && (forall k :: 0 <= k < |p.workers| && p.workers[k].Running? ==> p.workers[k].index < |p.started|)
    && (forall k, l :: 0 <= k < l < |p.workers| && p.workers[k].Running? ==> p.workers[k] != p.workers[l])
    && (forall k :: 0 <= k < |p.workers| && p.workers[k].Done? ==> items <= p.next)
  }

  lemma {:induction false} CountsOfUpdate(workers: seq<Worker>, k: nat, w: Worker)
    requires k < |workers|
    ensures CountRunning(workers[k := w])
            == CountRunning(workers) - (if workers[k].Running? then 1 else 0) + (if w.Running? then 1 else 0)
    ensures CountActive(workers[k := w])
            == CountActive(workers) - (if workers[k].Done? then 0 else 1) + (if w.Done? then 0 else 1)
  {
    var n := |workers| - 1;
    if k == n {
      assert workers[k := w][..n] == workers[..n];
    } else {
      assert workers[k := w][..n] == workers[..n][k := w];
      CountsOfUpdate(workers[..n], k, w);
    }
  }

  lemma {:induction false} CountsOfFresh(n: nat)
    ensures CountRunning(seq(n, _ => Ready)) == 0 && CountActive(seq(n, _ => Ready)) == n
  {
    if n > 0 {
      assert seq(n, _ => Ready)[..n - 1] == seq(n - 1, _ => Ready);
      CountsOfFresh(n - 1);
    }
  }

  lemma {:induction false} RunningAtMost(workers: seq<Worker>)
    ensures CountRunning(workers) <= CountActive(workers) <= |workers|
    ensures CountActive(workers) == 0 <==> forall k :: 0 <= k < |workers| ==> workers[k].Done?
  {
    if workers != [] {
      RunningAtMost(workers[..|workers| - 1]);
      assert workers == workers[..|workers| - 1] + [workers[|workers| - 1]];
    }
  }

  lemma ResumeKeeps(items: nat, limit: int, p: Pool, k: nat)
    requires Inv(items, limit, p) && Active(p, k)
    ensures Inv(items, limit, Resume(items, p, k))
    ensures Left(items, Resume(items, p, k)) == Left(items, p) - 1
  {
    var p' := Resume(items, p, k);
    CountsOfUpdate(p.workers, k, p'.workers[k]);
    forall i: nat | i < |p'.started| && i !in p'.finished ensures RunningOn(p', i) {
      if i < |p.started| {
        var l :| 0 <= l < |p.workers| && p.workers[l] == Running(i);
        assert l != k && p'.workers[l] == Running(i);
      } else {
        assert p'.workers[k] == Running(i);
      }
    }
    forall i | i in p'.finished ensures i < |p'.started| && !RunningOn(p', i) {
      if RunningOn(p', i) {
        var l :| 0 <= l < |p'.workers| && p'.workers[l] == Running(i);
        if l != k { assert p.workers[l] == Running(i) && RunningOn(p, i); }
      }
    }
    if p.workers[k].Running? { assert RunningOn(p, p.workers[k].index); }
  }

  lemma FreshIsFine(items: nat, limit: int)
    ensures Inv(items, limit, Fresh(items, limit)) && Left(items, Fresh(items, limit)) == items + Size(items, limit)
  {
    CountsOfFresh(Size(items, limit));
  }

  lemma {:induction false} RunKeeps(items: nat, limit: int, run: seq<Pool>, i: nat)
    requires IsRun(items, limit, run) && i < |run|
    ensures Inv(items, limit, run[i]) && Left(items, run[i]) == items + Size(items, limit) - i
    decreases i
  {
    if i == 0 {
      FreshIsFine(items, limit);
    } else {
      RunKeeps(items, limit, run, i - 1);
      var k :| Active(run[i - 1], k) && run[i - 1 + 1] == Resume(items, run[i - 1], k);
      ResumeKeeps(items, limit, run[i - 1], k);
    }
  }

  /** In every interleaving: no index is started twice or out of order, and the calls in flight respect the limit. */
  lemma BoundedAndOnce(items: nat, limit: int, run: seq<Pool>, i: nat)
    requires IsRun(items, limit, run) && i < |run|
    ensures (forall j :: 0 <= j < |run[i].started| ==> run[i].started[j] == j) && |run[i].started| <= items
    ensures Distinct(run[i].finished) && forall j :: j in run[i].finished ==> j in run[i].started
    ensures 0 <= |run[i].started| - |run[i].finished| <= if limit > 1 then limit else 1
    ensures |run[i].workers| == items || |run[i].workers| == if limit > 1 then limit else 1
    ensures |run[i].started| < items ==> forall k :: 0 <= k < |run[i].workers| ==> !run[i].workers[k].Done?
  {
    RunKeeps(items, limit, run, i);
    RunningAtMost(run[i].workers);
    forall j | j in run[i].finished ensures j in run[i].started { assert run[i].started[j] == j; }
  }

  predicate AllDone(p: Pool) { forall k :: 0 <= k < |p.workers| ==> p.workers[k].Done? }

  /** The pool is over exactly when every item's call has been made and has ended and every worker has noticed;
      that takes the same number of steps in every interleaving, and until then some worker can run. */
  lemma OverWhenAllFinished(items: nat, limit: int, run: seq<Pool>, i: nat)
    requires IsRun(items, limit, run) && i < |run|
    ensures i <= items + Size(items, limit)
    ensures AllDone(run[i]) <==> i == items + Size(items, limit)
    ensures AllDone(run[i]) ==>
              |run[i].started| == |run[i].finished| == items && forall j: nat :: j < items ==> j in run[i].finished
    ensures !AllDone(run[i]) ==> exists k :: Active(run[i], k)
  {
    RunKeeps(items, limit, run, i);
    var p := run[i];
    RunningAtMost(p.workers);
    if AllDone(p) {
      if items > 0 { assert p.workers[0].Done?; }
      forall j: nat | j < items ensures j in p.finished { assert !RunningOn(p, j); }
    } else {
      var k :| 0 <= k < |p.workers| && !p.workers[k].Done?;
      assert Active(p, k);
    }
  }

  /** The pool as the source writes it: shared fields, one worker resumed at a time, in any order. */
  class Workers {
    const items: nat
    const limit: int
    var next: nat
    var workers: seq<Worker>
    var started: seq<nat>
    var finished: seq<nat>

    ghost function Now(): Pool
      reads this
    {
      Pool(next, workers, started, finished)
    }

    constructor (items: nat, limit: int)
      ensures this.items == items && this.limit == limit && Now() == Fresh(items, limit)
    {
      this.items, this.limit := items, limit;
      next, started, finished := 0, [], [];
      workers := seq(Size(items, limit), _ => Ready);
    }

    method Run(k: nat)
      requires Active(Now(), k)
      modifies this
      ensures Now() == Resume(items, old(Now()), k)
    {
      if workers[k].Running? { finished := finished + [workers[k].index]; }
      var index := next;
      next := next + 1;
      if index >= items {
        workers := workers[k := Done];
        return;
      }
      started := started + [index];
      workers := workers[k := Running(index)];
    }

    /** `Promise.all`: until every worker has returned, any of the others may be next. */
    method MapAll()
      requires Now() == Fresh(items, limit)
      modifies this
      ensures AllDone(Now())
      ensures started == seq(items, i => i) && |finished| == items && forall i: nat :: i < items ==> i in finished
    {
      FreshIsFine(items, limit);
      while exists k :: 0 <= k < |workers| && !workers[k].Done?
        invariant Inv(items, limit, Now()) && InFlight(Now()) <= AtLeastOne(limit)
        decreases Left(items, Now())
      {
        var k: nat :| k < |workers| && !workers[k].Done?;
        ResumeKeeps(items, limit, Now(), k);
        Run(k);
        RunningAtMost(workers);
      }
      RunningAtMost(workers);
      if items > 0 { assert workers[0].Done?; }
      forall i: nat | i < items ensures i in finished { assert !RunningOn(Now(), i); }
    }
  }
}
