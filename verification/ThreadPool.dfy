/** The condition-variable thread pool (server/tpool.cpp) as an interleaving of
    its workers, any number of callers of enqueue, and one destructor. What runs
    under the mutex is one step; notify calls are steps of their own, as they are
    made after the mutex is released. Tasks are named by number. */
module ThreadPool {

  /** Ready: awake and about to test the wait predicate under the mutex. */
  datatype Worker = Ready | Asleep | Running(task: nat) | Exited

  /** `ones` and `all` count the notify calls still to be made. `lastExit` is what
      had been enqueued when a worker last exited. */
  datatype Pool = Pool(
    tasks: seq<nat>, stop: bool, workers: seq<Worker>, ones: nat, all: bool,
    enqueued: seq<nat>, started: seq<nat>, finished: seq<nat>, lastExit: seq<nat>)

  function NewPool(threads: nat): Pool {
    Pool([], false, seq(threads, i => Ready), 0, false, [], [], [], [])
  }

  datatype Event =
    | Enqueue(task: nat)
    | NotifyOne(woken: int)   // the worker woken, or -1 if none sleeps
    | Stop
    | NotifyAll
    | Spurious(worker: nat)
    | Test(worker: nat)
    | Finish(worker: nat)

  predicate Enabled(s: Pool, e: Event) {
    match e
    case Enqueue(_) => true
    case NotifyOne(w) =>
      s.ones > 0
      && (if 0 <= w < |s.workers| then s.workers[w] == Asleep else Asleep !in s.workers)
    case Stop => !s.stop
    case NotifyAll => s.all
    case Spurious(i) => i < |s.workers| && s.workers[i] == Asleep
    case Test(i) => i < |s.workers| && s.workers[i] == Ready
    case Finish(i) => i < |s.workers| && s.workers[i].Running?
  }

  function WakeAll(ws: seq<Worker>): (vs: seq<Worker>)
    ensures |vs| == |ws|
    ensures forall i :: 0 <= i < |ws| ==> vs[i] == if ws[i] == Asleep then Ready else ws[i]
  {
    seq(|ws|, i requires 0 <= i < |ws| => if ws[i] == Asleep then Ready else ws[i])
  }

  function Apply(s: Pool, e: Event): Pool
    requires Enabled(s, e)
  {
    match e
    case Enqueue(t) => s.(tasks := s.tasks + [t], enqueued := s.enqueued + [t], ones := s.ones + 1)
    case NotifyOne(w) =>
      s.(ones := s.ones - 1, workers := if 0 <= w < |s.workers| then s.workers[w := Ready] else s.workers)
    case Stop => s.(stop := true, all := true)
    case NotifyAll => s.(all := false, workers := WakeAll(s.workers))
    case Spurious(i) => s.(workers := s.workers[i := Ready])
    case Test(i) =>
      if !s.stop && s.tasks == [] then s.(workers := s.workers[i := Asleep])
      else if s.tasks == [] then s.(workers := s.workers[i := Exited], lastExit := s.enqueued)
      else
        s.(workers := s.workers[i := Running(s.tasks[0])], tasks := s.tasks[1..], started := s.started + [s.tasks[0]])
    case Finish(i) =>
      s.(workers := s.workers[i := Ready], finished := s.finished + [s.workers[i].task])
  }

  ghost predicate Runnable(s: Pool, es: seq<Event>)
    decreases |es|
  {
    es == [] || (Enabled(s, es[0]) && Runnable(Apply(s, es[0]), es[1..]))
  }

  ghost function Run(s: Pool, es: seq<Event>): Pool
    requires Runnable(s, es)
    decreases |es|
  {
    if es == [] then s else Run(Apply(s, es[0]), es[1..])
  }

  // -------- the invariant --------

  function Holds(w: Worker, x: nat): nat {
    if w == Running(x) then 1 else 0
  }

  /** How many workers are running task x. */
  function InHand(ws: seq<Worker>, x: nat): nat {
    if ws == [] then 0 else Holds(ws[0], x) + InHand(ws[1..], x)
  }

  predicate Awake(w: Worker) {
    w == Ready || w.Running?
  }

  ghost predicate SomeAwake(ws: seq<Worker>) {
    exists i :: 0 <= i < |ws| && Awake(ws[i])
  }

  ghost predicate AllExited(ws: seq<Worker>) {
    forall i :: 0 <= i < |ws| ==> ws[i] == Exited
  }

  ghost predicate Inv(s: Pool) {
    && s.started + s.tasks == s.enqueued
    && (s.tasks != [] ==> s.ones > 0 || SomeAwake(s.workers) || AllExited(s.workers))
    && (s.stop && !s.all ==> Asleep !in s.workers)
    && (!s.stop ==> !s.all && Exited !in s.workers)
    && s.lastExit <= s.started
    && Conserved(s)
  }

  /** Every started task is finished or in a worker's hands. */
  ghost predicate Conserved(s: Pool) {
    forall x: nat :: multiset(s.started)[x] == multiset(s.finished)[x] + InHand(s.workers, x)
  }

  lemma {:induction false} InHandUpdate(ws: seq<Worker>, i: nat, w: Worker, x: nat)
    requires i < |ws|
    ensures InHand(ws[i := w], x) + Holds(ws[i], x) == InHand(ws, x) + Holds(w, x)
  {
    if i == 0 {
      assert ws[0 := w][1..] == ws[1..];
    } else {
      InHandUpdate(ws[1..], i - 1, w, x);
      assert ws[i := w][1..] == ws[1..][i - 1 := w];
    }
  }

  lemma {:induction false} InHandWakeAll(ws: seq<Worker>, x: nat)
    ensures InHand(WakeAll(ws), x) == InHand(ws, x)
  {
    if ws != [] {
      InHandWakeAll(ws[1..], x);
      assert WakeAll(ws)[1..] == WakeAll(ws[1..]);
    }
  }

  /** Someone who does not sleep and has not exited is awake. */
  lemma NobodyAsleep(ws: seq<Worker>)
    requires Asleep !in ws && !AllExited(ws)
    ensures SomeAwake(ws)
  {
    var i :| 0 <= i < |ws| && ws[i] != Exited;
    assert Awake(ws[i]);
  }

  lemma ApplyConserves(s: Pool, e: Event)
    requires Conserved(s) && Enabled(s, e)
    ensures Conserved(Apply(s, e))
  {
    hide Apply;
    forall x: nat
      ensures multiset(Apply(s, e).started)[x] == multiset(Apply(s, e).finished)[x] + InHand(Apply(s, e).workers, x)
    {
      ApplyCounts(s, e, x);
    }
  }

  lemma CountAppend(xs: seq<nat>, t: nat, x: nat)
    ensures multiset(xs + [t])[x] == multiset(xs)[x] + if x == t then 1 else 0
  {
  }

  lemma ApplyCounts(s: Pool, e: Event, x: nat)
    requires Enabled(s, e) && multiset(s.started)[x] == multiset(s.finished)[x] + InHand(s.workers, x)
    ensures var t := Apply(s, e);
            multiset(t.started)[x] == multiset(t.finished)[x] + InHand(t.workers, x)
  {
    var t := Apply(s, e);
    match e
    case Enqueue(_) =>
    case Stop =>
    case NotifyAll => InHandWakeAll(s.workers, x);
    case NotifyOne(w) =>
      if 0 <= w < |s.workers| {
        InHandUpdate(s.workers, w, Ready, x);
      }
    case Spurious(i) => InHandUpdate(s.workers, i, Ready, x);
    case Test(i) =>
      InHandUpdate(s.workers, i, t.workers[i], x);
      if s.tasks != [] {
        CountAppend(s.started, s.tasks[0], x);
      }
    case Finish(i) =>
      InHandUpdate(s.workers, i, Ready, x);
      CountAppend(s.finished, s.workers[i].task, x);
  }

  /** An update that keeps everyone but i: who is in the new list. */
  lemma Members(ws: seq<Worker>, i: nat, w: Worker)
    requires i < |ws|
    ensures forall v :: v in ws[i := w] ==> v in ws || v == w
  {
  }

  lemma ApplyKeepsInv(s: Pool, e: Event)
    requires Inv(s) && Enabled(s, e)
    ensures Inv(Apply(s, e))
  {
    hide Conserved;
    ApplyConserves(s, e);
    var t := Apply(s, e);
    match e
    case Enqueue(task) =>
      assert t.started + t.tasks == s.started + s.tasks + [task];
    case NotifyOne(w) =>
      if 0 <= w < |s.workers| {
        Members(s.workers, w, Ready);
        assert Awake(t.workers[w]);
      } else if !AllExited(s.workers) {
        NobodyAsleep(s.workers);
      }
    case Stop =>
    case NotifyAll => WakeAllKeepsInv(s);
    case Spurious(i) =>
      Members(s.workers, i, Ready);
      assert Awake(t.workers[i]);
    case Test(i) =>
      Members(s.workers, i, t.workers[i]);
      TestKeepsOrder(s, i);
    case Finish(i) =>
      Members(s.workers, i, Ready);
      assert Awake(t.workers[i]);
  }

  lemma WakeAllKeepsInv(s: Pool)
    requires Inv(s) && s.all
    ensures var t := Apply(s, NotifyAll);
            && (SomeAwake(s.workers) ==> SomeAwake(t.workers))
            && (AllExited(s.workers) ==> AllExited(t.workers))
            && Asleep !in t.workers
  {
    var t := Apply(s, NotifyAll);
    if i :| 0 <= i < |s.workers| && Awake(s.workers[i]) {
      assert Awake(t.workers[i]);
    }
  }

  lemma TestKeepsOrder(s: Pool, i: nat)
    requires Inv(s) && Enabled(s, Test(i))
    ensures var t := Apply(s, Test(i));
            && t.started + t.tasks == t.enqueued && t.lastExit <= t.started
            && (t.tasks != [] ==> SomeAwake(t.workers))
  {
    var t := Apply(s, Test(i));
    if s.tasks != [] {
      assert Awake(t.workers[i]);
      assert s.tasks == [s.tasks[0]] + s.tasks[1..];
      assert t.started + t.tasks == s.started + s.tasks;
    } else {
      assert s.started + [] == s.started;
    }
  }

  lemma {:induction false} RunKeepsInv(s: Pool, es: seq<Event>)
    requires Inv(s) && Runnable(s, es)
    ensures Inv(Run(s, es))
    decreases |es|
  {
    if es != [] {
      ApplyKeepsInv(s, es[0]);
      RunKeepsInv(Apply(s, es[0]), es[1..]);
    }
  }

  lemma {:induction false} NothingInHand(ws: seq<Worker>, x: nat)
    requires forall i :: 0 <= i < |ws| ==> !ws[i].Running?
    ensures InHand(ws, x) == 0
  {
    if ws != [] {
      NothingInHand(ws[1..], x);
    }
  }

  lemma NewPoolInv(threads: nat)
    ensures Inv(NewPool(threads))
  {
    forall x: nat
      ensures InHand(NewPool(threads).workers, x) == 0
    {
      NothingInHand(NewPool(threads).workers, x);
    }
  }

  // -------- the theorems --------

  /** Tasks start in the order they were enqueued, each once; and no wake-up is
      lost: no reachable state has a queued task, someone left to run it, all of
      those asleep, and no notification to come. */
  lemma NoLostWakeup(threads: nat, es: seq<Event>)
    requires Runnable(NewPool(threads), es)
    ensures var s := Run(NewPool(threads), es);
            && s.started + s.tasks == s.enqueued
            && !(&& s.tasks != [] && s.ones == 0 && !AllExited(s.workers)
                 && forall i :: 0 <= i < |s.workers| ==> s.workers[i] == Asleep || s.workers[i] == Exited)
  {
    NewPoolInv(threads);
    RunKeepsInv(NewPool(threads), es);
  }

  /** Once all workers (at least one) have exited, every task enqueued before the
      last exit has been run, and nothing else has. */
  lemma ExitedMeansDone(threads: nat, es: seq<Event>)
    requires Runnable(NewPool(threads), es)
    ensures var s := Run(NewPool(threads), es);
            AllExited(s.workers) ==>
              && multiset(s.finished) == multiset(s.started)
              && s.lastExit <= s.started
              && (s.lastExit == s.enqueued ==> multiset(s.finished) == multiset(s.enqueued))
  {
    NewPoolInv(threads);
    RunKeepsInv(NewPool(threads), es);
    var s := Run(NewPool(threads), es);
    if AllExited(s.workers) {
      NobodyBusy(s);
      if s.lastExit == s.enqueued {
        assert |s.started| >= |s.enqueued|;
        assert s.tasks == [];
        assert s.started + [] == s.started;
      }
    }
  }

  // -------- every task is run --------

  lemma {:induction false} RunKeepsWorkers(s: Pool, es: seq<Event>)
    requires Runnable(s, es)
    ensures |Run(s, es).workers| == |s.workers|
    decreases |es|
  {
    if es != [] {
      RunKeepsWorkers(Apply(s, es[0]), es[1..]);
    }
  }

  /** A pool has the number of workers it was made with, in every run. */
  lemma PoolSize(threads: nat, es: seq<Event>)
    requires Runnable(NewPool(threads), es)
    ensures |Run(NewPool(threads), es).workers| == threads
  {
    RunKeepsWorkers(NewPool(threads), es);
  }

  predicate OwnStep(e: Event) {
    !e.Enqueue? && !e.Stop? && !e.Spurious?
  }

  /** A queued task and nobody busy: some step of the pool's own starts the task, or
      wakes a worker that can start it at its next step. */
  lemma TaskCanStart(threads: nat, es: seq<Event>) returns (e: Event)
    requires threads >= 1 && Runnable(NewPool(threads), es)
    requires var s := Run(NewPool(threads), es);
             !s.stop && s.tasks != [] && forall i :: 0 <= i < |s.workers| ==> !s.workers[i].Running?
    ensures var s := Run(NewPool(threads), es);
            && Enabled(s, e) && OwnStep(e)
            && var t := Apply(s, e);
               || t.started == s.started + [s.tasks[0]]
               || exists i :: Enabled(t, Test(i)) && Apply(t, Test(i)).started == s.started + [s.tasks[0]]
  {
    NewPoolInv(threads);
    RunKeepsInv(NewPool(threads), es);
    PoolSize(threads, es);
    var s := Run(NewPool(threads), es);
    assert s.workers[0] != Exited;
    if i :| 0 <= i < |s.workers| && s.workers[i] == Ready {
      e := Test(i);
    } else {
      assert s.workers[0] == Asleep;
      e := NotifyOne(0);
      assert Enabled(Apply(s, e), Test(0));
    }
  }

  /** Left alone, a pool that is not stopped runs everything enqueued so far: from
      every state of the invariant with a worker, steps of its own lead to an empty
      queue, nobody busy, and exactly the enqueued tasks finished. */
  lemma {:induction false} PoolCatchesUp(s: Pool) returns (es: seq<Event>)
    requires Inv(s) && !s.stop && s.workers != []
    ensures Runnable(s, es) && (forall i :: 0 <= i < |es| ==> OwnStep(es[i]))
    ensures var t := Run(s, es);
            && t.tasks == [] && t.enqueued == s.enqueued && !t.stop
            && multiset(t.finished) == multiset(s.enqueued)
    decreases Work(s)
  {
    hide Conserved;
    var e;
    if i :| 0 <= i < |s.workers| && s.workers[i].Running? {
      e := Finish(i);
      RanksUpdate(s.workers, i, Ready);
    } else if s.tasks == [] {
      NobodyBusy(s);
      assert s.started + [] == s.started;
      return [];
    } else if i :| 0 <= i < |s.workers| && s.workers[i] == Ready {
      e := Test(i);
      RanksUpdate(s.workers, i, Running(s.tasks[0]));
    } else {
      assert s.workers[0] == Asleep;
      e := NotifyOne(0);
      RanksUpdate(s.workers, 0, Ready);
    }
    ApplyKeepsInv(s, e);
    var rest := PoolCatchesUp(Apply(s, e));
    es := [e] + rest;
    assert es[1..] == rest;
  }

  lemma NobodyBusy(s: Pool)
    requires Conserved(s) && forall i :: 0 <= i < |s.workers| ==> !s.workers[i].Running?
    ensures multiset(s.finished) == multiset(s.started)
  {
    forall x: nat
      ensures multiset(s.finished)[x] == multiset(s.started)[x]
    {
      NothingInHand(s.workers, x);
    }
  }

  /** Any list of tasks, on any pool with a worker: some run enqueues exactly them
      and finishes exactly them, no shutdown needed. */
  lemma PoolRunsAll(threads: nat, tasks: seq<nat>) returns (es: seq<Event>)
    requires threads >= 1
    ensures Runnable(NewPool(threads), es) && !Run(NewPool(threads), es).stop
    ensures Run(NewPool(threads), es).enqueued == tasks
    ensures multiset(Run(NewPool(threads), es).finished) == multiset(tasks)
  {
    NewPoolInv(threads);
    var first := EnqueueAll(NewPool(threads), tasks);
    assert [] + tasks == tasks;
    var s := Run(NewPool(threads), first);
    RunKeepsInv(NewPool(threads), first);
    PoolSize(threads, first);
    var rest := PoolCatchesUp(s);
    es := first + rest;
    RunOn(NewPool(threads), first, rest);
  }

  lemma {:induction false} EnqueueAll(s: Pool, tasks: seq<nat>) returns (es: seq<Event>)
    requires !s.stop
    ensures Runnable(s, es) && Run(s, es).enqueued == s.enqueued + tasks && !Run(s, es).stop
    decreases |tasks|
  {
    if tasks == [] {
      assert s.enqueued + [] == s.enqueued;
      return [];
    }
    var e := Enqueue(tasks[0]);
    var rest := EnqueueAll(Apply(s, e), tasks[1..]);
    es := [e] + rest;
    assert es[1..] == rest;
    assert s.enqueued + [tasks[0]] + tasks[1..] == s.enqueued + tasks;
  }

  lemma {:induction false} RunOn(s: Pool, es: seq<Event>, fs: seq<Event>)
    requires Runnable(s, es) && Runnable(Run(s, es), fs)
    ensures Runnable(s, es + fs) && Run(s, es + fs) == Run(Run(s, es), fs)
    decreases |es|
  {
    if es == [] {
      assert es + fs == fs;
    } else {
      assert (es + fs)[1..] == es[1..] + fs;
      RunOn(Apply(s, es[0]), es[1..], fs);
    }
  }

  // -------- shutdown terminates --------

  function Rank(w: Worker): nat {
    match w
    case Exited => 0
    case Ready => 1
    case Asleep => 2
    case Running(_) => 2
  }

  function Ranks(ws: seq<Worker>): nat {
    if ws == [] then 0 else Rank(ws[0]) + Ranks(ws[1..])
  }

  function Work(s: Pool): nat {
    2 * |s.tasks| + Ranks(s.workers) + s.ones + (if s.all then 1 else 0)
  }

  lemma {:induction false} RanksUpdate(ws: seq<Worker>, i: nat, w: Worker)
    requires i < |ws|
    ensures Ranks(ws[i := w]) + Rank(ws[i]) == Ranks(ws) + Rank(w)
  {
    if i == 0 {
      assert ws[0 := w][1..] == ws[1..];
    } else {
      RanksUpdate(ws[1..], i - 1, w);
      assert ws[i := w][1..] == ws[1..][i - 1 := w];
    }
  }

  lemma {:induction false} RanksWakeAll(ws: seq<Worker>)
    ensures Ranks(WakeAll(ws)) <= Ranks(ws)
  {
    if ws != [] {
      RanksWakeAll(ws[1..]);
      assert WakeAll(ws)[1..] == WakeAll(ws[1..]);
    }
  }

  /** After stop, every step but a further enqueue brings the end nearer, in
      whatever order the steps come, spurious wake-ups included. */
  lemma ShutdownAdvances(s: Pool, e: Event)
    requires Inv(s) && s.stop && Enabled(s, e) && !e.Enqueue?
    ensures Work(Apply(s, e)) < Work(s) && Apply(s, e).stop
  {
    match e
    case NotifyOne(w) =>
      if 0 <= w < |s.workers| {
        RanksUpdate(s.workers, w, Ready);
      }
    case NotifyAll => RanksWakeAll(s.workers);
    case Spurious(i) => RanksUpdate(s.workers, i, Ready);
    case Test(i) => RanksUpdate(s.workers, i, Apply(s, e).workers[i]);
    case Finish(i) => RanksUpdate(s.workers, i, Ready);
  }

  /** ... and there is such a step until all workers have exited, so the joins of
      the destructor return. */
  lemma ShutdownNeverStuck(s: Pool) returns (e: Event)
    requires Inv(s) && s.stop && !AllExited(s.workers)
    ensures Enabled(s, e) && !e.Enqueue? && !e.Spurious?
  {
    var i :| 0 <= i < |s.workers| && s.workers[i] != Exited;
    match s.workers[i] {
      case Ready => e := Test(i);
      case Running(_) => e := Finish(i);
      case Asleep => e := NotifyAll;
    }
  }

  ghost predicate DoneIfExited(s: Pool) {
    AllExited(s.workers) ==> multiset(s.finished) == multiset(s.enqueued)
  }

  lemma ShutdownStep(s: Pool, e: Event)
    requires Inv(s) && s.stop && Enabled(s, e) && !e.Enqueue? && DoneIfExited(s)
    ensures DoneIfExited(Apply(s, e)) && Apply(s, e).enqueued == s.enqueued
  {
    hide Conserved;
    if !AllExited(s.workers) && AllExited(Apply(s, e).workers) {
      LastExitDone(s, e);
    }
  }

  /** The shutdown as a whole: from any reachable stopped state with a worker
      left, every run without a further enqueue is finite, and where it cannot go
      on, all workers are gone and exactly the enqueued tasks have been run. */
  lemma {:induction false} ShutdownCompletes(s: Pool, es: seq<Event>)
    requires Inv(s) && s.stop && DoneIfExited(s)
    requires Runnable(s, es) && forall i :: 0 <= i < |es| ==> !es[i].Enqueue?
    ensures var t := Run(s, es);
            && |es| + Work(t) <= Work(s)
            && (|| (exists e :: Enabled(t, e) && !e.Enqueue? && !e.Spurious?)
                || (AllExited(t.workers) && multiset(t.finished) == multiset(s.enqueued)))
    decreases |es|
  {
    hide Conserved, Work, AllExited, Enabled;
    if es == [] {
      if !AllExited(s.workers) {
        var e := ShutdownNeverStuck(s);
      }
    } else {
      var e := es[0];
      ShutdownAdvances(s, e);
      ApplyKeepsInv(s, e);
      ShutdownStep(s, e);
      ShutdownCompletes(Apply(s, e), es[1..]);
    }
  }

  lemma LastExitDone(s: Pool, e: Event)
    requires Inv(s) && s.stop && Enabled(s, e) && !e.Enqueue? && !AllExited(s.workers) && AllExited(Apply(s, e).workers)
    ensures multiset(Apply(s, e).finished) == multiset(s.enqueued) && Apply(s, e).enqueued == s.enqueued
  {
    hide Conserved;
    var t := Apply(s, e);
    ApplyConserves(s, e);
    NobodyBusy(t);
    assert e.Test? && s.tasks == [] by {
      var i :| 0 <= i < |s.workers| && s.workers[i] != Exited;
      assert t.workers[i] == Exited;
    }
    assert s.started + [] == s.started;
  }
}
