/**
 The worker pool of server/src/thread_pool.c as a step system: each critical section of the code is one atomic step,
 and any number of workers, submitters and waiters and one destroyer take steps in any order.
 */
module PoolModel {

  /** Where a worker's thread is. A task is named by the position of its submission. */
  datatype Worker =
    | AtLock                  // about to lock the mutex at the top of its loop
    | Asleep                  // inside pthread_cond_wait, not signalled
    | Awakened                // released from the condition variable, has not re-checked yet
    | Running(task: nat)      // inside the task's function
    | Retiring(task: nat)     // the function returned, `active` not yet decremented
    | Exited

  datatype Destroyer = Open | Joining(joined: nat) | Drained

  datatype Pool = Pool(
    queue: seq<nat>,
    active: int,
    shutdown: bool,
    workers: seq<Worker>,
    destroyer: Destroyer,
    submitted: nat,           // history: number of tasks accepted
    started: seq<nat>,        // history: tasks taken off the queue by a worker, in that order
    finished: seq<nat>,       // history: tasks whose function returned, in that order
    discarded: seq<nat>       // history: tasks freed unrun by the destroyer
  )

  datatype Action =
    | Submit(woken: set<nat>) // `woken`: the sleepers pthread_cond_signal released
    | Spurious(w: nat)        // a sleeper leaves pthread_cond_wait without a signal
    | Section(w: nat)         // a worker runs its locked section: sleep, leave or take a task
    | Finish(w: nat)          // a task's function returns
    | Retire(w: nat)          // a worker decrements `active`
    | Shutdown                // the destroyer sets the flag and broadcasts
    | Join                    // the destroyer's next pthread_join returns
    | Drain                   // the destroyer frees what is left in the queue

  function Init(threadCount: int): Pool {
    var n := if threadCount <= 0 then 4 else threadCount;
    Pool([], 0, false, seq(n, _ => AtLock), Open, 0, [], [], [])
  }

  function Sleepers(workers: seq<Worker>): set<nat> {
    set w | 0 <= w < |workers| && workers[w].Asleep? :: w
  }

  predicate Enabled(s: Pool, a: Action) {
    match a
    case Submit(woken) =>
      // the pool must not have been freed; a signal releases at least one sleeper when there is one
      && !s.destroyer.Drained?
      && woken <= Sleepers(s.workers)
      && (Sleepers(s.workers) != {} ==> woken != {})
    case Spurious(w) => w < |s.workers| && s.workers[w].Asleep?
    case Section(w) => w < |s.workers| && (s.workers[w].AtLock? || s.workers[w].Awakened?)
    case Finish(w) => w < |s.workers| && s.workers[w].Running?
    case Retire(w) => w < |s.workers| && s.workers[w].Retiring?
    case Shutdown => s.destroyer.Open?
    case Join => s.destroyer.Joining? && s.destroyer.joined < |s.workers| && s.workers[s.destroyer.joined].Exited?
    case Drain => s.destroyer.Joining? && s.destroyer.joined == |s.workers|
  }

  function Wake(workers: seq<Worker>, woken: set<nat>): (r: seq<Worker>)
    ensures |r| == |workers|
  {
    seq(|workers|, w requires 0 <= w < |workers| => if w in woken then Awakened else workers[w])
  }

  /** One locked section of `worker_thread`, from the lock or the re-check to the unlock. */
  function RunSection(s: Pool, w: nat): Pool
    requires Enabled(s, Section(w))
  {
    if s.queue == [] && !s.shutdown then s.(workers := s.workers[w := Asleep])
    else if s.shutdown then s.(workers := s.workers[w := Exited])
    else s.(queue := s.queue[1..], active := s.active + 1, started := s.started + [s.queue[0]],
            workers := s.workers[w := Running(s.queue[0])])
  }

  function Apply(s: Pool, a: Action): Pool
    requires Enabled(s, a)
  {
    match a
    case Submit(woken) =>
      s.(queue := s.queue + [s.submitted], submitted := s.submitted + 1, workers := Wake(s.workers, woken))
    case Spurious(w) => s.(workers := s.workers[w := Awakened])
    case Section(w) => RunSection(s, w)
    case Finish(w) =>
      s.(workers := s.workers[w := Retiring(s.workers[w].task)], finished := s.finished + [s.workers[w].task])
    case Retire(w) => s.(workers := s.workers[w := AtLock], active := s.active - 1)
    case Shutdown => s.(shutdown := true, destroyer := Joining(0), workers := Wake(s.workers, Sleepers(s.workers)))
    case Join => s.(destroyer := Joining(s.destroyer.joined + 1))
    case Drain => s.(destroyer := Drained, discarded := s.queue, queue := [])
  }

  /** The state after a run, or none when some step of it was not possible. */
  ghost predicate Run(s: Pool, actions: seq<Action>, t: Pool)
    decreases |actions|
  {
    if actions == [] then t == s
    else Enabled(s, actions[0]) && Run(Apply(s, actions[0]), actions[1..], t)
  }

  ghost predicate Reachable(t: Pool) {
    exists n, actions :: Run(Init(n), actions, t)
  }

  // --- Counting workers ---

  predicate Busy(w: Worker) { w.Running? || w.Retiring? }

  predicate Waking(w: Worker) { w.Awakened? }

  function Count(workers: seq<Worker>, p: Worker -> bool): nat {
    if workers == [] then 0 else (if p(workers[0]) then 1 else 0) + Count(workers[1..], p)
  }

  function Carried(w: Worker): multiset<nat> {
    if w.Running? then multiset{w.task} else multiset{}
  }

  /** The tasks whose function is being executed. */
  function InFlight(workers: seq<Worker>): multiset<nat> {
    if workers == [] then multiset{} else Carried(workers[0]) + InFlight(workers[1..])
  }

  lemma {:induction false} CountUpdate(workers: seq<Worker>, w: nat, x: Worker, p: Worker -> bool)
    requires w < |workers|
    ensures Count(workers[w := x], p) + (if p(workers[w]) then 1 else 0) == Count(workers, p) + (if p(x) then 1 else 0)
    decreases w
  {
    if w > 0 {
      assert workers[w := x][1..] == workers[1..][w - 1 := x];
      CountUpdate(workers[1..], w - 1, x, p);
    } else {
      assert workers[w := x][1..] == workers[1..];
    }
  }

  lemma {:induction false} InFlightUpdate(workers: seq<Worker>, w: nat, x: Worker)
    requires w < |workers|
    ensures InFlight(workers[w := x]) + Carried(workers[w]) == InFlight(workers) + Carried(x)
    decreases w
  {
    hide Carried;
    if w > 0 {
      assert workers[w := x][1..] == workers[1..][w - 1 := x];
      InFlightUpdate(workers[1..], w - 1, x);
      var first, rest := Carried(workers[0]), InFlight(workers[1..]);
      var rest' := InFlight(workers[1..][w - 1 := x]);
      assert InFlight(workers[w := x]) == first + rest';
      assert (first + rest') + Carried(workers[w]) == first + (rest' + Carried(workers[w]));
      assert (first + rest) + Carried(x) == first + (rest + Carried(x));
    } else {
      assert workers[w := x][1..] == workers[1..];
      assert InFlight(workers[w := x]) == Carried(x) + InFlight(workers[1..]);
    }
  }

  lemma {:induction false} CountGrows(ws: seq<Worker>, vs: seq<Worker>, p: Worker -> bool)
    requires |ws| == |vs|
    requires forall i | 0 <= i < |ws| :: p(ws[i]) ==> p(vs[i])
    ensures Count(ws, p) <= Count(vs, p)
    ensures (exists i | 0 <= i < |ws| :: p(vs[i]) && !p(ws[i])) ==> Count(ws, p) < Count(vs, p)
    decreases |ws|
  {
    if ws != [] {
      CountGrows(ws[1..], vs[1..], p);
      if i :| 0 <= i < |ws| && p(vs[i]) && !p(ws[i]) {
        if i > 0 {
          assert p(vs[1..][i - 1]) && !p(ws[1..][i - 1]);
        }
      }
    }
  }

  lemma {:induction false} CountSame(ws: seq<Worker>, vs: seq<Worker>, p: Worker -> bool)
    requires |ws| == |vs|
    requires forall i | 0 <= i < |ws| :: p(ws[i]) == p(vs[i])
    ensures Count(ws, p) == Count(vs, p)
    decreases |ws|
  {
    if ws != [] { CountSame(ws[1..], vs[1..], p); }
  }

  lemma {:induction false} CountNone(ws: seq<Worker>, p: Worker -> bool)
    ensures Count(ws, p) == 0 <==> forall i | 0 <= i < |ws| :: !p(ws[i])
    decreases |ws|
  {
    if ws != [] {
      CountNone(ws[1..], p);
      assert forall i | 0 < i < |ws| :: ws[i] == ws[1..][i - 1];
    }
  }

  lemma {:induction false} InFlightSame(ws: seq<Worker>, vs: seq<Worker>)
    requires |ws| == |vs|
    requires forall i | 0 <= i < |ws| :: ws[i] == vs[i] || !(ws[i].Running? || vs[i].Running?)
    ensures InFlight(ws) == InFlight(vs)
    decreases |ws|
  {
    if ws != [] { InFlightSame(ws[1..], vs[1..]); }
  }

  lemma {:induction false} InFlightNone(ws: seq<Worker>)
    requires forall i | 0 <= i < |ws| :: !ws[i].Running?
    ensures InFlight(ws) == multiset{}
    decreases |ws|
  {
    if ws != [] { InFlightNone(ws[1..]); }
  }

  // --- The invariant ---

  /** The tasks 0, 1, ..., n - 1 in submission order. */
  function Iota(n: nat): (s: seq<nat>)
    ensures |s| == n
    ensures forall i | 0 <= i < n :: s[i] == i
  {
    seq(n, i => i)
  }

  /** No lost wake-up: sleepers leave at most as many tasks queued as there are awakened workers still to re-check. */
  ghost predicate NoLostWakeup(s: Pool) {
    if s.shutdown then Sleepers(s.workers) == {}
    else Sleepers(s.workers) != {} ==> |s.queue| <= Count(s.workers, Waking)
  }

  /** Tasks leave the queue in submission order, and what the destroyer frees is the tail of that order. */
  ghost predicate InOrder(s: Pool) {
    && s.started + s.queue + s.discarded == Iota(s.submitted)
    && (s.destroyer.Drained? ==> s.queue == [])
    && (!s.destroyer.Drained? ==> s.discarded == [])
  }

  /** Every started task is either in its function or has returned from it, once. */
  ghost predicate RunOnce(s: Pool) {
    multiset(s.started) == multiset(s.finished) + InFlight(s.workers)
  }

  ghost predicate ExitsJoined(s: Pool) {
    && (s.shutdown <==> !s.destroyer.Open?)
    && (s.destroyer.Joining? ==> s.destroyer.joined <= |s.workers|)
    && forall w | 0 <= w < |s.workers| ::
      && (s.workers[w].Exited? ==> s.shutdown)
      && (s.destroyer.Drained? || (s.destroyer.Joining? && w < s.destroyer.joined) ==> s.workers[w].Exited?)
  }

  ghost predicate Inv(s: Pool) {
    && |s.workers| > 0
    && s.active == Count(s.workers, Busy)
    && NoLostWakeup(s)
    && InOrder(s)
    && RunOnce(s)
    && ExitsJoined(s)
  }

  lemma InitInv(n: int)
    ensures Inv(Init(n))
  {
    var s := Init(n);
    CountNone(s.workers, Busy);
    InFlightNone(s.workers);
  }

  lemma WakeSleepers(workers: seq<Worker>, woken: set<nat>)
    requires woken <= Sleepers(workers)
    ensures Sleepers(Wake(workers, woken)) == Sleepers(workers) - woken
  {
    var vs := Wake(workers, woken);
    assert forall w | 0 <= w < |vs| :: vs[w].Asleep? <==> workers[w].Asleep? && w !in woken;
  }

  lemma WakeInv(s: Pool, woken: set<nat>)
    requires woken <= Sleepers(s.workers)
    ensures Count(Wake(s.workers, woken), Busy) == Count(s.workers, Busy)
    ensures InFlight(Wake(s.workers, woken)) == InFlight(s.workers)
    ensures Count(Wake(s.workers, woken), Waking) >= Count(s.workers, Waking)
    ensures woken != {} ==> Count(Wake(s.workers, woken), Waking) > Count(s.workers, Waking)
    ensures Sleepers(Wake(s.workers, woken)) == Sleepers(s.workers) - woken
  {
    WakeSleepers(s.workers, woken);
    var vs := Wake(s.workers, woken);
    assert forall w | w in woken :: w < |vs| && vs[w].Awakened? && s.workers[w].Asleep?;
    assert forall w | 0 <= w < |vs| && w !in woken :: vs[w] == s.workers[w];
    hide Wake, Sleepers, InFlight, Count;
    CountSame(s.workers, vs, Busy);
    InFlightSame(s.workers, vs);
    CountGrows(s.workers, vs, Waking);
    if woken != {} {
      var w :| w in woken;
      assert Waking(vs[w]) && !Waking(s.workers[w]);
    }
  }

  /** The steps of a single worker: each moves one program counter. */
  predicate WorkerStep(a: Action) {
    a.Section? || a.Finish? || a.Retire?
  }

  lemma Extend(s: seq<nat>, x: nat)
    ensures multiset(s + [x]) == multiset(s) + multiset{x}
  {
  }

  /** A worker that takes up, lays down or keeps no task moves exactly that much in flight. */
  lemma InFlightMoves(workers: seq<Worker>, w: nat, x: Worker)
    requires w < |workers|
    ensures Carried(workers[w]) == Carried(x) ==> InFlight(workers[w := x]) == InFlight(workers)
    ensures Carried(workers[w]) == multiset{} ==> InFlight(workers[w := x]) == InFlight(workers) + Carried(x)
    ensures Carried(x) == multiset{} ==> InFlight(workers) == InFlight(workers[w := x]) + Carried(workers[w])
  {
    InFlightUpdate(workers, w, x);
    hide Carried, InFlight;
    var a, b, c, d := InFlight(workers[w := x]), InFlight(workers), Carried(workers[w]), Carried(x);
    if c == d {
      forall k ensures a[k] == b[k] { assert (a + c)[k] == (b + d)[k]; }
    }
    if c == multiset{} {
      assert a == a + c;
    }
    if d == multiset{} {
      assert b == b + d;
    }
  }

  /** What each single-worker step does to the history, in terms of the task that moves. */
  lemma StepHistory(s: Pool, a: Action)
    requires Enabled(s, a) && (WorkerStep(a) || a.Spurious?)
    ensures Moves(s, Apply(s, a), a)
  {
    if a.Finish? { FinishHistory(s, a.w); } else if a.Section? { SectionHistory(s, a.w); } else { OtherHistory(s, a); }
    hide *;
  }

  /** The task that moves in a step of worker `a.w`: finished, or taken, or none. */
  ghost predicate Moves(s: Pool, t: Pool, a: Action)
    requires WorkerStep(a) || a.Spurious?
  {
    && |s.workers| == |t.workers| && a.w < |s.workers|
    && var before, after := s.workers[a.w], t.workers[a.w];
      && t.workers == s.workers[a.w := after]
      && (if a.Finish? then
            before.Running? && t.started == s.started && t.finished == s.finished + [before.task]
            && Carried(before) == multiset{before.task} && Carried(after) == multiset{}
          else if after.Running? then
            t.started == s.started + [after.task] && t.finished == s.finished
            && Carried(after) == multiset{after.task} && Carried(before) == multiset{}
          else t.started == s.started && t.finished == s.finished && Carried(before) == Carried(after))
  }

  lemma FinishHistory(s: Pool, w: nat)
    requires Enabled(s, Finish(w))
    ensures Moves(s, Apply(s, Finish(w)), Finish(w))
  {
  }

  lemma SectionHistory(s: Pool, w: nat)
    requires Enabled(s, Section(w))
    ensures Moves(s, Apply(s, Section(w)), Section(w))
  {
  }

  lemma OtherHistory(s: Pool, a: Action)
    requires Enabled(s, a) && (a.Retire? || a.Spurious?)
    ensures Moves(s, Apply(s, a), a)
  {
  }

  lemma Regroup(a: multiset<nat>, b: multiset<nat>, c: multiset<nat>)
    ensures a + (b + c) == (a + c) + b && (a + b) + c == a + (b + c)
  {
  }

  lemma StepRunsOnce(s: Pool, a: Action)
    requires RunOnce(s) && Enabled(s, a) && (WorkerStep(a) || a.Spurious?)
    ensures RunOnce(Apply(s, a))
  {
    StepHistory(s, a);
    hide Apply, InFlight, Carried, Enabled;
    var t := Apply(s, a);
    var before, after := s.workers[a.w], t.workers[a.w];
    InFlightMoves(s.workers, a.w, after);
    if a.Finish? {
      Extend(s.finished, before.task);
      Regroup(multiset(s.finished), InFlight(t.workers), multiset{before.task});
      calc {
        multiset(t.started);
        multiset(s.finished) + (InFlight(t.workers) + multiset{before.task});
        (multiset(s.finished) + multiset{before.task}) + InFlight(t.workers);
        multiset(t.finished) + InFlight(t.workers);
      }
    } else if after.Running? {
      Extend(s.started, after.task);
      Regroup(multiset(s.finished), InFlight(s.workers), multiset{after.task});
      calc {
        multiset(t.started);
        (multiset(s.finished) + InFlight(s.workers)) + multiset{after.task};
        multiset(s.finished) + (InFlight(s.workers) + multiset{after.task});
        multiset(t.finished) + InFlight(t.workers);
      }
    }
  }

  lemma StepInOrder(s: Pool, a: Action)
    requires Inv(s) && Enabled(s, a)
    ensures InOrder(Apply(s, a))
  {
    hide InFlight, NoLostWakeup, RunOnce, Count, Wake;
    if a.Drain? {
      var w :| 0 <= w < |s.workers|;
    }
    assert Iota(s.submitted + 1) == Iota(s.submitted) + [s.submitted];
  }

  lemma StepExits(s: Pool, a: Action)
    requires Inv(s) && Enabled(s, a)
    ensures ExitsJoined(Apply(s, a))
  {
    hide InFlight, NoLostWakeup, RunOnce, Count, InOrder;
  }

  lemma SubmitCounts(s: Pool, woken: set<nat>)
    requires Inv(s) && Enabled(s, Submit(woken))
    ensures Apply(s, Submit(woken)).active == Count(Apply(s, Submit(woken)).workers, Busy)
    ensures NoLostWakeup(Apply(s, Submit(woken)))
  {
    WakeInv(s, woken);
    hide InOrder, RunOnce, InFlight, Count, Wake;
  }

  lemma ShutdownCounts(s: Pool)
    requires Inv(s) && Enabled(s, Shutdown)
    ensures Apply(s, Shutdown).active == Count(Apply(s, Shutdown).workers, Busy)
    ensures NoLostWakeup(Apply(s, Shutdown))
  {
    WakeInv(s, Sleepers(s.workers));
    hide InOrder, RunOnce, InFlight, Count, Wake;
  }

  lemma WorkerCounts(s: Pool, a: Action)
    requires Inv(s) && Enabled(s, a) && (WorkerStep(a) || a.Spurious?)
    ensures Apply(s, a).active == Count(Apply(s, a).workers, Busy)
    ensures NoLostWakeup(Apply(s, a))
  {
    var t := Apply(s, a);
    CountUpdate(s.workers, a.w, t.workers[a.w], Busy);
    CountUpdate(s.workers, a.w, t.workers[a.w], Waking);
    hide InFlight, RunOnce, Count, InOrder;
  }

  lemma StepCounts(s: Pool, a: Action)
    requires Inv(s) && Enabled(s, a)
    ensures Apply(s, a).active == Count(Apply(s, a).workers, Busy)
    ensures NoLostWakeup(Apply(s, a))
  {
    hide InFlight, RunOnce, Count, InOrder, ExitsJoined;
    match a
    case Submit(woken) => SubmitCounts(s, woken);
    case Shutdown => ShutdownCounts(s);
    case Join =>
    case Drain =>
    case _ => WorkerCounts(s, a);
  }

  lemma WakeRunsOnce(s: Pool, woken: set<nat>, t: Pool)
    requires RunOnce(s) && woken <= Sleepers(s.workers)
    requires t.workers == Wake(s.workers, woken) && t.started == s.started && t.finished == s.finished
    ensures RunOnce(t)
  {
    WakeInv(s, woken);
    hide InFlight, Wake, Sleepers, Count;
  }

  /** The steps of submitter and destroyer move no worker but by waking it, and no task into or out of a worker. */
  lemma OthersRunOnce(s: Pool, a: Action)
    requires RunOnce(s) && Enabled(s, a) && (a.Submit? || a.Shutdown? || a.Join? || a.Drain?)
    ensures RunOnce(Apply(s, a))
  {
    hide InFlight, Wake, Sleepers;
    match a
    case Submit(woken) => WakeRunsOnce(s, woken, Apply(s, a));
    case Shutdown => WakeRunsOnce(s, Sleepers(s.workers), Apply(s, a));
    case Join =>
    case Drain =>
  }

  lemma WorkersStay(s: Pool, a: Action)
    requires Enabled(s, a)
    ensures |Apply(s, a).workers| == |s.workers|
  {
    hide Wake, Sleepers;
  }

  lemma StepInv(s: Pool, a: Action)
    requires Inv(s) && Enabled(s, a)
    ensures Inv(Apply(s, a))
  {
    StepCounts(s, a);
    StepInOrder(s, a);
    StepExits(s, a);
    WorkersStay(s, a);
    hide InFlight, NoLostWakeup, InOrder, ExitsJoined, Count, RunOnce, Apply, Enabled;
    if WorkerStep(a) || a.Spurious? {
      StepRunsOnce(s, a);
    } else {
      OthersRunOnce(s, a);
    }
  }

  // --- Every reachable state ---

  lemma {:induction false} RunInv(s: Pool, actions: seq<Action>, t: Pool)
    requires Inv(s) && Run(s, actions, t)
    ensures Inv(t)
    decreases |actions|
  {
    hide Inv, Apply, Enabled;
    if actions != [] {
      StepInv(s, actions[0]);
      RunInv(Apply(s, actions[0]), actions[1..], t);
    }
  }

  lemma ReachableInv(t: Pool)
    requires Reachable(t)
    ensures Inv(t)
  {
    var n, actions :| Run(Init(n), actions, t);
    InitInv(n);
    RunInv(Init(n), actions, t);
  }

  lemma {:induction false} IotaOnce(n: nat, k: nat)
    ensures multiset(Iota(n))[k] == if k < n then 1 else 0
    decreases n
  {
    if n > 0 {
      assert Iota(n) == Iota(n - 1) + [n - 1];
      IotaOnce(n - 1, k);
    }
  }

  /** First in, first out, and nothing lost or run twice: tasks start in submission order, each at most once. */
  lemma TasksConserved(t: Pool)
    requires Reachable(t)
    ensures t.started + t.queue + t.discarded == Iota(t.submitted)
    ensures multiset(t.finished) + InFlight(t.workers) + multiset(t.queue) + multiset(t.discarded)
      == multiset(Iota(t.submitted))
    ensures forall k: nat ::
      multiset(t.finished)[k] + InFlight(t.workers)[k] + multiset(t.queue)[k] + multiset(t.discarded)[k]
                     == if k < t.submitted then 1 else 0
    ensures t.active == Count(t.workers, Busy)
  {
    ReachableInv(t);
    assert multiset(t.started + t.queue + t.discarded)
      == multiset(t.started) + multiset(t.queue) + multiset(t.discarded);
    var f, r, q, d := multiset(t.finished), InFlight(t.workers), multiset(t.queue), multiset(t.discarded);
    forall k: nat ensures f[k] + r[k] + q[k] + d[k] == if k < t.submitted then 1 else 0 {
      IotaOnce(t.submitted, k);
      assert (f + r + q + d)[k] == multiset(Iota(t.submitted))[k];
    }
  }

  /** A queued task never coexists with all workers asleep, and nobody sleeps once the pool is shut down. */
  lemma NoTaskLeftAsleep(t: Pool)
    requires Reachable(t)
    ensures t.shutdown ==> forall w | 0 <= w < |t.workers| :: !t.workers[w].Asleep?
    ensures (forall w | 0 <= w < |t.workers| :: t.workers[w].Asleep?) ==> t.queue == []
    ensures (exists w | 0 <= w < |t.workers| :: t.workers[w].Asleep?) ==> |t.queue| <= Count(t.workers, Waking)
  {
    ReachableInv(t);
    CountNone(t.workers, Waking);
    if w :| 0 <= w < |t.workers| && t.workers[w].Asleep? {
      assert w in Sleepers(t.workers);
    }
    assert t.workers[0].Asleep? ==> 0 in Sleepers(t.workers);
  }

  /** What `thread_pool_wait` knows when it sees an empty queue and no active worker. */
  lemma WaitMeansFinished(t: Pool)
    requires Reachable(t)
    requires t.queue == [] && t.active == 0
    ensures forall k: nat :: multiset(t.finished)[k] + multiset(t.discarded)[k] == if k < t.submitted then 1 else 0
    ensures !t.destroyer.Drained? ==> t.discarded == [] && multiset(t.finished) == multiset(Iota(t.submitted))
  {
    ReachableInv(t);
    TasksConserved(t);
    CountNone(t.workers, Busy);
    assert forall w | 0 <= w < |t.workers| :: !Busy(t.workers[w]);
    InFlightNone(t.workers);
  }

  /** After `thread_pool_destroy`: every worker left, and every task was run to its end or freed unrun, exactly once. */
  lemma DestroyAccountsForAll(t: Pool)
    requires Reachable(t) && t.destroyer.Drained?
    ensures forall w | 0 <= w < |t.workers| :: t.workers[w].Exited?
    ensures t.started + t.discarded == Iota(t.submitted)
    ensures multiset(t.finished) == multiset(t.started)
    ensures forall k: nat :: multiset(t.finished)[k] + multiset(t.discarded)[k] == if k < t.submitted then 1 else 0
  {
    ReachableInv(t);
    TasksConserved(t);
    InFlightNone(t.workers);
    assert t.started + [] + t.discarded == t.started + t.discarded;
  }

  /** Once the flag is set no worker takes a task any more, and the flag stays set. */
  lemma {:induction false} NoStartAfterShutdown(s: Pool, actions: seq<Action>, t: Pool)
    requires s.shutdown && Run(s, actions, t)
    ensures t.started == s.started && t.shutdown
    decreases |actions|
  {
    if actions != [] {
      NoStartAfterShutdown(Apply(s, actions[0]), actions[1..], t);
    }
  }

  // --- Progress ---

  function Weight(w: Worker): nat {
    match w
    case AtLock => 1
    case Asleep => 0
    case Awakened => 1
    case Running(_) => 3
    case Retiring(_) => 2
    case Exited => 0
  }

  function Weights(workers: seq<Worker>): nat {
    if workers == [] then 0 else Weight(workers[0]) + Weights(workers[1..])
  }

  function Measure(s: Pool): nat {
    3 * |s.queue| + Weights(s.workers)
  }

  lemma {:induction false} WeightsUpdate(workers: seq<Worker>, w: nat, x: Worker)
    requires w < |workers|
    ensures Weights(workers[w := x]) + Weight(workers[w]) == Weights(workers) + Weight(x)
    decreases w
  {
    hide Weight;
    if w > 0 {
      assert workers[w := x][1..] == workers[1..][w - 1 := x];
      WeightsUpdate(workers[1..], w - 1, x);
    } else {
      assert workers[w := x][1..] == workers[1..];
    }
  }

  /** Left to themselves the workers take at most `Measure` steps: three for every queued task and what is under way. */
  lemma {:induction false} WorkersComeToRest(s: Pool, actions: seq<Action>, t: Pool)
    requires Run(s, actions, t)
    requires forall i | 0 <= i < |actions| :: WorkerStep(actions[i])
    ensures |actions| + Measure(t) <= Measure(s)
    decreases |actions|
  {
    if actions != [] {
      var a := actions[0];
      var u := Apply(s, a);
      assert WorkerStep(a);
      WeightsUpdate(s.workers, a.w, u.workers[a.w]);
      WorkersComeToRest(u, actions[1..], t);
    }
  }

  /** Where the workers come to rest: with every submitted task finished, or, after shutdown, with all of them gone. */
  lemma RestMeansDone(t: Pool)
    requires Reachable(t)
    requires forall a: Action | WorkerStep(a) :: !Enabled(t, a)
    ensures !t.shutdown ==>
      && (forall w | 0 <= w < |t.workers| :: t.workers[w].Asleep?)
      && t.queue == []
      && multiset(t.finished) == multiset(Iota(t.submitted))
    ensures t.shutdown ==> forall w | 0 <= w < |t.workers| :: t.workers[w].Exited?
  {
    ReachableInv(t);
    NoTaskLeftAsleep(t);
    forall w | 0 <= w < |t.workers| ensures t.workers[w].Asleep? || t.workers[w].Exited? {
      assert !Enabled(t, Section(w)) && !Enabled(t, Finish(w)) && !Enabled(t, Retire(w));
    }
    if !t.shutdown {
      CountNone(t.workers, Busy);
      WaitMeansFinished(t);
    }
  }
}

/** The pool's memory: the linked task queue with head and tail pointers, and the counters beside it. */
module ThreadPool {
  import opened PoolModel

  /** A queued call; the function pointer is never null here and `arg` stands for its argument. */
  class TaskNode {
    const arg: int
    ghost const task: nat           // position of its submission
    var next: TaskNode?

    constructor (arg: int, ghost task: nat)
      ensures this.arg == arg && this.task == task && next == null
    {
      this.arg, this.task, next := arg, task, null;
    }
  }

  ghost function Tasks(nodes: seq<TaskNode>): (s: seq<nat>)
    ensures |s| == |nodes|
    ensures forall i | 0 <= i < |nodes| :: s[i] == nodes[i].task
  {
    seq(|nodes|, i requires 0 <= i < |nodes| => nodes[i].task)
  }

  /** No node comes twice. */
  ghost predicate Distinct(nodes: seq<TaskNode>) {
    forall i, j | 0 <= i < j < |nodes| :: nodes[i] != nodes[j]
  }

  lemma DistinctSnoc(nodes: seq<TaskNode>, task: TaskNode)
    requires Distinct(nodes) && task !in nodes
    ensures Distinct(nodes + [task])
    ensures forall i | 0 <= i < |nodes| - 1 :: nodes[i] != nodes[|nodes| - 1]
  {
  }

  lemma DistinctTail(nodes: seq<TaskNode>)
    requires Distinct(nodes) && nodes != []
    ensures Distinct(nodes[1..])
  {
  }

  lemma EmptyTasks(nodes: seq<TaskNode>)
    ensures nodes == [] <==> Tasks(nodes) == []
  {
  }

  lemma TasksSnoc(nodes: seq<TaskNode>, task: TaskNode)
    ensures Tasks(nodes + [task]) == Tasks(nodes) + [task.task]
  {
  }

  /** What a submission does to the fields of the model. */
  lemma SubmitIs(s: Pool, woken: set<nat>)
    requires Enabled(s, Action.Submit(woken))
    ensures var t := Apply(s, Action.Submit(woken));
      && t.queue == s.queue + [s.submitted] && t.active == s.active && t.shutdown == s.shutdown
      && !s.destroyer.Drained? && !t.destroyer.Drained?
  {
  }

  /** The first task went from the queue to the worker. */
  ghost predicate Taken(before: seq<nat>, after: seq<nat>, worker: Worker) {
    before != [] && after == before[1..] && worker == Running(before[0])
  }

  lemma TakenIs(before: seq<nat>, after: seq<nat>, worker: Worker, nodes: seq<TaskNode>,
                node: TaskNode, rest: seq<TaskNode>)
    requires Taken(before, after, worker) && before == Tasks(nodes) && nodes == [node] + rest
    ensures worker == Running(node.task) && after == Tasks(rest) && |rest| == |nodes| - 1
  {
  }

  /** What a locked section does to the fields of the model, in the order in which the code looks. */
  lemma SectionIs(s: Pool, w: nat)
    requires Inv(s) && Enabled(s, Section(w))
    ensures var t := Apply(s, Section(w));
      && w < |t.workers| && t.shutdown == s.shutdown && t.destroyer == s.destroyer && !s.destroyer.Drained?
      && (if s.queue == [] && !s.shutdown then t.queue == s.queue && t.active == s.active && t.workers[w].Asleep?
          else if s.shutdown then t.queue == s.queue && t.active == s.active && t.workers[w].Exited?
          else Taken(s.queue, t.queue, t.workers[w]) && t.active == s.active + 1)
  {
  }

  class ThreadPool {
    var taskQueue: TaskNode?
    var taskQueueEnd: TaskNode?
    var taskCount: int
    var active: int
    var shutdown: bool
    ghost var nodes: seq<TaskNode>  // the nodes reachable from taskQueue, in order
    ghost var model: Pool           // the abstract state: program counters and history besides the fields

    ghost predicate Linked()
      reads `taskQueue, `nodes, nodes
    {
      && (taskQueue == if nodes == [] then null else nodes[0])
      && Distinct(nodes)
      && (forall i {:trigger nodes[i]} | 0 <= i < |nodes| ::
            nodes[i].next == if i + 1 < |nodes| then nodes[i + 1] else null)
    }

    /** The tail pointer, until the destroyer drains: null exactly when the list is empty, else the last node. */
    ghost predicate TailRight()
      reads `taskQueueEnd, `nodes
    {
      taskQueueEnd == if nodes == [] then null else nodes[|nodes| - 1]
    }

    ghost predicate Valid()
      reads this, nodes
    {
      && Linked()
      && taskCount == |nodes|
      && active == model.active && shutdown == model.shutdown && Tasks(nodes) == model.queue
      && (if model.destroyer.Drained? then (taskQueueEnd == null <==> model.discarded == []) else TailRight())
    }

    /** The parts of `Valid`, to take apart and put together again. */
    lemma ValidIs()
      ensures Valid() <==>
        && Linked() && taskCount == |nodes|
        && active == model.active && shutdown == model.shutdown && Tasks(nodes) == model.queue
        && (if model.destroyer.Drained? then (taskQueueEnd == null <==> model.discarded == []) else TailRight())
    {
    }

    /** `thread_pool_create`, when every allocation and every pthread_create succeeds. */
    constructor (threadCount: int)
      ensures Valid() && model == Init(threadCount)
    {
      taskQueue, taskQueueEnd, taskCount, active, shutdown := null, null, 0, 0, false;
      nodes, model := [], Init(threadCount);
    }

    /** `thread_pool_submit`; `memory` says whether calloc succeeds, `woken` which sleepers the signal releases. */
    method Submit(hasFunc: bool, arg: int, memory: bool, ghost woken: set<nat>) returns (ret: int)
      requires Valid() && Enabled(model, Action.Submit(woken))
      modifies this, nodes
      ensures Valid()
      ensures ret == 0 <==> hasFunc && memory
      ensures ret == 0 ==> model == Apply(old(model), Action.Submit(woken))
      ensures ret == 0 ==> |nodes| == |old(nodes)| + 1 && nodes[..|old(nodes)|] == old(nodes)
      ensures ret == 0 ==> nodes[|old(nodes)|].arg == arg && fresh(nodes[|old(nodes)|])
      ensures ret != 0 ==> ret == -1 && model == old(model) && nodes == old(nodes)
    {
      if !hasFunc { return -1; }
      if !memory { return -1; }
      ValidIs();
      SubmitIs(model, woken);
      hide *;
      var task := new TaskNode(arg, model.submitted);
      Append(task);
      taskCount := taskCount + 1;
      model := Apply(model, Action.Submit(woken));
      ValidIs();
      return 0;
    }

    /** The new node becomes the last one. */
    method Append(task: TaskNode)
      requires Linked() && TailRight() && task !in nodes && task.next == null
      modifies this`taskQueue, this`taskQueueEnd, this`nodes, nodes`next
      ensures Linked() && TailRight() && nodes == old(nodes) + [task] && Tasks(nodes) == Tasks(old(nodes)) + [task.task]
    {
      hide Distinct, Tasks;
      DistinctSnoc(nodes, task);
      TasksSnoc(nodes, task);
      if taskQueueEnd == null {
        taskQueue := task;
        taskQueueEnd := task;
      } else {
        taskQueueEnd.next := task;
        taskQueueEnd := task;
      }
      nodes := nodes + [task];
    }

    /** The locked section of `worker_thread`: the node to execute, or null to wait or to leave. */
    method WorkerSection(ghost w: nat) returns (task: TaskNode?, leave: bool)
      requires Valid() && Inv(model) && Enabled(model, Section(w))
      modifies this
      ensures Valid() && model == Apply(old(model), Section(w))
      ensures leave <==> model.workers[w].Exited?
      ensures task != null <==> model.workers[w].Running?
      ensures task != null ==> old(nodes) == [task] + nodes && model.workers[w] == Running(task.task)
      ensures task == null ==> nodes == old(nodes)
    {
      SectionIs(model, w);
      EmptyTasks(nodes);
      hide *;
      ValidIs();
      if taskCount == 0 && !shutdown {
        TakeNothing(w);
        return null, false;
      }
      if shutdown {
        TakeNothing(w);
        return null, true;
      }
      task := TakeTask(w);
      leave := false;
    }

    /** Waiting and leaving touch no field. */
    ghost method TakeNothing(w: nat)
      requires Valid() && Inv(model) && Enabled(model, Section(w)) && (shutdown || taskCount == 0)
      modifies this`model
      ensures Valid() && model == Apply(old(model), Section(w))
    {
      ValidIs();
      SectionIs(model, w);
      EmptyTasks(nodes);
      hide *;
      model := Apply(model, Section(w));
      ValidIs();
    }

    method TakeTask(ghost w: nat) returns (task: TaskNode)
      requires Valid() && Inv(model) && Enabled(model, Section(w)) && !shutdown && taskCount > 0
      modifies this
      ensures Valid() && model == Apply(old(model), Section(w)) && w < |model.workers|
      ensures old(nodes) == [task] + nodes && model.workers[w] == Running(task.task)
    {
      ValidIs();
      SectionIs(model, w);
      EmptyTasks(nodes);
      hide *;
      ghost var after, all := Apply(model, Section(w)), nodes;
      task := TakeHead();
      TakenIs(model.queue, after.queue, after.workers[w], all, task, nodes);
      taskCount := taskCount - 1;
      active := active + 1;
      model := after;
      ValidIs();
    }

    /** The head node leaves the list; the tail pointer goes when the list becomes empty. */
    method TakeHead() returns (task: TaskNode)
      requires Linked() && TailRight() && nodes != []
      modifies this`taskQueue, this`taskQueueEnd, this`nodes
      ensures Linked() && TailRight() && old(nodes) == [task] + nodes
    {
      hide Distinct;
      DistinctTail(nodes);
      task := taskQueue;
      taskQueue := task.next;
      if taskQueue == null {
        taskQueueEnd := null;
      }
      nodes := nodes[1..];
    }

    /** The function returned: no field of the pool changes. */
    ghost method TaskReturns(w: nat)
      requires Valid() && Enabled(model, Finish(w))
      modifies this`model
      ensures Valid() && model == Apply(old(model), Finish(w))
    {
      model := Apply(model, Finish(w));
    }

    method RetireTask(ghost w: nat)
      requires Valid() && Enabled(model, Retire(w))
      modifies this`active, this`model
      ensures Valid() && model == Apply(old(model), Retire(w))
    {
      active := active - 1;
      model := Apply(model, Retire(w));
    }

    /** The first half of `thread_pool_destroy`: set the flag and broadcast. */
    method SetShutdown()
      requires Valid() && Enabled(model, Shutdown)
      modifies this`shutdown, this`model
      ensures Valid() && model == Apply(old(model), Shutdown)
    {
      shutdown := true;
      model := Apply(model, Shutdown);
    }

    /**
     The second half of `thread_pool_destroy`, after the joins: frees what is queued. The tail pointer is left
     behind, so it dangles exactly when something was freed.
     */
    method DrainQueue()
      requires Valid() && Enabled(model, Drain)
      modifies this
      ensures Valid() && model == Apply(old(model), Drain)
      ensures nodes == [] && taskQueue == null && taskCount == 0
      ensures taskQueueEnd == old(taskQueueEnd)
      ensures taskQueueEnd != null <==> model.discarded != []
    {
      ghost var drained := Apply(model, Drain);
      assert old(nodes) == [] <==> model.queue == [];
      hide Apply, Enabled, Tasks, Distinct;
      while taskCount > 0
        invariant Linked()
        invariant taskCount == |nodes|
        invariant taskQueueEnd == old(taskQueueEnd) && active == old(active) && shutdown == old(shutdown)
      {
        DistinctTail(nodes);
        taskQueue := taskQueue.next;
        taskCount := taskCount - 1;
        nodes := nodes[1..];
      }
      model := drained;
    }

    /** One look of `thread_pool_wait`: whether it may return. */
    method Quiet() returns (quiet: bool)
      requires Valid()
      ensures quiet <==> model.queue == [] && model.active == 0
    {
      var pending := taskCount;
      var running := active;
      quiet := pending == 0 && running == 0;
    }
  }
}
