/**
 The thread pool of thread_pool/demo_threadpool.{h,cpp} as a system of atomic
 steps over any number of workers, submitters and `wait_for_all_done` callers.
 A step is one critical section of `_pool_mutex`, one access to `running_count`
 or one read of `_terminate`. Workers and waiters sleep on the same condition
 variable, so `exec`'s `notify_one` may wake either kind.

 Every task body terminates and calls neither `wait_for_all_done` nor `stop`, and
 one thread at a time calls `stop`.
 */
module ThreadPool {
  import opened Sums

  /** A task is its submission number and its expiry time; 0 is no expiry. */
  datatype Task = Task(id: nat, expire: int)

  datatype Worker =
    | Looping             // about to read `_terminate`
    | Getting             // about to lock in `get`
    | Asleep              // in `wait`, not notified
    | Woken               // notified, must lock and test again
    | Got(task: Task)     // `get` returned true
    | Running(task: Task) // after `++running_count`
    | Ran                 // task run or expired, before `--running_count`
    | Ending              // before the end-of-task check
    | Exited

  datatype Waiter =
    | Entering(timed: bool)
    | Sleeping(timed: bool)
    | Roused(timed: bool)
    | Returned(result: bool)

  datatype Stopper = Outside | Joining

  datatype Outcome = Outcome(task: Task, expired: bool)

  datatype State = State(
    poolSize: nat,
    tasks: seq<Task>,
    workers: seq<Worker>,
    terminate: bool,
    runningCount: int,
    waiters: seq<Waiter>,
    stopper: Stopper,
    submitted: seq<Task>,    // history: every task pushed
    dequeued: seq<Task>,     // history: every task popped
    finished: seq<Outcome>)  // history: every task run or expired

  /** Whom `notify_one` wakes. */
  datatype Pick = Nobody | PickWorker(i: nat) | PickWaiter(j: nat)

  datatype Action =
    | Initial(num: nat)
    | Start
    | Exec(timeout: int, now: int, pick: Pick)
    | ReadTerminate(i: nat)
    | Get(i: nat)
    | Increment(i: nat)
    | RunTask(i: nat, now: int)
    | Decrement(i: nat)
    | EndCheck(i: nat)
    | WaitCall(timed: bool)
    | WaitCheck(j: nat, timedOut: bool)
    | StopBegin
    | StopEnd
    | RouseWorker(i: nat)  // spurious wakeup
    | RouseWaiter(j: nat)  // spurious wakeup or timeout

  const Fresh := State(1, [], [], false, 0, [], Outside, [], [], [])

  predicate SomeoneAsleep(s: State) {
    || (exists i :: 0 <= i < |s.workers| && s.workers[i].Asleep?)
    || (exists j :: 0 <= j < |s.waiters| && s.waiters[j].Sleeping?)
  }

  predicate Picks(s: State, pick: Pick) {
    match pick
    case Nobody => !SomeoneAsleep(s)
    case PickWorker(i) => i < |s.workers| && s.workers[i].Asleep?
    case PickWaiter(j) => j < |s.waiters| && s.waiters[j].Sleeping?
  }

  predicate At(s: State, i: nat) { i < |s.workers| }

  predicate Enabled(s: State, a: Action) {
    match a
    case Initial(_) => true
    case Start => true
    case Exec(_, _, pick) => Picks(s, pick)
    case ReadTerminate(i) => At(s, i) && s.workers[i].Looping?
    case Get(i) => At(s, i) && (s.workers[i].Getting? || s.workers[i].Woken?)
    case Increment(i) => At(s, i) && s.workers[i].Got?
    case RunTask(i, _) => At(s, i) && s.workers[i].Running?
    case Decrement(i) => At(s, i) && s.workers[i].Ran?
    case EndCheck(i) => At(s, i) && s.workers[i].Ending?
    case WaitCall(_) => true
    case WaitCheck(j, timedOut) =>
      && j < |s.waiters|
      && (s.waiters[j].Entering? || s.waiters[j].Roused?)
      && (timedOut ==> s.waiters[j].Roused? && s.waiters[j].timed)
    case StopBegin => s.stopper == Outside
    case StopEnd => s.stopper == Joining && forall i :: 0 <= i < |s.workers| ==> s.workers[i].Exited?
    case RouseWorker(i) => At(s, i) && s.workers[i].Asleep?
    case RouseWaiter(j) => j < |s.waiters| && s.waiters[j].Sleeping?
  }

  function Wake(w: Worker): Worker { if w.Asleep? then Woken else w }
  function Rouse(w: Waiter): Waiter { if w.Sleeping? then Roused(w.timed) else w }

  function NotifyAll(s: State): (t: State)
    ensures !SomeoneAsleep(t)
  {
    s.(workers := seq(|s.workers|, i requires 0 <= i < |s.workers| => Wake(s.workers[i])),
       waiters := seq(|s.waiters|, j requires 0 <= j < |s.waiters| => Rouse(s.waiters[j])))
  }

  function NotifyOne(s: State, pick: Pick): State
    requires Picks(s, pick)
  {
    match pick
    case Nobody => s
    case PickWorker(i) => s.(workers := s.workers[i := Woken])
    case PickWaiter(j) => s.(waiters := s.waiters[j := Roused(s.waiters[j].timed)])
  }

  function Move(s: State, i: nat, w: Worker): State
    requires At(s, i)
  {
    s.(workers := s.workers[i := w])
  }

  /** `exec` turns a timeout into an absolute time, keeping 0 for none. */
  function Expiry(timeout: int, now: int): int { if timeout == 0 then 0 else now + timeout }

  predicate Expired(t: Task, now: int) { t.expire != 0 && t.expire < now }

  function Apply(s: State, a: Action): State
    requires Enabled(s, a)
  {
    match a
    case Initial(num) => if s.workers == [] then s.(poolSize := num) else s
    case Start =>
      if s.workers == [] then s.(workers := seq(s.poolSize, i => Looping)) else s
    case Exec(timeout, now, pick) =>
      var t := Task(|s.submitted|, Expiry(timeout, now));
      NotifyOne(s, pick).(tasks := s.tasks + [t], submitted := s.submitted + [t])
    case ReadTerminate(i) => Move(s, i, if s.terminate then Exited else Getting)
    case Get(i) =>
      if s.terminate then Move(s, i, Looping)
      else if s.tasks == [] then Move(s, i, Asleep)
      else Move(s, i, Got(s.tasks[0])).(tasks := s.tasks[1..], dequeued := s.dequeued + [s.tasks[0]])
    case Increment(i) => Move(s, i, Running(s.workers[i].task)).(runningCount := s.runningCount + 1)
    case RunTask(i, now) =>
      var t := s.workers[i].task;
      Move(s, i, Ran).(finished := s.finished + [Outcome(t, Expired(t, now))])
    case Decrement(i) => Move(s, i, Ending).(runningCount := s.runningCount - 1)
    case EndCheck(i) =>
      var t := Move(s, i, Looping);
      if s.runningCount == 0 && s.tasks == [] then NotifyAll(t) else t
    case WaitCall(timed) => s.(waiters := s.waiters + [Entering(timed)])
    case WaitCheck(j, timedOut) =>
      var w := if s.tasks == [] then Returned(true)
               else if timedOut then Returned(false)
               else Sleeping(s.waiters[j].timed);
      s.(waiters := s.waiters[j := w])
    case StopBegin => NotifyAll(s).(terminate := true, stopper := Joining)
    case StopEnd => s.(workers := [], stopper := Outside)
    case RouseWorker(i) => Move(s, i, Woken)
    case RouseWaiter(j) => s.(waiters := s.waiters[j := Roused(s.waiters[j].timed)])
  }

  predicate Legal(s: State, acts: seq<Action>)
    decreases |acts|
  {
    acts == [] || (Enabled(s, acts[0]) && Legal(Apply(s, acts[0]), acts[1..]))
  }

  function Run(s: State, acts: seq<Action>): State
    requires Legal(s, acts)
    decreases |acts|
  {
    if acts == [] then s else Run(Apply(s, acts[0]), acts[1..])
  }

  // ---------------------------------------------------------------- invariants

  predicate Holding(w: Worker) { w.Got? || w.Running? || w.Ran? || w.Ending? }

  /** Between `++running_count` and `--running_count`. */
  function Counted(w: Worker): nat { if w.Running? || w.Ran? then 1 else 0 }

  predicate HasTask(w: Worker) { w.Got? || w.Running? }

  function Carried(w: Worker): nat { if HasTask(w) then 1 else 0 }

  /** Has this worker task number `k` still to run? */
  function Holds(k: nat): Worker -> nat {
    (w: Worker) => if HasTask(w) && w.task.id == k then 1 else 0
  }

  function Finishes(k: nat): Outcome -> nat {
    (o: Outcome) => if o.task.id == k then 1 else 0
  }

  predicate SomeWaiterSleeps(s: State) { exists j :: 0 <= j < |s.waiters| && s.waiters[j].Sleeping? }
  predicate SomeWorkerHolds(s: State) { exists i :: 0 <= i < |s.workers| && Holding(s.workers[i]) }
  predicate SomeWorkerUp(s: State) { exists i :: 0 <= i < |s.workers| && !s.workers[i].Asleep? }

  /** A pending task finds a worker that is not asleep. */
  predicate NoLostWork(s: State) {
    !s.terminate && s.workers != [] && s.tasks != [] ==> SomeWorkerUp(s)
  }

  /** A sleeping waiter is owed a notification by a pending task or a worker that holds one. */
  predicate NoStrandedWaiter(s: State) {
    SomeWaiterSleeps(s) ==> s.tasks != [] || SomeWorkerHolds(s)
  }

  /** `running_count` is the number of workers in between, and nothing dequeued is lost. */
  predicate Counts(s: State) {
    && s.runningCount == Sum(s.workers, Counted)
    && |s.dequeued| == |s.finished| + Sum(s.workers, Carried)
  }

  /** Tasks leave in submission order, and keep the number and expiry they were submitted with. */
  predicate Fifo(s: State) {
    && s.submitted == s.dequeued + s.tasks
    && (forall k :: 0 <= k < |s.submitted| ==> s.submitted[k].id == k)
    && (forall i :: 0 <= i < |s.workers| && HasTask(s.workers[i]) ==> s.workers[i].task in s.dequeued)
    && (forall k :: 0 <= k < |s.finished| ==> s.finished[k].task in s.dequeued)
  }

  /** Each dequeued task is held by one worker or finished once; no other task is either. */
  ghost predicate ExactlyOnce(s: State) {
    forall k: nat :: Sum(s.workers, Holds(k)) + Sum(s.finished, Finishes(k)) == if k < |s.dequeued| then 1 else 0
  }

  predicate StopState(s: State) {
    && (s.terminate ==> forall i :: 0 <= i < |s.workers| ==> !s.workers[i].Asleep?)
    && (!s.terminate ==> forall i :: 0 <= i < |s.workers| ==> !s.workers[i].Exited?)
    && (s.stopper == Joining ==> s.terminate)
  }

  /** A task submitted without a timeout never expires. */
  predicate NeverExpiresEarly(s: State) {
    forall k :: 0 <= k < |s.finished| && s.finished[k].expired ==> s.finished[k].task.expire != 0
  }

  ghost predicate Inv(s: State) {
    && NoLostWork(s) && NoStrandedWaiter(s) && Counts(s)
    && Fifo(s) && ExactlyOnce(s) && NeverExpiresEarly(s) && StopState(s)
  }

  lemma MoveCounts(s: State, i: nat, w: Worker)
    requires At(s, i)
    ensures Sum(Move(s, i, w).workers, Counted) + Counted(s.workers[i]) == Sum(s.workers, Counted) + Counted(w)
    ensures Sum(Move(s, i, w).workers, Carried) + Carried(s.workers[i]) == Sum(s.workers, Carried) + Carried(w)
  {
    SumUpdate(s.workers, i, w, Counted);
    SumUpdate(s.workers, i, w, Carried);
  }

  /** A move that neither picks up nor finishes a task keeps every task's place. */
  lemma MoveKeepsOnce(s: State, i: nat, w: Worker)
    requires ExactlyOnce(s) && At(s, i)
    requires HasTask(s.workers[i]) == HasTask(w)
    requires HasTask(w) ==> w.task == s.workers[i].task
    ensures ExactlyOnce(Move(s, i, w))
  {
    var t := Move(s, i, w);
    forall k: nat ensures Sum(t.workers, Holds(k)) + Sum(t.finished, Finishes(k)) == if k < |t.dequeued| then 1 else 0 {
      SumUpdate(s.workers, i, w, Holds(k));
    }
  }

  lemma GetKeepsOnce(s: State, i: nat)
    requires ExactlyOnce(s) && Fifo(s) && Enabled(s, Get(i)) && !s.terminate && s.tasks != []
    ensures ExactlyOnce(Apply(s, Get(i)))
  {
    var t := Apply(s, Get(i));
    assert s.tasks[0] == s.submitted[|s.dequeued|];
    forall k: nat ensures Sum(t.workers, Holds(k)) + Sum(t.finished, Finishes(k)) == if k < |t.dequeued| then 1 else 0 {
      SumUpdate(s.workers, i, Got(s.tasks[0]), Holds(k));
    }
  }

  lemma RunTaskKeepsOnce(s: State, i: nat, now: int)
    requires ExactlyOnce(s) && Enabled(s, RunTask(i, now))
    ensures ExactlyOnce(Apply(s, RunTask(i, now)))
  {
    var t := Apply(s, RunTask(i, now));
    forall k: nat ensures Sum(t.workers, Holds(k)) + Sum(t.finished, Finishes(k)) == if k < |t.dequeued| then 1 else 0 {
      SumUpdate(s.workers, i, Ran, Holds(k));
      SumAppend(s.finished, t.finished[|s.finished|], Finishes(k));
    }
  }

  lemma {:induction false} SameSums(ws: seq<Worker>, vs: seq<Worker>, f: Worker -> nat)
    requires |ws| == |vs|
    requires forall i :: 0 <= i < |ws| ==> f(ws[i]) == f(vs[i])
    ensures Sum(ws, f) == Sum(vs, f)
  {
    if ws != [] {
      SameSums(ws[1..], vs[1..], f);
    }
  }

  /** Replacing idle workers by idle workers changes no count and no task's place. */
  lemma IdleSwap(s: State, t: State)
    requires |s.workers| == |t.workers| && s.finished == t.finished && s.dequeued == t.dequeued
    requires forall i :: 0 <= i < |s.workers| ==>
      s.workers[i] == t.workers[i] || (!Holding(s.workers[i]) && !Holding(t.workers[i]))
    ensures Sum(s.workers, Counted) == Sum(t.workers, Counted)
    ensures Sum(s.workers, Carried) == Sum(t.workers, Carried)
    ensures ExactlyOnce(s) ==> ExactlyOnce(t)
  {
    SameSums(s.workers, t.workers, Counted);
    SameSums(s.workers, t.workers, Carried);
    forall k: nat ensures Sum(s.workers, Holds(k)) == Sum(t.workers, Holds(k)) {
      SameSums(s.workers, t.workers, Holds(k));
    }
  }

  /** Between two sets of workers that hold nothing nothing changes either. */
  lemma IdleCrew(s: State, t: State)
    requires s.finished == t.finished && s.dequeued == t.dequeued
    requires forall i :: 0 <= i < |s.workers| ==> !Holding(s.workers[i])
    requires forall i :: 0 <= i < |t.workers| ==> !Holding(t.workers[i])
    ensures Sum(s.workers, Counted) == Sum(t.workers, Counted) == 0
    ensures Sum(s.workers, Carried) == Sum(t.workers, Carried) == 0
    ensures ExactlyOnce(s) ==> ExactlyOnce(t)
  {
    SumZero(s.workers, Counted);
    SumZero(t.workers, Counted);
    SumZero(s.workers, Carried);
    SumZero(t.workers, Carried);
    forall k: nat ensures Sum(s.workers, Holds(k)) == Sum(t.workers, Holds(k)) {
      SumZero(s.workers, Holds(k));
      SumZero(t.workers, Holds(k));
    }
  }

  /** `exec`: an empty queue with every worker asleep has no sleeping waiter to steal the notification. */
  lemma ExecReachesWorker(s: State, pick: Pick)
    requires Inv(s) && Picks(s, pick) && !s.terminate && s.workers != []
    ensures SomeWorkerUp(NotifyOne(s, pick))
  {
    if pick.PickWorker? {
      assert !NotifyOne(s, pick).workers[pick.i].Asleep?;
    } else if s.tasks == [] && !SomeWorkerUp(s) {
      assert false;
    }
  }

  /** `exec` can always be called, and its `notify_one` may wake any sleeper, worker or waiter, but only one. */
  lemma AnySleeperMayBePicked(s: State, timeout: int, now: int, k: nat)
    ensures Enabled(s, Exec(timeout, now, Nobody)) <==>
      && (forall i :: 0 <= i < |s.workers| ==> !s.workers[i].Asleep?)
      && (forall j :: 0 <= j < |s.waiters| ==> !s.waiters[j].Sleeping?)
    ensures k < |s.workers| && s.workers[k].Asleep? ==>
      && Enabled(s, Exec(timeout, now, PickWorker(k)))
      && Apply(s, Exec(timeout, now, PickWorker(k))).workers == s.workers[k := Woken]
      && Apply(s, Exec(timeout, now, PickWorker(k))).waiters == s.waiters
    ensures k < |s.waiters| && s.waiters[k].Sleeping? ==>
      && Enabled(s, Exec(timeout, now, PickWaiter(k)))
      && Apply(s, Exec(timeout, now, PickWaiter(k))).waiters == s.waiters[k := Roused(s.waiters[k].timed)]
      && Apply(s, Exec(timeout, now, PickWaiter(k))).workers == s.workers
  {}

  lemma ExecKeeps(s: State, timeout: int, now: int, pick: Pick)
    requires Inv(s) && Enabled(s, Exec(timeout, now, pick))
    ensures Inv(Apply(s, Exec(timeout, now, pick)))
  {
    var t := Apply(s, Exec(timeout, now, pick));
    assert t.submitted == t.dequeued + t.tasks;
    IdleSwap(s, t);
    if !s.terminate && s.workers != [] {
      ExecReachesWorker(s, pick);
      assert t.workers == NotifyOne(s, pick).workers;
    }
  }

  lemma OthersHold(s: State, i: nat, t: State)
    requires At(s, i) && !Holding(s.workers[i])
    requires |t.workers| == |s.workers| && forall k :: 0 <= k < |s.workers| && k != i ==> t.workers[k] == s.workers[k]
    ensures SomeWorkerHolds(s) ==> SomeWorkerHolds(t)
  {
    if SomeWorkerHolds(s) {
      var k :| 0 <= k < |s.workers| && Holding(s.workers[k]);
      assert t.workers[k] == s.workers[k];
    }
  }

  lemma GetKeeps(s: State, i: nat)
    requires Inv(s) && Enabled(s, Get(i))
    ensures Inv(Apply(s, Get(i)))
  {
    var t := Apply(s, Get(i));
    MoveCounts(s, i, t.workers[i]);
    if !s.terminate && s.tasks != [] {
      assert t.dequeued + t.tasks == s.dequeued + s.tasks;
      assert Holding(t.workers[i]);
      GetKeepsOnce(s, i);
    } else {
      MoveKeepsOnce(s, i, t.workers[i]);
      OthersHold(s, i, t);
    }
  }

  /** The steps between a successful `get` and the end check. */
  lemma TaskStepKeeps(s: State, a: Action)
    requires Inv(s) && Enabled(s, a) && (a.Increment? || a.RunTask? || a.Decrement?)
    ensures Inv(Apply(s, a))
  {
    var t := Apply(s, a);
    MoveCounts(s, a.i, t.workers[a.i]);
    assert Holding(t.workers[a.i]);
    if a.RunTask? {
      RunTaskKeepsOnce(s, a.i, a.now);
    } else {
      MoveKeepsOnce(s, a.i, t.workers[a.i]);
      IdleSwap(Move(s, a.i, t.workers[a.i]), t);
    }
  }

  /** The end check: it leaves a waiter asleep only when another worker or task will reach its own check. */
  lemma EndCheckKeeps(s: State, i: nat)
    requires Inv(s) && Enabled(s, EndCheck(i))
    ensures Inv(Apply(s, EndCheck(i)))
  {
    var m := Move(s, i, Looping);
    MoveCounts(s, i, Looping);
    MoveKeepsOnce(s, i, Looping);
    assert m.workers[i].Looping?;
    if s.runningCount == 0 && s.tasks == [] {
      IdleSwap(m, NotifyAll(m));
    } else if s.tasks == [] {
      var k := SumWitness(m.workers, Counted);
      assert Holding(m.workers[k]);
    }
  }

  lemma IdleStepKeeps(s: State, a: Action)
    requires Inv(s) && Enabled(s, a) && (a.ReadTerminate? || a.RouseWorker?)
    ensures Inv(Apply(s, a))
  {
    var t := Apply(s, a);
    IdleSwap(s, t);
    assert !t.workers[a.i].Asleep?;
    OthersHold(s, a.i, t);
  }

  lemma StopKeeps(s: State, a: Action)
    requires Inv(s) && Enabled(s, a) && (a.StopBegin? || a.StopEnd?)
    ensures Inv(Apply(s, a))
  {
    if a.StopBegin? {
      IdleSwap(s, Apply(s, a));
    } else {
      IdleCrew(s, Apply(s, a));
    }
  }

  lemma StartKeeps(s: State)
    requires Inv(s)
    ensures Inv(Apply(s, Start))
  {
    var t := Apply(s, Start);
    if s.workers == [] {
      IdleCrew(s, t);
      if t.workers != [] {
        assert !t.workers[0].Asleep?;
      }
    }
  }

  /** The steps of `initial` and of the waiters. */
  lemma OutsideStepKeeps(s: State, a: Action)
    requires Inv(s) && Enabled(s, a) && (a.Initial? || a.WaitCall? || a.WaitCheck? || a.RouseWaiter?)
    ensures Inv(Apply(s, a))
  {
    IdleSwap(s, Apply(s, a));
  }

  lemma StepKeeps(s: State, a: Action)
    requires Inv(s) && Enabled(s, a)
    ensures Inv(Apply(s, a))
  {
    match a
    case Exec(timeout, now, pick) => ExecKeeps(s, timeout, now, pick);
    case Get(i) => GetKeeps(s, i);
    case Increment(_) => TaskStepKeeps(s, a);
    case RunTask(_, _) => TaskStepKeeps(s, a);
    case Decrement(_) => TaskStepKeeps(s, a);
    case EndCheck(i) => EndCheckKeeps(s, i);
    case ReadTerminate(_) => IdleStepKeeps(s, a);
    case RouseWorker(_) => IdleStepKeeps(s, a);
    case StopBegin => StopKeeps(s, a);
    case StopEnd => StopKeeps(s, a);
    case Start => StartKeeps(s);
    case _ => OutsideStepKeeps(s, a);
  }

  lemma {:induction false} RunKeeps(s: State, acts: seq<Action>)
    requires Inv(s) && Legal(s, acts)
    ensures Inv(Run(s, acts))
    decreases |acts|
  {
    if acts != [] {
      StepKeeps(s, acts[0]);
      RunKeeps(Apply(s, acts[0]), acts[1..]);
    }
  }

  /** All invariants hold in every state the pool can reach. */
  lemma EveryRunIsSafe(acts: seq<Action>)
    requires Legal(Fresh, acts)
    ensures Inv(Run(Fresh, acts))
  {
    RunKeeps(Fresh, acts);
  }

  /** A pending item of work in a started, running pool always has a worker that is not asleep unnotified. */
  lemma PendingWorkFindsWorker(acts: seq<Action>)
    requires Legal(Fresh, acts)
    requires var s := Run(Fresh, acts); !s.terminate && s.workers != [] && s.tasks != []
    ensures SomeWorkerUp(Run(Fresh, acts))
  {
    EveryRunIsSafe(acts);
  }

  /** A waiter asleep unnotified is always owed a notification. */
  lemma NoWaiterIsStranded(acts: seq<Action>)
    requires Legal(Fresh, acts) && SomeWaiterSleeps(Run(Fresh, acts))
    ensures var s := Run(Fresh, acts); s.tasks != [] || SomeWorkerHolds(s)
  {
    EveryRunIsSafe(acts);
  }

  // ---------------------------------------------------------------- expiry

  function Submission(a: Action): seq<Action> { if a.Exec? then [a] else [] }
  function Handling(a: Action): seq<Action> { if a.RunTask? then [a] else [] }

  /** The calls of `exec`, in order: number k is submission k. */
  function Submissions(acts: seq<Action>): seq<Action> {
    if acts == [] then [] else Submission(acts[0]) + Submissions(acts[1..])
  }

  /** The steps that run or drop a task, in order: number m is the m-th task finished. */
  function Handlings(acts: seq<Action>): seq<Action> {
    if acts == [] then [] else Handling(acts[0]) + Handlings(acts[1..])
  }

  /**
   Submitted with a timeout that had passed when the worker looked at the clock. A
   deadline of exactly 0 is taken for none.
   */
  predicate Late(submission: Action, handling: Action)
    requires submission.Exec? && handling.RunTask?
  {
    var deadline := submission.now + submission.timeout;
    submission.timeout != 0 && deadline != 0 && deadline < handling.now
  }

  /** The tasks carry the deadlines of their submissions, and exactly the late ones were dropped. */
  predicate Timely(s: State, submissions: seq<Action>, handlings: seq<Action>) {
    && |submissions| == |s.submitted| && |handlings| == |s.finished|
    && (forall k :: 0 <= k < |submissions| ==> submissions[k].Exec? && Deadline(submissions[k], s.submitted[k].expire))
    && (forall m :: 0 <= m < |handlings| ==>
          && handlings[m].RunTask? && s.finished[m].task.id < |submissions|
          && (s.finished[m].expired <==> Late(submissions[s.finished[m].task.id], handlings[m])))
  }

  predicate Deadline(submission: Action, expire: int)
    requires submission.Exec?
  {
    expire == if submission.timeout == 0 then 0 else submission.now + submission.timeout
  }

  lemma ExecIsTimely(s: State, a: Action, submissions: seq<Action>, handlings: seq<Action>)
    requires Enabled(s, a) && a.Exec? && Timely(s, submissions, handlings)
    ensures Timely(Apply(s, a), submissions + [a], handlings)
  {}

  /** The task in hand is the submission of its number. */
  lemma HandlingIsTimely(s: State, a: Action, submissions: seq<Action>, handlings: seq<Action>)
    requires Inv(s) && Enabled(s, a) && a.RunTask? && Timely(s, submissions, handlings)
    ensures Timely(Apply(s, a), submissions, handlings + [a])
  {
    var task := s.workers[a.i].task;
    assert task in s.dequeued && task in s.submitted;
    assert task == s.submitted[task.id];
  }

  lemma StepIsTimely(s: State, a: Action, submissions: seq<Action>, handlings: seq<Action>)
    requires Inv(s) && Enabled(s, a) && Timely(s, submissions, handlings)
    ensures Timely(Apply(s, a), submissions + Submission(a), handlings + Handling(a))
  {
    assert submissions + [] == submissions && handlings + [] == handlings;
    if a.Exec? {
      ExecIsTimely(s, a, submissions, handlings);
    } else if a.RunTask? {
      HandlingIsTimely(s, a, submissions, handlings);
    }
  }

  lemma Regroup<T>(a: seq<T>, b: seq<T>, c: seq<T>)
    ensures (a + b) + c == a + (b + c)
  {}

  lemma {:induction false} RunIsTimely(s: State, acts: seq<Action>, submissions: seq<Action>, handlings: seq<Action>)
    requires Inv(s) && Legal(s, acts) && Timely(s, submissions, handlings)
    ensures Timely(Run(s, acts), submissions + Submissions(acts), handlings + Handlings(acts))
    decreases |acts|
  {
    if acts == [] {
      assert submissions + [] == submissions && handlings + [] == handlings;
    } else {
      StepKeeps(s, acts[0]);
      StepIsTimely(s, acts[0], submissions, handlings);
      RunIsTimely(Apply(s, acts[0]), acts[1..], submissions + Submission(acts[0]), handlings + Handling(acts[0]));
      Regroup(submissions, Submission(acts[0]), Submissions(acts[1..]));
      Regroup(handlings, Handling(acts[0]), Handlings(acts[1..]));
    }
  }

  lemma FirstRunIsTimely(s: State, acts: seq<Action>)
    requires Inv(s) && Legal(s, acts) && s.submitted == [] && s.finished == []
    ensures Timely(Run(s, acts), Submissions(acts), Handlings(acts))
  {
    RunIsTimely(s, acts, [], []);
    assert [] + Submissions(acts) == Submissions(acts) && [] + Handlings(acts) == Handlings(acts);
  }

  lemma FreshIsSafe()
    ensures Inv(Fresh)
  {}

  /**
   In every run, told from the calls and the clock readings alone: the task that a
   worker handles is dropped as expired if and only if it was submitted with a
   timeout and its deadline, unless that is 0, is before the reading.
   */
  lemma ExpiryIsExact(acts: seq<Action>)
    requires Legal(Fresh, acts)
    ensures Timely(Run(Fresh, acts), Submissions(acts), Handlings(acts))
  {
    FreshIsSafe();
    FirstRunIsTimely(Fresh, acts);
  }

  // ---------------------------------------------------------------- progress

  /** The pool's own steps: no submission, start, stop, new call or spurious wakeup. */
  predicate Working(a: Action) {
    a.ReadTerminate? || a.Get? || a.Increment? || a.RunTask? || a.Decrement? || a.EndCheck? || a.WaitCheck?
  }

  ghost predicate Quiet(s: State) { forall a :: Working(a) ==> !Enabled(s, a) }

  function Crew(s: State): nat { |s.workers| + |s.waiters| }

  /** Steps a worker may still take; an end check pays for everyone it may wake. */
  function WorkerRank(crew: nat, terminate: bool): Worker -> nat {
    (w: Worker) =>
      match w
      case Exited => 0
      case Asleep => if terminate then 1 else 0
      case Woken => if terminate then 2 else 1
      case Getting => if terminate then 2 else 1
      case Looping => if terminate then 1 else 2
      case Ending => 3 + crew
      case Ran => 4 + crew
      case Running(_) => 5 + crew
      case Got(_) => 6 + crew
  }

  function WaiterRank(w: Waiter): nat { if w.Entering? || w.Roused? then 1 else 0 }

  function Measure(s: State): nat {
    |s.tasks| * (6 + Crew(s)) + Sum(s.workers, WorkerRank(Crew(s), s.terminate)) + Sum(s.waiters, WaiterRank)
  }

  lemma NotifyAllRank(s: State)
    ensures var f := WorkerRank(Crew(s), s.terminate);
      Sum(NotifyAll(s).workers, f) + Sum(NotifyAll(s).waiters, WaiterRank)
        <= Sum(s.workers, f) + Sum(s.waiters, WaiterRank) + Crew(s)
  {
    SumRaised(s.workers, NotifyAll(s).workers, WorkerRank(Crew(s), s.terminate));
    SumRaised(s.waiters, NotifyAll(s).waiters, WaiterRank);
  }

  lemma EndProgress(s: State, i: nat)
    requires Enabled(s, EndCheck(i))
    ensures Measure(Apply(s, EndCheck(i))) < Measure(s)
  {
    var m := Move(s, i, Looping);
    SumUpdate(s.workers, i, Looping, WorkerRank(Crew(s), s.terminate));
    assert Crew(m) == Crew(s);
    assert Measure(m) + Crew(s) < Measure(s);
    NotifyAllRank(m);
    assert Crew(NotifyAll(m)) == Crew(s);
  }

  lemma GetProgress(s: State, i: nat)
    requires Enabled(s, Get(i))
    ensures Measure(Apply(s, Get(i))) < Measure(s)
  {
    var t, c := Apply(s, Get(i)), 6 + Crew(s);
    assert Crew(t) == Crew(s);
    SumUpdate(s.workers, i, t.workers[i], WorkerRank(Crew(s), s.terminate));
    if !s.terminate && s.tasks != [] {
      OneFewer(|s.tasks|, c);
    }
  }

  lemma OneFewer(n: nat, c: nat)
    requires n > 0
    ensures n * c == (n - 1) * c + c
  {}

  lemma WorkProgress(s: State, a: Action)
    requires Enabled(s, a) && Working(a)
    ensures Measure(Apply(s, a)) < Measure(s)
    ensures Crew(Apply(s, a)) == Crew(s) && Apply(s, a).terminate == s.terminate
  {
    var t := Apply(s, a);
    assert Crew(t) == Crew(s);
    if a.WaitCheck? {
      SumUpdate(s.waiters, a.j, t.waiters[a.j], WaiterRank);
    } else if a.EndCheck? {
      EndProgress(s, a.i);
    } else if a.Get? {
      GetProgress(s, a.i);
    } else {
      SumUpdate(s.workers, a.i, t.workers[a.i], WorkerRank(Crew(s), s.terminate));
    }
  }

  /** The only thing a quiet pool can be waiting for is more work. */
  lemma QuietPool(s: State)
    requires Inv(s) && Quiet(s)
    ensures !s.terminate && s.workers != [] ==>
      && s.tasks == []
      && (forall i :: 0 <= i < |s.workers| ==> s.workers[i].Asleep?)
      && (forall j :: 0 <= j < |s.waiters| ==> s.waiters[j].Returned?)
    ensures s.terminate ==> forall i :: 0 <= i < |s.workers| ==> s.workers[i].Exited?
    ensures s.tasks == [] ==> forall j :: 0 <= j < |s.waiters| ==> s.waiters[j].Returned?
  {
    forall i | 0 <= i < |s.workers| ensures s.workers[i].Asleep? || s.workers[i].Exited? {
      assert !Enabled(s, ReadTerminate(i)) && !Enabled(s, Get(i)) && !Enabled(s, Increment(i));
      assert !Enabled(s, RunTask(i, 0)) && !Enabled(s, Decrement(i)) && !Enabled(s, EndCheck(i));
    }
    forall j | 0 <= j < |s.waiters| ensures s.waiters[j].Sleeping? || s.waiters[j].Returned? {
      assert !Enabled(s, WaitCheck(j, false));
    }
  }

  lemma {:induction false} WorkingRun(s: State, acts: seq<Action>)
    requires Legal(s, acts) && forall k :: 0 <= k < |acts| ==> Working(acts[k])
    ensures |acts| + Measure(Run(s, acts)) <= Measure(s)
    ensures var t := Run(s, acts);
      && t.terminate == s.terminate && t.submitted == s.submitted
      && |t.workers| == |s.workers| && |t.waiters| == |s.waiters|
    decreases |acts|
  {
    if acts != [] {
      WorkProgress(s, acts[0]);
      WorkingRun(Apply(s, acts[0]), acts[1..]);
    }
  }

  /**
   From every reachable state of a started pool, once submissions pause: the pool
   takes at most `Measure` more steps, and when it rests every task has been
   finished exactly once, every worker sleeps and every waiter has returned.
   */
  lemma EveryPoolDrains(acts: seq<Action>, more: seq<Action>)
    requires Legal(Fresh, acts) && Legal(Run(Fresh, acts), more)
    requires forall k :: 0 <= k < |more| ==> Working(more[k])
    requires var s := Run(Fresh, acts); !s.terminate && s.workers != []
    ensures |more| <= Measure(Run(Fresh, acts))
    ensures var t := Run(Run(Fresh, acts), more); Quiet(t) ==>
      && t.tasks == []
      && (forall k: nat :: k < |t.submitted| ==> Sum(t.finished, Finishes(k)) == 1)
      && (forall i :: 0 <= i < |t.workers| ==> t.workers[i].Asleep?)
      && (forall j :: 0 <= j < |t.waiters| ==> t.waiters[j].Returned?)
  {
    var s := Run(Fresh, acts);
    EveryRunIsSafe(acts);
    RunKeeps(s, more);
    WorkingRun(s, more);
    var t := Run(s, more);
    if Quiet(t) {
      QuietPool(t);
      forall k: nat | k < |t.submitted| ensures Sum(t.finished, Finishes(k)) == 1 {
        SumZero(t.workers, Holds(k));
      }
    }
  }

  // ---------------------------------------------------------------- wait_for_all_done

  lemma {:induction false} CarriedAtMostOneEach(ws: seq<Worker>)
    ensures Sum(ws, Carried) <= |ws|
  {
    if ws != [] {
      CarriedAtMostOneEach(ws[1..]);
    }
  }

  /**
   A true result promises an empty queue, not finished tasks: what is unfinished
   is exactly what the workers hold, at most one task each, so everything is done
   if and only if no worker holds a task at that moment.
   */
  lemma WaitTrueMeansQueueEmpty(s: State, j: nat, timedOut: bool)
    requires Inv(s) && Enabled(s, WaitCheck(j, timedOut))
    requires Apply(s, WaitCheck(j, timedOut)).waiters[j] == Returned(true)
    ensures forall k: nat :: k < |s.submitted| ==>
      Sum(s.finished, Finishes(k)) + Sum(s.workers, Holds(k)) == 1
    ensures |s.submitted| - |s.finished| == Sum(s.workers, Carried) <= |s.workers|
    ensures |s.finished| == |s.submitted| <==> forall i :: 0 <= i < |s.workers| ==> !HasTask(s.workers[i])
  {
    CarriedAtMostOneEach(s.workers);
    if Sum(s.workers, Carried) == 0 {
      forall i | 0 <= i < |s.workers| ensures !HasTask(s.workers[i]) {
        SumAtLeast(s.workers, i, Carried);
      }
    } else {
      var i := SumWitness(s.workers, Carried);
      assert HasTask(s.workers[i]);
    }
  }

  /** A run in which it returns true while the only task has not begun. */
  lemma WaitReturnsEarly() returns (acts: seq<Action>)
    ensures Legal(Fresh, acts)
    ensures var s := Run(Fresh, acts);
      s.waiters == [Returned(true)] && |s.submitted| == 1 && s.finished == []
  {
    RunThenStep(Fresh, [], Start);
    acts := [] + [Start];
    RunThenStep(Fresh, acts, Exec(0, 0, Nobody));
    acts := acts + [Exec(0, 0, Nobody)];
    RunThenStep(Fresh, acts, ReadTerminate(0));
    acts := acts + [ReadTerminate(0)];
    RunThenStep(Fresh, acts, Get(0));
    acts := acts + [Get(0)];
    RunThenStep(Fresh, acts, WaitCall(false));
    acts := acts + [WaitCall(false)];
    RunThenStep(Fresh, acts, WaitCheck(0, false));
    acts := acts + [WaitCheck(0, false)];
  }

  lemma {:induction false} RunThenStep(s: State, acts: seq<Action>, a: Action)
    requires Legal(s, acts) && Enabled(Run(s, acts), a)
    ensures Legal(s, acts + [a]) && Run(s, acts + [a]) == Apply(Run(s, acts), a)
    decreases |acts|
  {
    if acts == [] {
      assert acts + [a] == [a];
    } else {
      assert (acts + [a])[1..] == acts[1..] + [a];
      RunThenStep(Apply(s, acts[0]), acts[1..], a);
    }
  }

  lemma {:induction false} CallsAppend(acts: seq<Action>, a: Action)
    ensures Submissions(acts + [a]) == Submissions(acts) + Submission(a)
    ensures Handlings(acts + [a]) == Handlings(acts) + Handling(a)
  {
    if acts == [] {
      assert acts + [a] == [a] && Submission(a) + [] == [] + Submission(a) && Handling(a) + [] == [] + Handling(a);
    } else {
      assert (acts + [a])[1..] == acts[1..] + [a];
      CallsAppend(acts[1..], a);
      Regroup(Submission(acts[0]), Submissions(acts[1..]), Submission(a));
      Regroup(Handling(acts[0]), Handlings(acts[1..]), Handling(a));
    }
  }

  lemma OneStepMore(s: State, acts: seq<Action>, a: Action)
    requires Legal(s, acts) && Enabled(Run(s, acts), a)
    ensures Legal(s, acts + [a]) && Run(s, acts + [a]) == Apply(Run(s, acts), a)
    ensures Submissions(acts + [a]) == Submissions(acts) + Submission(a)
    ensures Handlings(acts + [a]) == Handlings(acts) + Handling(a)
  {
    RunThenStep(s, acts, a);
    CallsAppend(acts, a);
  }

  /** A run that brings the first submission into a worker's hands. */
  lemma TaskInHand(timeout: int, now: int) returns (acts: seq<Action>)
    ensures Legal(Fresh, acts) && Submissions(acts) == [Exec(timeout, now, Nobody)] && Handlings(acts) == []
    ensures var task := Task(0, Expiry(timeout, now));
      Run(Fresh, acts) == State(1, [], [Got(task)], false, 0, [], Outside, [task], [task], [])
  {
    var task := Task(0, Expiry(timeout, now));
    OneStepMore(Fresh, [], Start);
    acts := [] + [Start];
    OneStepMore(Fresh, acts, Exec(timeout, now, Nobody));
    acts := acts + [Exec(timeout, now, Nobody)];
    assert Run(Fresh, acts) == State(1, [task], [Looping], false, 0, [], Outside, [task], [], []);
    OneStepMore(Fresh, acts, ReadTerminate(0));
    acts := acts + [ReadTerminate(0)];
    OneStepMore(Fresh, acts, Get(0));
    acts := acts + [Get(0)];
  }

  lemma TaskBegins(timeout: int, now: int) returns (acts: seq<Action>)
    ensures Legal(Fresh, acts) && Submissions(acts) == [Exec(timeout, now, Nobody)] && Handlings(acts) == []
    ensures var task := Task(0, Expiry(timeout, now));
      Run(Fresh, acts) == State(1, [], [Running(task)], false, 1, [], Outside, [task], [task], [])
  {
    acts := TaskInHand(timeout, now);
    OneStepMore(Fresh, acts, Increment(0));
    acts := acts + [Increment(0)];
  }

  /** A deadline of 0 is taken for none: a task submitted for that time is run however late it is. */
  lemma ZeroDeadlineNeverPasses(t0: int, t1: int) returns (acts: seq<Action>)
    requires t0 != 0 < t1
    ensures Legal(Fresh, acts) && Submissions(acts) == [Exec(-t0, t0, Nobody)] && Handlings(acts) == [RunTask(0, t1)]
    ensures Run(Fresh, acts).finished == [Outcome(Task(0, 0), false)]
  {
    acts := TaskBegins(-t0, t0);
    OneStepMore(Fresh, acts, RunTask(0, t1));
    acts := acts + [RunTask(0, t1)];
  }

  // ---------------------------------------------------------------- stop

  /** Once `_terminate` is set nothing is dequeued again, whatever is called, `start` included. */
  lemma {:induction false} NothingDequeuedAfterStop(s: State, acts: seq<Action>)
    requires s.terminate && Legal(s, acts)
    ensures var t := Run(s, acts); t.terminate && t.dequeued == s.dequeued && s.tasks <= t.tasks
    decreases |acts|
  {
    if acts != [] {
      NothingDequeuedAfterStop(Apply(s, acts[0]), acts[1..]);
    }
  }

  /** After `_terminate` only tasks then in hand can still finish, and no worker sleeps. */
  lemma StopFinishesOnlyTasksInHand(s: State, acts: seq<Action>)
    requires Inv(s) && s.terminate && Legal(s, acts)
    ensures var t := Run(s, acts);
      && (forall k: nat :: Sum(t.finished, Finishes(k)) + Sum(t.workers, Holds(k))
                        == Sum(s.finished, Finishes(k)) + Sum(s.workers, Holds(k)))
      && forall i :: 0 <= i < |t.workers| ==> !t.workers[i].Asleep?
  {
    NothingDequeuedAfterStop(s, acts);
    RunKeeps(s, acts);
  }

  /** `stop` can always return, and when it does each submitted task has finished once or is still queued. */
  lemma StopReturns(s: State)
    requires Inv(s) && s.stopper == Joining
    ensures Quiet(s) ==> Enabled(s, StopEnd)
    ensures Enabled(s, StopEnd) ==>
      && s.runningCount == 0
      && |s.submitted| == |s.finished| + |s.tasks|
      && forall k: nat :: k < |s.submitted| ==> Sum(s.finished, Finishes(k)) == if k < |s.dequeued| then 1 else 0
  {
    if Quiet(s) {
      QuietPool(s);
    }
    if Enabled(s, StopEnd) {
      IdleCrew(s, Apply(s, StopEnd));
      forall k: nat | k < |s.submitted| ensures Sum(s.finished, Finishes(k)) == if k < |s.dequeued| then 1 else 0 {
        SumZero(s.workers, Holds(k));
      }
    }
  }

  predicate Pending(s: State, j: nat) {
    j < |s.waiters| && !s.waiters[j].Returned? && !s.waiters[j].timed
  }

  /** A waiter without a timeout that is overtaken by `stop` with tasks queued never returns. */
  lemma {:induction false} StopAbandonsUntimedWaiters(s: State, j: nat, acts: seq<Action>)
    requires s.terminate && s.tasks != [] && Pending(s, j) && Legal(s, acts)
    ensures Pending(Run(s, acts), j)
    decreases |acts|
  {
    if acts != [] {
      StopAbandonsUntimedWaiters(Apply(s, acts[0]), j, acts[1..]);
    }
  }

  /** No worker will ever take what is queued: the pool is stopped, or has none. */
  predicate Stalled(s: State) { s.terminate || s.workers == [] }

  lemma {:induction false} StalledRun(s: State, j: nat, acts: seq<Action>)
    requires Stalled(s) && Pending(s, j) && Legal(s, acts)
    requires forall k :: 0 <= k < |acts| ==> Working(acts[k])
    ensures Run(s, acts).tasks == s.tasks
    ensures s.tasks != [] ==> Pending(Run(s, acts), j)
    decreases |acts|
  {
    if acts != [] {
      var t := Apply(s, acts[0]);
      if Pending(t, j) {
        StalledRun(t, j, acts[1..]);
      } else {
        StalledTasks(t, acts[1..]);
      }
    }
  }

  lemma {:induction false} StalledTasks(s: State, acts: seq<Action>)
    requires Stalled(s) && Legal(s, acts)
    requires forall k :: 0 <= k < |acts| ==> Working(acts[k])
    ensures Run(s, acts).tasks == s.tasks
    decreases |acts|
  {
    if acts != [] {
      StalledTasks(Apply(s, acts[0]), acts[1..]);
    }
  }

  /**
   Exactly when an untimed `wait_for_all_done` returns. From any reachable state, once
   nothing is submitted, started or stopped, the pool comes to rest within `Measure`
   steps, and there the waiter has returned if and only if the queue was empty, or
   the pool was started and not stopped.
   */
  lemma UntimedWaitReturnsExactly(acts: seq<Action>, more: seq<Action>, j: nat)
    requires Legal(Fresh, acts) && Pending(Run(Fresh, acts), j) && Legal(Run(Fresh, acts), more)
    requires forall k :: 0 <= k < |more| ==> Working(more[k])
    ensures |more| <= Measure(Run(Fresh, acts))
    ensures var s := Run(Fresh, acts);
      var t := Run(s, more);
      j < |t.waiters| && (Quiet(t) ==> (t.waiters[j].Returned? <==> s.tasks == [] || !Stalled(s)))
  {
    var s := Run(Fresh, acts);
    EveryRunIsSafe(acts);
    RunKeeps(s, more);
    WorkingRun(s, more);
    if Quiet(Run(s, more)) {
      QuietPool(Run(s, more));
      if Stalled(s) {
        StalledRun(s, j, more);
      }
    }
  }

  /** `stop` can overtake such a waiter: a run that leaves one pending behind a queued task for ever. */
  lemma StopOvertakesWaiter() returns (acts: seq<Action>)
    ensures Legal(Fresh, acts)
    ensures var s := Run(Fresh, acts); s.terminate && s.tasks != [] && Pending(s, 0)
  {
    RunThenStep(Fresh, [], Start);
    acts := [] + [Start];
    RunThenStep(Fresh, acts, Exec(0, 0, Nobody));
    acts := acts + [Exec(0, 0, Nobody)];
    RunThenStep(Fresh, acts, WaitCall(false));
    acts := acts + [WaitCall(false)];
    RunThenStep(Fresh, acts, StopBegin);
    acts := acts + [StopBegin];
  }

  // ---------------------------------------------------------------- the pool object

  /** The pool's fields and critical sections, as the program writes them. */
  class Pool {
    var poolSize: nat
    var tasks: seq<Task>
    var workers: seq<Worker>
    var terminate: bool
    var runningCount: int
    var waiters: seq<Waiter>
    var stopper: Stopper
    var submitted: seq<Task>
    var dequeued: seq<Task>
    var finished: seq<Outcome>

    constructor ()
      ensures View() == Fresh
    {
      poolSize, terminate, runningCount, stopper := 1, false, 0, Outside;
      tasks, workers, waiters, submitted, dequeued, finished := [], [], [], [], [], [];
    }

    function View(): State
      reads this
    {
      State(poolSize, tasks, workers, terminate, runningCount, waiters, stopper, submitted, dequeued, finished)
    }

    method Initial(num: nat) returns (ok: bool)
      modifies this
      ensures View() == Apply(old(View()), Action.Initial(num))
      ensures ok <==> old(workers) == []
      ensures workers == old(workers) && poolSize == if ok then num else old(poolSize)
    {
      if workers != [] {
        return false;
      }
      poolSize := num;
      return true;
    }

    /** Reports false whether or not it started the workers. */
    method Start() returns (ok: bool)
      modifies this
      ensures View() == Apply(old(View()), Action.Start)
      ensures !ok
      ensures old(workers) != [] ==> workers == old(workers)
      ensures old(workers) == [] ==>
        |workers| == poolSize && forall i :: 0 <= i < |workers| ==> workers[i] == Looping
    {
      if workers != [] {
        return false;
      }
      ghost var was := View();
      for i := 0 to poolSize
        invariant View() == was.(workers := workers)
        invariant workers == seq(i, _ => Looping)
      {
        workers := workers + [Looping];
      }
      return false;
    }

    method Exec(timeout: int, now: int, pick: Pick)
      requires Picks(View(), pick)
      modifies this
      ensures View() == Apply(old(View()), Action.Exec(timeout, now, pick))
      ensures submitted == old(submitted) + [Task(|old(submitted)|, if timeout == 0 then 0 else now + timeout)]
      ensures tasks == old(tasks) + [submitted[|old(submitted)|]]
      ensures forall i :: 0 <= i < |workers| ==>
        workers[i] == if pick == PickWorker(i) then Woken else old(workers)[i]
    {
      var expire := if timeout == 0 then 0 else now + timeout;
      var t := Task(|submitted|, expire);
      tasks, submitted := tasks + [t], submitted + [t];
      match pick
      case Nobody =>
      case PickWorker(i) => workers := workers[i := Woken];
      case PickWaiter(j) => waiters := waiters[j := Roused(waiters[j].timed)];
    }

    /** One pass of `get`; false sends the worker to sleep or back to its loop. */
    method Get(i: nat) returns (got: bool)
      requires Enabled(View(), Action.Get(i))
      modifies this
      ensures View() == Apply(old(View()), Action.Get(i))
      ensures got <==> !terminate && old(tasks) != []
      ensures got ==> old(tasks) == [workers[i].task] + tasks && dequeued == old(dequeued) + [workers[i].task]
      ensures workers == old(workers)[i := workers[i]]
      ensures if got then workers[i] == Got(old(tasks)[0]) else workers[i] == if terminate then Looping else Asleep
    {
      if tasks == [] && !terminate {
        workers := workers[i := Asleep];
        return false;
      }
      if terminate {
        workers := workers[i := Looping];
        return false;
      }
      workers := workers[i := Got(tasks[0])];
      dequeued := dequeued + [tasks[0]];
      tasks := tasks[1..];
      return true;
    }

    /** The head of the loop in `run`. */
    method ReadTerminate(i: nat)
      requires Enabled(View(), Action.ReadTerminate(i))
      modifies this
      ensures View() == Apply(old(View()), Action.ReadTerminate(i))
      ensures workers == old(workers)[i := if terminate then Exited else Getting]
    {
      workers := workers[i := if terminate then Exited else Getting];
    }

    method Begin(i: nat)
      requires Enabled(View(), Increment(i))
      modifies this
      ensures View() == Apply(old(View()), Increment(i))
      ensures runningCount == old(runningCount) + 1 && workers == old(workers)[i := Running(old(workers)[i].task)]
    {
      runningCount := runningCount + 1;
      workers := workers[i := Running(workers[i].task)];
    }

    /** Runs the body unless its time is past. */
    method Execute(i: nat, now: int) returns (ran: bool)
      requires Enabled(View(), RunTask(i, now))
      modifies this
      ensures View() == Apply(old(View()), RunTask(i, now))
      ensures var task := old(workers)[i].task;
        (ran <==> task.expire == 0 || now <= task.expire) && finished == old(finished) + [Outcome(task, !ran)]
      ensures workers == old(workers)[i := Ran]
    {
      var t := workers[i].task;
      ran := !(t.expire != 0 && t.expire < now);
      finished := finished + [Outcome(t, !ran)];
      workers := workers[i := Ran];
    }

    method Finish(i: nat)
      requires Enabled(View(), Decrement(i))
      modifies this
      ensures View() == Apply(old(View()), Decrement(i))
      ensures runningCount == old(runningCount) - 1 && workers == old(workers)[i := Ending]
    {
      runningCount := runningCount - 1;
      workers := workers[i := Ending];
    }

    method NotifyEveryone()
      modifies this
      ensures View() == NotifyAll(old(View()))
      ensures |workers| == |old(workers)| && |waiters| == |old(waiters)|
      ensures forall i :: 0 <= i < |workers| ==>
        workers[i] == if old(workers)[i].Asleep? then Woken else old(workers)[i]
      ensures forall j :: 0 <= j < |waiters| ==>
        waiters[j] == if old(waiters)[j].Sleeping? then Roused(old(waiters)[j].timed) else old(waiters)[j]
    {
      workers := seq(|workers|, i requires 0 <= i < |workers| reads this => Wake(workers[i]));
      waiters := seq(|waiters|, j requires 0 <= j < |waiters| reads this => Rouse(waiters[j]));
    }

    method EndOfTask(i: nat)
      requires Enabled(View(), EndCheck(i))
      modifies this
      ensures View() == Apply(old(View()), EndCheck(i))
      ensures workers[i] == Looping
      ensures runningCount != 0 || tasks != [] ==>
        workers == old(workers)[i := Looping] && waiters == old(waiters)
      ensures runningCount == 0 && tasks == [] ==> !SomeoneAsleep(View())
    {
      workers := workers[i := Looping];
      if runningCount == 0 && tasks == [] {
        NotifyEveryone();
      }
    }

    /** One test of the predicate in `wait_for_all_done`. */
    method WaitForAllDone(j: nat, timedOut: bool)
      requires Enabled(View(), WaitCheck(j, timedOut))
      modifies this
      ensures View() == Apply(old(View()), WaitCheck(j, timedOut))
      ensures waiters == old(waiters)[j := waiters[j]]
      ensures waiters[j] == Returned(true) <==> tasks == []
      ensures waiters[j] == Returned(false) <==> tasks != [] && timedOut
      ensures tasks != [] && !timedOut ==> waiters[j] == Sleeping(old(waiters)[j].timed)
    {
      if tasks == [] {
        waiters := waiters[j := Returned(true)];
      } else if timedOut {
        waiters := waiters[j := Returned(false)];
      } else {
        waiters := waiters[j := Sleeping(waiters[j].timed)];
      }
    }

    method BeginStop()
      requires stopper == Outside
      modifies this
      ensures View() == Apply(old(View()), StopBegin)
      ensures terminate && tasks == old(tasks) && !SomeoneAsleep(View())
    {
      terminate := true;
      NotifyEveryone();
      stopper := Joining;
    }

    /** Every join has returned. */
    method EndStop()
      requires Enabled(View(), StopEnd)
      modifies this
      ensures View() == Apply(old(View()), StopEnd)
      ensures workers == [] && terminate == old(terminate) && tasks == old(tasks)
    {
      workers := [];
      stopper := Outside;
    }
  }
}
