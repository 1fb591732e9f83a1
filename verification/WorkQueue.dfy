/**
 The work queue of thread_pool.cpp as interleaved steps of its threads, before shutdown: callers run submit, workers
 run the loop of ThreadPool::run.  One mutex guards the queue, one condition variable wakes workers.
 */
module WorkQueue {
  import opened Bytes

  const MAX_THREADS := 200

  /** A submitted pointer: None is the null pointer, which is taken but not processed. */
  type Task = Option<nat>

  // ---- The constructor ----

  /** How many workers start; None is the exception. */
  method Construct(num: int, max0: int) returns (workers: Option<nat>)
    ensures workers == if 0 < num && (num <= max0 || num <= 200) then Some(num) else None
  {
    var max := max0;
    if max < num {
      max := MAX_THREADS;
    }
    if num <= 0 || num > max {
      return None;
    }
    var i := 0;
    while i < num
      invariant 0 <= i <= num
    {
      i := i + 1;
    }
    return Some(i);
  }

  // ---- The threads ----

  /** Where a worker stands; it owns the mutex when Checking, Holding or Running. */
  datatype Worker =
    | AtLock
    | Checking
    | Asleep
    | Woken
    | Holding(request: Task)
    | Running

  /** Where a call of submit stands; it owns the mutex when Inside or Pushed. */
  datatype Caller =
    | Wants(task: Task)
    | Inside(task: Task)
    | Pushed
    | Notifying
    | Returned

  datatype Owner = Nobody | ByWorker(i: nat) | ByCaller(j: nat)

  /** submitted, taken and processed record what happened, in order. */
  datatype State = State(
    queue: seq<Task>, owner: Owner, workers: seq<Worker>, callers: seq<Caller>,
    submitted: seq<Task>, taken: seq<Task>, processed: seq<nat>)

  datatype Step =
    | Call(task: Task)
    | Enter(j: nat)
    | Push(j: nat)
    | Leave(j: nat)
    | Notify(j: nat, woken: Option<nat>)
    | Lock(i: nat)
    | Look(i: nat)
    | Process(i: nat)
    | Unlock(i: nat)
    | Spurious(i: nat)

  predicate IsWorker(s: State, i: nat, w: Worker) {
    i < |s.workers| && s.workers[i] == w
  }

  predicate IsCaller(s: State, j: nat, c: Caller) {
    j < |s.callers| && s.callers[j] == c
  }

  ghost predicate SomeAsleep(s: State) {
    exists i: nat :: IsWorker(s, i, Asleep)
  }

  ghost predicate Enabled(s: State, step: Step) {
    match step
    case Call(_) => true
    case Enter(j) => s.owner == Nobody && j < |s.callers| && s.callers[j].Wants?
    case Push(j) => j < |s.callers| && s.callers[j].Inside?
    case Leave(j) => IsCaller(s, j, Pushed)
    case Notify(j, woken) =>
      && IsCaller(s, j, Notifying)
      && (if woken == None then !SomeAsleep(s) else IsWorker(s, woken.value, Asleep))
    case Lock(i) => s.owner == Nobody && (IsWorker(s, i, AtLock) || IsWorker(s, i, Woken))
    case Look(i) => IsWorker(s, i, Checking)
    case Process(i) => i < |s.workers| && s.workers[i].Holding?
    case Unlock(i) => IsWorker(s, i, Running)
    case Spurious(i) => IsWorker(s, i, Asleep)
  }

  function SetWorker(s: State, i: nat, w: Worker): State
    requires i < |s.workers|
  {
    s.(workers := s.workers[i := w])
  }

  function SetCaller(s: State, j: nat, c: Caller): State
    requires j < |s.callers|
  {
    s.(callers := s.callers[j := c])
  }

  function Jobs(tasks: seq<Task>): seq<nat> {
    if tasks == [] then []
    else Jobs(tasks[..|tasks| - 1]) + JobOf(tasks[|tasks| - 1])
  }

  function JobOf(task: Task): seq<nat> {
    if task == None then [] else [task.value]
  }

  function Next(s: State, step: Step): State
    requires Enabled(s, step)
  {
    match step
    case Call(task) => s.(callers := s.callers + [Wants(task)])
    case Enter(j) => SetCaller(s, j, Inside(s.callers[j].task)).(owner := ByCaller(j))
    case Push(j) =>
      var task := s.callers[j].task;
      SetCaller(s, j, Pushed).(queue := s.queue + [task], submitted := s.submitted + [task])
    case Leave(j) => SetCaller(s, j, Notifying).(owner := Nobody)
    case Notify(j, woken) =>
      var s' := SetCaller(s, j, Returned);
      if woken == None then s' else SetWorker(s', woken.value, Woken)
    case Lock(i) => SetWorker(s, i, Checking).(owner := ByWorker(i))
    case Look(i) =>
      if s.queue == [] then SetWorker(s, i, Asleep).(owner := Nobody)
      else SetWorker(s, i, Holding(s.queue[0])).(queue := s.queue[1..], taken := s.taken + [s.queue[0]])
    case Process(i) => SetWorker(s, i, Running).(processed := s.processed + JobOf(s.workers[i].request))
    case Unlock(i) => SetWorker(s, i, AtLock).(owner := Nobody)
    case Spurious(i) => SetWorker(s, i, Woken)
  }

  function Initial(num: nat): State {
    State([], Nobody, seq(num, _ => AtLock), [], [], [], [])
  }

  // ---- What every step keeps ----

  predicate OwnsAsWorker(w: Worker) {
    w.Checking? || w.Holding? || w.Running?
  }

  predicate OwnsAsCaller(c: Caller) {
    c.Inside? || c.Pushed?
  }

  /** Exactly the owner of the mutex is inside. */
  ghost predicate Exclusive(s: State) {
    && (forall i: nat :: i < |s.workers| ==> (OwnsAsWorker(s.workers[i]) <==> s.owner == ByWorker(i)))
    && (forall j: nat :: j < |s.callers| ==> (OwnsAsCaller(s.callers[j]) <==> s.owner == ByCaller(j)))
    && (s.owner.ByWorker? ==> s.owner.i < |s.workers|)
    && (s.owner.ByCaller? ==> s.owner.j < |s.callers|)
  }

  predicate InFlight(c: Caller) {
    c.Pushed? || c.Notifying?
  }

  /** While tasks wait, a worker is not asleep or a notification is on its way. */
  ghost predicate NoLostWakeup(s: State) {
    s.queue == []
    || (exists i: nat :: i < |s.workers| && s.workers[i] != Asleep)
    || (exists j: nat :: j < |s.callers| && InFlight(s.callers[j]))
  }

  /** First in, first out: nothing lost, nothing twice. */
  ghost predicate Fifo(s: State) {
    s.submitted == s.taken + s.queue
  }

  /** What a worker has taken but not yet processed. */
  function Pending(s: State): seq<nat> {
    if s.owner.ByWorker? && s.owner.i < |s.workers| && s.workers[s.owner.i].Holding?
    then JobOf(s.workers[s.owner.i].request) else []
  }

  ghost predicate ProcessedInOrder(s: State) {
    Jobs(s.taken) == s.processed + Pending(s)
  }

  ghost predicate Inv(s: State) {
    |s.workers| > 0 && Exclusive(s) && Fifo(s) && NoLostWakeup(s) && ProcessedInOrder(s)
  }

  lemma {:induction false} InitialInv(num: nat)
    requires num > 0
    ensures Inv(Initial(num))
  {
  }

  lemma {:induction false} ExclusiveKept(s: State, step: Step)
    requires Exclusive(s) && Enabled(s, step)
    ensures Exclusive(Next(s, step))
  {
  }

  lemma {:induction false} WakeupKept(s: State, step: Step)
    requires |s.workers| > 0 && NoLostWakeup(s) && Enabled(s, step)
    ensures NoLostWakeup(Next(s, step))
  {
    var s' := Next(s, step);
    assert |s'.workers| == |s.workers| && |s'.callers| >= |s.callers|;
    match step
    case Push(j) => assert s'.callers[j] == Pushed;
    case Leave(j) => assert s'.callers[j] == Notifying;
    case Notify(j, woken) =>
      if woken == None {
        assert !IsWorker(s, 0, Asleep);
        assert s'.workers[0] != Asleep;
      } else {
        assert s'.workers[woken.value] == Woken;
      }
    case Lock(i) => assert s'.workers[i] == Checking;
    case Look(i) => assert s.queue != [] ==> s'.workers[i] != Asleep;
    case Process(i) => assert s'.workers[i] == Running;
    case Unlock(i) => assert s'.workers[i] == AtLock;
    case Spurious(i) => assert s'.workers[i] == Woken;
    case Call(_) =>
      CallersOnlyGrow(s, s');
    case Enter(j) =>
      EnterKeeps(s, j);
  }

  lemma {:induction false} CallersOnlyGrow(s: State, s': State)
    requires NoLostWakeup(s) && s'.queue == s.queue && s'.workers == s.workers
    requires |s'.callers| >= |s.callers|
    requires forall j: nat :: j < |s.callers| && InFlight(s.callers[j]) ==> s'.callers[j] == s.callers[j]
    ensures NoLostWakeup(s')
  {
    if j: nat :| j < |s.callers| && InFlight(s.callers[j]) {
      assert InFlight(s'.callers[j]);
    }
  }

  lemma {:induction false} EnterKeeps(s: State, j: nat)
    requires NoLostWakeup(s) && Enabled(s, Enter(j))
    ensures NoLostWakeup(Next(s, Enter(j)))
  {
    CallersOnlyGrow(s, Next(s, Enter(j)));
  }

  lemma {:induction false} OrderKept(s: State, step: Step)
    requires Exclusive(s) && Fifo(s) && ProcessedInOrder(s) && Enabled(s, step)
    ensures Fifo(Next(s, step)) && ProcessedInOrder(Next(s, step))
  {
    var s' := Next(s, step);
    match step
    case Push(j) =>
      assert s.taken + (s.queue + [s.callers[j].task]) == s.submitted + [s.callers[j].task];
    case Look(i) =>
      LookOrder(s, i);
    case Process(i) =>
      assert s.owner == ByWorker(i);
      assert s'.processed + [] == s'.processed;
    case Unlock(i) =>
      assert s.owner == ByWorker(i) && Pending(s) == [];
    case Lock(i) =>
      assert Pending(s) == [] && Pending(s') == [];
    case _ =>
      assert Pending(s') == Pending(s);
  }

  lemma {:induction false} LookOrder(s: State, i: nat)
    requires Exclusive(s) && Fifo(s) && ProcessedInOrder(s) && Enabled(s, Look(i))
    ensures Fifo(Next(s, Look(i))) && ProcessedInOrder(Next(s, Look(i)))
  {
    assert s.owner == ByWorker(i) && Pending(s) == [];
    assert s.processed + [] == s.processed;
    if s.queue != [] {
      var s' := Next(s, Look(i));
      assert s.queue == [s.queue[0]] + s.queue[1..];
      assert s.taken + [s.queue[0]] + s.queue[1..] == s.taken + s.queue;
      assert s'.taken[..|s'.taken| - 1] == s.taken;
      assert Pending(s') == JobOf(s.queue[0]);
    }
  }

  lemma {:induction false} InvKept(s: State, step: Step)
    requires Inv(s) && Enabled(s, step)
    ensures Inv(Next(s, step))
  {
    ExclusiveKept(s, step);
    WakeupKept(s, step);
    OrderKept(s, step);
  }

  /** The steps can be taken from s, one after the other. */
  ghost predicate CanRun(s: State, steps: seq<Step>)
    decreases |steps|
  {
    steps == [] || (Enabled(s, steps[0]) && CanRun(Next(s, steps[0]), steps[1..]))
  }

  function Run(s: State, steps: seq<Step>): State
    requires CanRun(s, steps)
    decreases |steps|
  {
    if steps == [] then s else Run(Next(s, steps[0]), steps[1..])
  }

  lemma {:induction false} RunInv(s: State, steps: seq<Step>)
    requires Inv(s) && CanRun(s, steps)
    ensures Inv(Run(s, steps))
    decreases |steps|
  {
    if steps != [] {
      InvKept(s, steps[0]);
      RunInv(Next(s, steps[0]), steps[1..]);
    }
  }

  /** Over all interleavings of any number of workers and callers. */
  lemma {:induction false} Safety(num: nat, steps: seq<Step>)
    requires num > 0 && CanRun(Initial(num), steps)
    ensures var s := Run(Initial(num), steps);
            && s.submitted == s.taken + s.queue
            && Jobs(s.taken) == s.processed + Pending(s)
            && (forall i: nat, k: nat :: IsWorker(s, i, Running) && IsWorker(s, k, Running) ==> i == k)
            && ((forall i: nat :: i < |s.workers| ==> s.workers[i] == Asleep) && s.queue != [] ==>
                 exists j: nat :: j < |s.callers| && InFlight(s.callers[j]))
  {
    InitialInv(num);
    RunInv(Initial(num), steps);
  }

  // ---- Without new calls and spurious wakeups the queue is emptied ----

  predicate Internal(step: Step) {
    !step.Call? && !step.Spurious?
  }

  function WorkerRank(w: Worker): nat {
    match w
    case Asleep => 0
    case Checking => 1
    case AtLock => 2
    case Woken => 2
    case Running => 3
    case Holding(_) => 4
  }

  function CallerRank(c: Caller): nat {
    match c
    case Returned => 0
    case Notifying => 1
    case Pushed => 2
    case Inside(_) => 3
    case Wants(_) => 4
  }

  function WorkersLeft(ws: seq<Worker>): nat {
    if ws == [] then 0 else WorkerRank(ws[0]) + WorkersLeft(ws[1..])
  }

  function CallersLeft(cs: seq<Caller>): nat {
    if cs == [] then 0 else CallerRank(cs[0]) + CallersLeft(cs[1..])
  }

  lemma {:induction false} WorkersLeftSet(ws: seq<Worker>, i: nat, w: Worker)
    requires i < |ws|
    ensures WorkersLeft(ws[i := w]) == WorkersLeft(ws) - WorkerRank(ws[i]) + WorkerRank(w)
    decreases |ws|
  {
    if i > 0 {
      assert ws[i := w][1..] == ws[1..][i - 1 := w];
      WorkersLeftSet(ws[1..], i - 1, w);
    } else {
      assert ws[i := w][1..] == ws[1..];
    }
  }

  lemma {:induction false} CallersLeftSet(cs: seq<Caller>, j: nat, c: Caller)
    requires j < |cs|
    ensures CallersLeft(cs[j := c]) == CallersLeft(cs) - CallerRank(cs[j]) + CallerRank(c)
    decreases |cs|
  {
    if j > 0 {
      assert cs[j := c][1..] == cs[1..][j - 1 := c];
      CallersLeftSet(cs[1..], j - 1, c);
    } else {
      assert cs[j := c][1..] == cs[1..];
    }
  }

  /** A bound on the internal steps that are left. */
  function StepsLeft(s: State): nat {
    5 * CallersLeft(s.callers) + 4 * |s.queue| + WorkersLeft(s.workers)
  }

  lemma {:induction false} StepsLeftDrops(s: State, step: Step)
    requires Enabled(s, step) && Internal(step)
    ensures StepsLeft(Next(s, step)) < StepsLeft(s)
  {
    match step
    case Enter(j) => CallersLeftSet(s.callers, j, Inside(s.callers[j].task));
    case Push(j) => CallersLeftSet(s.callers, j, Pushed);
    case Leave(j) => CallersLeftSet(s.callers, j, Notifying);
    case Notify(j, woken) =>
      CallersLeftSet(s.callers, j, Returned);
      if woken != None {
        WorkersLeftSet(s.workers, woken.value, Woken);
      }
    case Lock(i) => WorkersLeftSet(s.workers, i, Checking);
    case Look(i) =>
      WorkersLeftSet(s.workers, i, Next(s, step).workers[i]);
    case Process(i) => WorkersLeftSet(s.workers, i, Running);
    case Unlock(i) => WorkersLeftSet(s.workers, i, AtLock);
  }

  lemma {:induction false} InternalRunsEnd(s: State, steps: seq<Step>)
    requires CanRun(s, steps) && forall k :: 0 <= k < |steps| ==> Internal(steps[k])
    ensures |steps| <= StepsLeft(s)
    decreases |steps|
  {
    if steps != [] {
      StepsLeftDrops(s, steps[0]);
      InternalRunsEnd(Next(s, steps[0]), steps[1..]);
    }
  }

  /** Nothing but a new call or a spurious wakeup can happen. */
  ghost predicate Stuck(s: State) {
    forall step :: Internal(step) ==> !Enabled(s, step)
  }

  /** Every call has returned and every submitted task was taken and processed. */
  ghost predicate Idle(s: State) {
    && s.queue == [] && s.taken == s.submitted && s.processed == Jobs(s.submitted) && s.owner == Nobody
    && (forall i: nat :: i < |s.workers| ==> s.workers[i] == Asleep)
    && (forall j: nat :: j < |s.callers| ==> s.callers[j] == Returned)
  }

  lemma {:induction false} StuckIsIdle(s: State)
    requires Inv(s)
    ensures Stuck(s) <==> Idle(s)
  {
    if Stuck(s) {
      if s.owner != Nobody {
        var step := OwnerMoves(s);
      }
      forall i: nat | i < |s.workers| ensures s.workers[i] == Asleep {
        assert !Enabled(s, Lock(i));
      }
      forall j: nat | j < |s.callers| ensures s.callers[j] == Returned {
        assert !Enabled(s, Enter(j)) && !Enabled(s, Notify(j, Some(0)));
        assert IsWorker(s, 0, Asleep);
      }
      assert s.taken + [] == s.taken && s.processed + [] == s.processed;
    }
    if Idle(s) {
      forall step | Internal(step) ensures !Enabled(s, step) {
      }
    }
  }

  /**
   From any reachable state: without new calls and spurious wakeups only finitely many steps are left, and when none
   is, everything submitted has been processed in the order of submission.
   */
  lemma {:induction false} Drains(num: nat, before: seq<Step>, after: seq<Step>)
    requires num > 0 && CanRun(Initial(num), before) && CanRun(Run(Initial(num), before), after)
    requires forall k :: 0 <= k < |after| ==> Internal(after[k])
    ensures var s := Run(Initial(num), before);
            var end := Run(s, after);
            |after| <= StepsLeft(s) && (Stuck(end) <==> Idle(end))
  {
    var s := Run(Initial(num), before);
    InitialInv(num);
    RunInv(Initial(num), before);
    RunInv(s, after);
    InternalRunsEnd(s, after);
    StuckIsIdle(Run(s, after));
  }

  /** The owner of the mutex can always go on. */
  lemma {:induction false} OwnerMoves(s: State) returns (step: Step)
    requires Exclusive(s) && s.owner != Nobody
    ensures Internal(step) && Enabled(s, step)
  {
    match s.owner
    case ByWorker(i) =>
      assert OwnsAsWorker(s.workers[i]);
      step := if s.workers[i].Checking? then Look(i) else if s.workers[i].Holding? then Process(i) else Unlock(i);
    case ByCaller(j) =>
      assert OwnsAsCaller(s.callers[j]);
      step := if s.callers[j].Inside? then Push(j) else Leave(j);
  }

  /** The work that was processed: every submitted pointer that is not null, in order. */
  lemma {:induction false} JobsAre(tasks: seq<Task>, task: Task)
    ensures Jobs([]) == []
    ensures Jobs(tasks + [task]) == if task == None then Jobs(tasks) else Jobs(tasks) + [task.value]
  {
    assert (tasks + [task])[..|tasks|] == tasks;
    assert Jobs(tasks) + [] == Jobs(tasks);
  }
}
