/**
  The worker pool of common/thread_manager/ThreadManager.cpp as a transition system: a mutex, a
  condition variable with spurious wake-ups, a bounded task queue, any number of workers and of
  client threads, tasks that schedule further tasks, and the destructor.

  A step is one operation on the mutex, the condition variable or the shared state.  `accepted`,
  `popped`, `done` and `late` are histories on which no step depends.
*/
module ThreadPool {
  import opened Wrappers
  import opened Fifo

  /** Stands for a std::function<void()>; nothing depends on which task it is. */
  type Task = nat

  /** A thread inside schedule_task, or not. */
  datatype Sched =
    | Out
    | Locking(task: Task)      // before lock()
    | Testing(task: Task)      // holds the mutex, before is_full()
    | BackingOff(task: Task)   // released the mutex, in the 10 ms sleep
    | Pushing(task: Task)      // holds the mutex, before push
    | Unlocking                // holds the mutex, has pushed
    | Notifying                // released the mutex, before notify_all

  datatype Worker =
    | Acquiring                // before the mutex is acquired, for the first time or after a wake-up
    | Checking                 // holds the mutex, before the predicate of wait()
    | Waiting                  // in the wait set
    | Deciding                 // holds the mutex, the predicate was true
    | Popping                  // holds the mutex, decided to go on
    | Leaving(k: nat)          // holds the mutex, has popped the k-th task
    | Running(k: nat, call: Sched)
    | Exited

  datatype Destructor =
    | NotStarted
    | DLocking
    | Setting                  // holds the mutex
    | DUnlocking               // holds the mutex, is_running is false
    | DNotifying
    | Joining(i: nat)
    | Done

  datatype Thread = W(i: nat) | C(j: nat) | D

  datatype State = State(
    capacity: nat,
    queue: seq<Task>,
    isRunning: bool,
    lock: Option<Thread>,
    workers: seq<Worker>,
    clients: seq<Sched>,
    destructor: Destructor,
    accepted: seq<Task>,       // tasks pushed, in order
    popped: seq<Task>,         // tasks popped by workers, in order
    done: seq<nat>,            // positions in `popped` of the tasks that have returned
    late: seq<Task>)           // tasks pushed when no worker was left

  datatype Action =
    | WorkerStep(i: nat)                 // the worker's next step outside the task body
    | SpuriousWake(i: nat)
    | TaskSchedules(i: nat, task: Task)  // the running task calls schedule_task
    | TaskCallStep(i: nat)               // a step of that call
    | TaskReturns(i: nat)
    | ClientSchedules(j: nat, task: Task)
    | ClientStep(j: nat)
    | Destroy
    | DestructorStep

  function Init(capacity: nat, workers: nat, clients: nat): State {
    State(capacity, [], true, None, seq(workers, _ => Acquiring), seq(clients, _ => Out), NotStarted, [], [], [], [])
  }

  // ------------------------------------------------------------------ steps

  function NotifyAll(ws: seq<Worker>): seq<Worker> {
    seq(|ws|, i requires 0 <= i < |ws| => if ws[i].Waiting? then Acquiring else ws[i])
  }

  predicate AllExited(ws: seq<Worker>) {
    forall i :: 0 <= i < |ws| ==> ws[i].Exited?
  }

  predicate CallEnabled(s: State, call: Sched) {
    !call.Out? && (call.Locking? ==> s.lock == None)
  }

  /** A step of schedule_task by thread t: the next program point, and the shared state. */
  function CallNext(s: State, call: Sched): Sched {
    match call
    case Out => Out
    case Locking(task) => Testing(task)
    case Testing(task) => if |s.queue| == s.capacity then BackingOff(task) else Pushing(task)
    case BackingOff(task) => Locking(task)
    case Pushing(_) => Unlocking
    case Unlocking => Notifying
    case Notifying => Out
  }

  function CallEffect(s: State, t: Thread, call: Sched): State {
    match call
    case Locking(_) => s.(lock := Some(t))
    case Testing(_) => if |s.queue| == s.capacity then s.(lock := None) else s
    case Pushing(task) =>
      if |s.queue| < s.capacity then
        s.(queue := Push(s.queue, s.capacity, task), accepted := s.accepted + [task],
           late := if AllExited(s.workers) then s.late + [task] else s.late)
      else s
    case Unlocking => s.(lock := None)
    case Notifying => s.(workers := NotifyAll(s.workers))
    case _ => s
  }

  predicate WorkerEnabled(s: State, w: Worker) {
    match w
    case Acquiring => s.lock == None
    case Waiting => false
    case Running(_, _) => false
    case Exited => false
    case _ => true
  }

  function WorkerNext(s: State, i: nat): State
    requires i < |s.workers| && WorkerEnabled(s, s.workers[i])
  {
    match s.workers[i]
    case Acquiring => s.(lock := Some(W(i)), workers := s.workers[i := Checking])
    case Checking =>
      if s.queue != [] || !s.isRunning then s.(workers := s.workers[i := Deciding])
      else s.(workers := s.workers[i := Waiting], lock := None)
    case Deciding =>
      if !s.isRunning && s.queue == [] then s.(workers := s.workers[i := Exited], lock := None)
      else s.(workers := s.workers[i := Popping])
    case Popping =>
      (match Oldest(s.queue)
       case None => s
       case Some(task) =>
         s.(queue := Pop(s.queue), popped := s.popped + [task], workers := s.workers[i := Leaving(|s.popped|)]))
    case Leaving(k) => s.(lock := None, workers := s.workers[i := Running(k, Out)])
  }

  function DestructorNext(s: State): State {
    match s.destructor
    case DLocking => s.(lock := Some(D), destructor := Setting)
    case Setting => s.(isRunning := false, destructor := DUnlocking)
    case DUnlocking => s.(lock := None, destructor := DNotifying)
    case DNotifying => s.(workers := NotifyAll(s.workers), destructor := Joining(0))
    case Joining(i) => s.(destructor := if i < |s.workers| then Joining(i + 1) else Done)
    case _ => s
  }

  predicate Enabled(s: State, a: Action) {
    match a
    case WorkerStep(i) => i < |s.workers| && WorkerEnabled(s, s.workers[i])
    case SpuriousWake(i) => i < |s.workers| && s.workers[i].Waiting?
    case TaskSchedules(i, _) => i < |s.workers| && s.workers[i].Running? && s.workers[i].call.Out?
    case TaskCallStep(i) => i < |s.workers| && s.workers[i].Running? && CallEnabled(s, s.workers[i].call)
    case TaskReturns(i) => i < |s.workers| && s.workers[i].Running? && s.workers[i].call.Out?
    case ClientSchedules(j, _) => j < |s.clients| && s.clients[j].Out?
    case ClientStep(j) => j < |s.clients| && CallEnabled(s, s.clients[j])
    case Destroy => s.destructor.NotStarted?
    case DestructorStep =>
      match s.destructor
      case DLocking => s.lock == None
      case Joining(i) => i < |s.workers| ==> s.workers[i].Exited?
      case NotStarted => false
      case Done => false
      case _ => true
  }

  function Step(s: State, a: Action): State
    requires Enabled(s, a)
  {
    match a
    case WorkerStep(i) => WorkerNext(s, i)
    case SpuriousWake(i) => s.(workers := s.workers[i := Acquiring])
    case TaskSchedules(i, task) => s.(workers := s.workers[i := Running(s.workers[i].k, Locking(task))])
    case TaskCallStep(i) =>
      var k, call := s.workers[i].k, s.workers[i].call;
      var s' := CallEffect(s, W(i), call);
      s'.(workers := s'.workers[i := Running(k, CallNext(s, call))])
    case TaskReturns(i) => s.(workers := s.workers[i := Acquiring], done := s.done + [s.workers[i].k])
    case ClientSchedules(j, task) => s.(clients := s.clients[j := Locking(task)])
    case ClientStep(j) => CallEffect(s, C(j), s.clients[j]).(clients := s.clients[j := CallNext(s, s.clients[j])])
    case Destroy => s.(destructor := DLocking)
    case DestructorStep => DestructorNext(s)
  }

  function Run(s: State, acts: seq<Action>): Option<State> {
    if acts == [] then Some(s)
    else match Run(s, acts[..|acts| - 1])
         case None => None
         case Some(t) => if Enabled(t, acts[|acts| - 1]) then Some(Step(t, acts[|acts| - 1])) else None
  }

  /** s is the outcome of these actions on a fresh pool. */
  ghost predicate Reaches(capacity: nat, workers: nat, clients: nat, acts: seq<Action>, s: State) {
    Run(Init(capacity, workers, clients), acts) == Some(s)
  }

  lemma LastStep(s0: State, acts: seq<Action>, s: State) returns (before: State)
    requires Run(s0, acts) == Some(s) && acts != []
    ensures Run(s0, acts[..|acts| - 1]) == Some(before)
    ensures Enabled(before, acts[|acts| - 1]) && s == Step(before, acts[|acts| - 1])
  {
    before := Run(s0, acts[..|acts| - 1]).value;
  }

  // ------------------------------------------------------------------ the invariant

  predicate CallHolds(call: Sched) {
    call.Testing? || call.Pushing? || call.Unlocking?
  }

  predicate WorkerHolds(w: Worker) {
    w.Checking? || w.Deciding? || w.Popping? || w.Leaving? || (w.Running? && CallHolds(w.call))
  }

  predicate DestructorHolds(d: Destructor) {
    d.Setting? || d.DUnlocking?
  }

  /** Mutual exclusion: exactly the owner of the mutex is at a program point inside it. */
  ghost predicate MutexOk(s: State) {
    && (forall i :: 0 <= i < |s.workers| ==> (WorkerHolds(s.workers[i]) <==> s.lock == Some(W(i))))
    && (forall j :: 0 <= j < |s.clients| ==> (CallHolds(s.clients[j]) <==> s.lock == Some(C(j))))
    && (DestructorHolds(s.destructor) <==> s.lock == Some(D))
    && (s.lock.Some? ==> match s.lock.value
                         case W(i) => i < |s.workers|
                         case C(j) => j < |s.clients|
                         case D => true)
  }

  predicate WorkToDo(s: State) {
    s.queue != [] || !s.isRunning
  }

  /** What the owner of the mutex has found out still holds. */
  ghost predicate FindingsOk(s: State) {
    && |s.queue| <= s.capacity
    && (forall i :: 0 <= i < |s.workers| ==>
          && (s.workers[i].Deciding? ==> WorkToDo(s))
          && (s.workers[i].Popping? ==> s.queue != [])
          && (s.workers[i].Running? && s.workers[i].call.Pushing? ==> |s.queue| < s.capacity)
          && (s.workers[i].Exited? ==> !s.isRunning))
    && (forall j :: 0 <= j < |s.clients| ==> (s.clients[j].Pushing? ==> |s.queue| < s.capacity))
    && (s.isRunning <==> s.destructor.NotStarted? || s.destructor.DLocking? || s.destructor.Setting?)
  }

  /** A thread is between releasing the mutex, or about to release it, and its notify_all. */
  predicate CallNotifies(call: Sched) {
    call.Unlocking? || call.Notifying?
  }

  predicate WorkerNotifies(w: Worker) {
    w.Running? && CallNotifies(w.call)
  }

  ghost predicate NotifyPending(s: State) {
    || (exists i :: 0 <= i < |s.workers| && WorkerNotifies(s.workers[i]))
    || (exists j :: 0 <= j < |s.clients| && CallNotifies(s.clients[j]))
    || s.destructor.DUnlocking? || s.destructor.DNotifying?
  }

  ghost predicate SomeoneWaits(s: State) {
    exists i :: 0 <= i < |s.workers| && s.workers[i].Waiting?
  }

  ghost predicate NoLostWakeup(s: State) {
    SomeoneWaits(s) && WorkToDo(s) ==> NotifyPending(s)
  }

  /** The worker has popped the k-th task and not finished it. */
  predicate Holds(w: Worker, k: nat) {
    (w.Leaving? || w.Running?) && w.k == k
  }

  /** No two workers hold the same task. */
  ghost predicate HeldOnce(ws: seq<Worker>) {
    forall i, j, k: nat {:trigger Holds(ws[i], k), Holds(ws[j], k)} ::
      0 <= i < |ws| && 0 <= j < |ws| && Holds(ws[i], k) && Holds(ws[j], k) ==> i == j
  }

  /** A held task has been popped and has not returned. */
  ghost predicate HeldPending(ws: seq<Worker>, n: nat, done: seq<nat>) {
    forall i, k: nat {:trigger Holds(ws[i], k)} :: 0 <= i < |ws| && Holds(ws[i], k) ==> k < n && k !in done
  }

  /** Every popped task is held or has returned. */
  ghost predicate NoneForgotten(ws: seq<Worker>, n: nat, done: seq<nat>) {
    forall k: nat :: k < n ==> k in done || exists i :: 0 <= i < |ws| && Holds(ws[i], k)
  }

  ghost predicate NoDuplicates(done: seq<nat>) {
    forall m, n :: 0 <= m < n < |done| ==> done[m] != done[n]
  }

  ghost predicate AllBelow(done: seq<nat>, n: nat) {
    forall k :: k in done ==> k < n
  }

  ghost predicate TasksOk(s: State) {
    && s.accepted == s.popped + s.queue
    && HeldOnce(s.workers)
    && HeldPending(s.workers, |s.popped|, s.done)
    && NoneForgotten(s.workers, |s.popped|, s.done)
    && NoDuplicates(s.done)
    && AllBelow(s.done, |s.popped|)
  }

  ghost predicate LateOk(s: State) {
    s.late == if AllExited(s.workers) then s.queue else []
  }

  ghost predicate Inv(s: State) {
    MutexOk(s) && FindingsOk(s) && NoLostWakeup(s) && TasksOk(s) && LateOk(s)
  }

  // ------------------------------------------------------------------ every step keeps it

  lemma NotifyAllFacts(ws: seq<Worker>)
    ensures |NotifyAll(ws)| == |ws|
    ensures forall i :: 0 <= i < |ws| ==> !NotifyAll(ws)[i].Waiting?
    ensures forall i :: 0 <= i < |ws| && !ws[i].Waiting? ==> NotifyAll(ws)[i] == ws[i]
    ensures forall i :: 0 <= i < |ws| && ws[i].Waiting? ==> NotifyAll(ws)[i] == Acquiring
    ensures AllExited(NotifyAll(ws)) <==> AllExited(ws)
  {
    if AllExited(NotifyAll(ws)) {
      forall i | 0 <= i < |ws| ensures ws[i].Exited? { assert NotifyAll(ws)[i].Exited?; }
    }
  }

  lemma MutexWorker(s: State, i: nat)
    requires MutexOk(s) && Enabled(s, WorkerStep(i))
    ensures MutexOk(WorkerNext(s, i))
  {
  }

  lemma MutexTaskNotifies(s: State, i: nat)
    requires MutexOk(s) && Enabled(s, TaskCallStep(i)) && s.workers[i].call.Notifying?
    ensures MutexOk(Step(s, TaskCallStep(i)))
  {
    NotifyAllFacts(s.workers);
  }

  lemma MutexTaskCall(s: State, i: nat)
    requires MutexOk(s) && Enabled(s, TaskCallStep(i)) && !s.workers[i].call.Notifying?
    ensures MutexOk(Step(s, TaskCallStep(i)))
  {
  }

  lemma MutexClientNotifies(s: State, j: nat)
    requires MutexOk(s) && Enabled(s, ClientStep(j)) && s.clients[j].Notifying?
    ensures MutexOk(Step(s, ClientStep(j)))
  {
    NotifyAllFacts(s.workers);
  }

  lemma MutexClient(s: State, j: nat)
    requires MutexOk(s) && Enabled(s, ClientStep(j)) && !s.clients[j].Notifying?
    ensures MutexOk(Step(s, ClientStep(j)))
  {
  }

  lemma MutexDestructor(s: State)
    requires MutexOk(s) && Enabled(s, DestructorStep)
    ensures MutexOk(Step(s, DestructorStep))
  {
    NotifyAllFacts(s.workers);
  }

  lemma MutexStep(s: State, a: Action)
    requires MutexOk(s) && Enabled(s, a)
    ensures MutexOk(Step(s, a))
  {
    match a {
      case WorkerStep(i) => MutexWorker(s, i);
      case TaskCallStep(i) => if s.workers[i].call.Notifying? { MutexTaskNotifies(s, i); } else { MutexTaskCall(s, i); }
      case ClientStep(j) => if s.clients[j].Notifying? { MutexClientNotifies(s, j); } else { MutexClient(s, j); }
      case DestructorStep => MutexDestructor(s);
      case _ =>
    }
  }

  lemma FindingsWorker(s: State, i: nat)
    requires MutexOk(s) && FindingsOk(s) && Enabled(s, WorkerStep(i))
    ensures FindingsOk(WorkerNext(s, i))
  {
    var w := s.workers[i];
    if !w.Acquiring? { assert WorkerHolds(w); }
  }

  lemma FindingsTaskCall(s: State, i: nat)
    requires MutexOk(s) && FindingsOk(s) && Enabled(s, TaskCallStep(i))
    ensures FindingsOk(Step(s, TaskCallStep(i)))
  {
    NotifyAllFacts(s.workers);
  }

  lemma FindingsClient(s: State, j: nat)
    requires MutexOk(s) && FindingsOk(s) && Enabled(s, ClientStep(j))
    ensures FindingsOk(Step(s, ClientStep(j)))
  {
    NotifyAllFacts(s.workers);
  }

  lemma FindingsDestructor(s: State)
    requires MutexOk(s) && FindingsOk(s) && Enabled(s, DestructorStep)
    ensures FindingsOk(Step(s, DestructorStep))
  {
    NotifyAllFacts(s.workers);
  }

  lemma FindingsStep(s: State, a: Action)
    requires MutexOk(s) && FindingsOk(s) && Enabled(s, a)
    ensures FindingsOk(Step(s, a))
  {
    match a {
      case WorkerStep(i) => FindingsWorker(s, i);
      case TaskCallStep(i) => FindingsTaskCall(s, i);
      case ClientStep(j) => FindingsClient(s, j);
      case DestructorStep => FindingsDestructor(s);
      case _ =>
    }
  }

  lemma WakeupWorker(s: State, i: nat)
    requires NoLostWakeup(s) && Enabled(s, WorkerStep(i))
    ensures NoLostWakeup(WorkerNext(s, i))
  {
    var s' := WorkerNext(s, i);
    if SomeoneWaits(s') && WorkToDo(s') {
      var m :| 0 <= m < |s'.workers| && s'.workers[m].Waiting?;
      assert m != i && s.workers[m].Waiting?;
      if n :| 0 <= n < |s.workers| && WorkerNotifies(s.workers[n]) {
        assert WorkerNotifies(s'.workers[n]);
      }
    }
  }

  lemma WakeupTaskCall(s: State, i: nat)
    requires NoLostWakeup(s) && Enabled(s, TaskCallStep(i))
    ensures NoLostWakeup(Step(s, TaskCallStep(i)))
  {
    NotifyAllFacts(s.workers);
    var s' := Step(s, TaskCallStep(i));
    if SomeoneWaits(s') && WorkToDo(s') {
      var m :| 0 <= m < |s'.workers| && s'.workers[m].Waiting?;
      assert m != i && s.workers[m].Waiting?;
      if s'.workers[i].call.Unlocking? || s'.workers[i].call.Notifying? {
        assert WorkerNotifies(s'.workers[i]);
      } else if n :| 0 <= n < |s.workers| && WorkerNotifies(s.workers[n]) {
        assert WorkerNotifies(s'.workers[n]);
      }
    }
  }

  lemma WakeupClient(s: State, j: nat)
    requires NoLostWakeup(s) && Enabled(s, ClientStep(j))
    ensures NoLostWakeup(Step(s, ClientStep(j)))
  {
    NotifyAllFacts(s.workers);
    var s' := Step(s, ClientStep(j));
    if SomeoneWaits(s') && WorkToDo(s') {
      var m :| 0 <= m < |s'.workers| && s'.workers[m].Waiting?;
      assert s.workers[m].Waiting?;
      if CallNotifies(s'.clients[j]) {
      } else if n :| 0 <= n < |s.workers| && WorkerNotifies(s.workers[n]) {
        assert WorkerNotifies(s'.workers[n]);
      } else if n :| 0 <= n < |s.clients| && CallNotifies(s.clients[n]) {
        assert CallNotifies(s'.clients[n]);
      }
    }
  }

  lemma WakeupOther(s: State, a: Action)
    requires NoLostWakeup(s) && FindingsOk(s) && Enabled(s, a) && !a.WorkerStep? && !a.TaskCallStep? && !a.ClientStep?
    ensures NoLostWakeup(Step(s, a))
  {
    NotifyAllFacts(s.workers);
    var s' := Step(s, a);
    if SomeoneWaits(s') && WorkToDo(s') {
      var m :| 0 <= m < |s'.workers| && s'.workers[m].Waiting?;
      assert s.workers[m].Waiting?;
      if s'.destructor.DUnlocking? || s'.destructor.DNotifying? {
      } else if n :| 0 <= n < |s.workers| && WorkerNotifies(s.workers[n]) {
        assert WorkerNotifies(s'.workers[n]);
      } else if n :| 0 <= n < |s.clients| && CallNotifies(s.clients[n]) {
        assert CallNotifies(s'.clients[n]);
      }
    }
  }

  lemma WakeupStep(s: State, a: Action)
    requires FindingsOk(s) && NoLostWakeup(s) && Enabled(s, a)
    ensures NoLostWakeup(Step(s, a))
  {
    match a {
      case WorkerStep(i) => WakeupWorker(s, i);
      case TaskCallStep(i) => WakeupTaskCall(s, i);
      case ClientStep(j) => WakeupClient(s, j);
      case _ => WakeupOther(s, a);
    }
  }

  /** No step but popping and returning touches the positions that workers hold. */
  lemma TasksQuiet(s: State, s': State)
    requires TasksOk(s) && s'.popped == s.popped && s'.done == s.done && s'.accepted == s'.popped + s'.queue
    requires |s'.workers| == |s.workers|
    requires forall i, k: nat :: 0 <= i < |s.workers| ==> (Holds(s'.workers[i], k) <==> Holds(s.workers[i], k))
    ensures TasksOk(s')
  {
    forall k: nat | k < |s.popped| && k !in s.done
      ensures exists m :: 0 <= m < |s'.workers| && Holds(s'.workers[m], k)
    {
      var m :| 0 <= m < |s.workers| && Holds(s.workers[m], k);
      assert Holds(s'.workers[m], k);
    }
  }

  lemma TasksPop(s: State, i: nat)
    requires FindingsOk(s) && TasksOk(s) && i < |s.workers| && s.workers[i].Popping?
    ensures TasksOk(WorkerNext(s, i))
  {
    var s' := WorkerNext(s, i);
    var n := |s.popped|;
    assert s'.popped == s.popped + [s.queue[0]] && s'.queue == s.queue[1..] && s'.done == s.done;
    assert s'.accepted == s'.popped + s'.queue;
    forall k: nat | k < |s'.popped| && k !in s'.done
      ensures exists m :: 0 <= m < |s'.workers| && Holds(s'.workers[m], k)
    {
      if k == n {
        assert Holds(s'.workers[i], k);
      } else {
        var m :| 0 <= m < |s.workers| && Holds(s.workers[m], k);
        assert Holds(s'.workers[m], k);
      }
    }
    forall m, k: nat | 0 <= m < |s'.workers| && Holds(s'.workers[m], k)
      ensures k < |s'.popped|
      ensures k !in s'.done
      ensures m == i <==> k == n
    {
      if m != i {
        assert Holds(s.workers[m], k);
      } else {
        assert k == n;
      }
    }
  }

  lemma TasksReturn(s: State, i: nat)
    requires TasksOk(s) && Enabled(s, TaskReturns(i))
    ensures TasksOk(Step(s, TaskReturns(i)))
  {
    var s' := Step(s, TaskReturns(i));
    var n := s.workers[i].k;
    assert Holds(s.workers[i], n);
    assert s'.done == s.done + [n];
    assert forall k :: k in s'.done <==> k in s.done || k == n;
    forall k: nat | k < |s.popped| && k !in s'.done
      ensures exists m :: 0 <= m < |s'.workers| && Holds(s'.workers[m], k)
    {
      var m :| 0 <= m < |s.workers| && Holds(s.workers[m], k);
      assert Holds(s'.workers[m], k);
    }
    forall m, k: nat | 0 <= m < |s'.workers| && Holds(s'.workers[m], k) ensures k < |s.popped| && k !in s'.done {
      assert m != i && Holds(s.workers[m], k);
    }
  }

  lemma TasksWorker(s: State, i: nat)
    requires TasksOk(s) && Enabled(s, WorkerStep(i)) && !s.workers[i].Popping?
    ensures TasksOk(WorkerNext(s, i))
  {
    TasksQuiet(s, WorkerNext(s, i));
  }

  lemma TasksCall(s: State, t: Thread, call: Sched)
    requires TasksOk(s)
    ensures TasksOk(CallEffect(s, t, call)) && |CallEffect(s, t, call).workers| == |s.workers|
    ensures CallEffect(s, t, call).popped == s.popped && CallEffect(s, t, call).done == s.done
  {
    NotifyAllFacts(s.workers);
    TasksQuiet(s, CallEffect(s, t, call));
  }

  lemma TasksTaskCall(s: State, i: nat)
    requires TasksOk(s) && Enabled(s, TaskCallStep(i))
    ensures TasksOk(Step(s, TaskCallStep(i)))
  {
    NotifyAllFacts(s.workers);
    TasksCall(s, W(i), s.workers[i].call);
    TasksQuiet(CallEffect(s, W(i), s.workers[i].call), Step(s, TaskCallStep(i)));
  }

  lemma TasksStep(s: State, a: Action)
    requires FindingsOk(s) && TasksOk(s) && Enabled(s, a)
    ensures TasksOk(Step(s, a))
  {
    match a {
      case WorkerStep(i) => if s.workers[i].Popping? { TasksPop(s, i); } else { TasksWorker(s, i); }
      case TaskReturns(i) => TasksReturn(s, i);
      case TaskCallStep(i) => TasksTaskCall(s, i);
      case ClientStep(j) =>
        TasksCall(s, C(j), s.clients[j]);
        TasksQuiet(CallEffect(s, C(j), s.clients[j]), Step(s, a));
      case _ =>
        NotifyAllFacts(s.workers);
        TasksQuiet(s, Step(s, a));
    }
  }

  lemma LateWorker(s: State, i: nat)
    requires LateOk(s) && Enabled(s, WorkerStep(i))
    ensures LateOk(WorkerNext(s, i))
  {
    var s' := WorkerNext(s, i);
    assert !s.workers[i].Exited?;
    if !s'.workers[i].Exited? { assert !AllExited(s'.workers); }
  }

  lemma LateStep(s: State, a: Action)
    requires FindingsOk(s) && LateOk(s) && Enabled(s, a)
    ensures LateOk(Step(s, a))
  {
    NotifyAllFacts(s.workers);
    if a.WorkerStep? {
      LateWorker(s, a.i);
    } else if a.SpuriousWake? || a.TaskSchedules? || a.TaskCallStep? || a.TaskReturns? {
      assert !s.workers[a.i].Exited? && !Step(s, a).workers[a.i].Exited?;
      assert !AllExited(Step(s, a).workers);
    }
  }

  lemma StepKeeps(s: State, a: Action)
    requires Inv(s) && Enabled(s, a)
    ensures Inv(Step(s, a))
  {
    MutexStep(s, a);
    FindingsStep(s, a);
    WakeupStep(s, a);
    TasksStep(s, a);
    LateStep(s, a);
  }

  lemma {:induction false} RunKeeps(s0: State, acts: seq<Action>, s: State)
    requires Inv(s0) && Run(s0, acts) == Some(s)
    ensures Inv(s)
    decreases |acts|
  {
    if acts != [] {
      var before := LastStep(s0, acts, s);
      RunKeeps(s0, acts[..|acts| - 1], before);
      StepKeeps(before, acts[|acts| - 1]);
    }
  }

  lemma ReachableInv(capacity: nat, workers: nat, clients: nat, acts: seq<Action>, s: State)
    requires Reaches(capacity, workers, clients, acts, s)
    ensures Inv(s)
  {
    RunKeeps(Init(capacity, workers, clients), acts, s);
  }

  // ------------------------------------------------------------------ safety of every run

  /** A spurious wake-up with nothing to do leaves no trace: the worker tests again and waits again. */
  lemma SpuriousWakeIsHarmless(s: State, i: nat)
    requires i < |s.workers| && s.workers[i].Waiting? && s.lock == None && s.queue == [] && s.isRunning
    ensures Enabled(s, SpuriousWake(i))
    ensures var s1 := Step(s, SpuriousWake(i));
            Enabled(s1, WorkerStep(i))
            && var s2 := Step(s1, WorkerStep(i)); Enabled(s2, WorkerStep(i)) && Step(s2, WorkerStep(i)) == s
  {
    var s3 := Step(Step(Step(s, SpuriousWake(i)), WorkerStep(i)), WorkerStep(i));
    assert s3.workers == s.workers;
  }

  /** No lost wake-up: whenever a worker waits although there is work or the pool is shutting down,
      some thread is still on its way to notify_all. */
  lemma WaitersAreWoken(capacity: nat, workers: nat, clients: nat, acts: seq<Action>, s: State)
    requires Reaches(capacity, workers, clients, acts, s)
    ensures SomeoneWaits(s) && (s.queue != [] || !s.isRunning) ==> NotifyPending(s)
  {
    ReachableInv(capacity, workers, clients, acts, s);
  }

  /** Tasks are popped in the order in which they were scheduled, none is lost or handed to two
      workers, and every popped task is running or has returned, once. */
  lemma TasksAreConserved(capacity: nat, workers: nat, clients: nat, acts: seq<Action>, s: State)
    requires Reaches(capacity, workers, clients, acts, s)
    ensures s.accepted == s.popped + s.queue && |s.queue| <= s.capacity
    ensures HeldOnce(s.workers) && NoDuplicates(s.done) && AllBelow(s.done, |s.popped|)
    ensures HeldPending(s.workers, |s.popped|, s.done) && NoneForgotten(s.workers, |s.popped|, s.done)
  {
    ReachableInv(capacity, workers, clients, acts, s);
  }

  /** The push in schedule_task always finds room, and pop().value() is never taken on an empty
      queue, although the tests were made in earlier steps. */
  lemma CriticalSectionsAreSafe(capacity: nat, workers: nat, clients: nat, acts: seq<Action>, s: State)
    requires Reaches(capacity, workers, clients, acts, s)
    ensures forall j :: 0 <= j < |s.clients| && s.clients[j].Pushing? ==>
              Step(s, ClientStep(j)).queue == s.queue + [s.clients[j].task]
    ensures forall i :: 0 <= i < |s.workers| && s.workers[i].Running? && s.workers[i].call.Pushing? ==>
              Step(s, TaskCallStep(i)).queue == s.queue + [s.workers[i].call.task]
    ensures forall i :: 0 <= i < |s.workers| && s.workers[i].Popping? ==>
              Oldest(s.queue).Some? && Step(s, WorkerStep(i)).popped == s.popped + [Oldest(s.queue).value]
  {
    ReachableInv(capacity, workers, clients, acts, s);
  }

  /** A worker exits only when the pool is shutting down and the queue is empty. */
  lemma ExitMeansDrained(s: State, a: Action, i: nat)
    requires Enabled(s, a) && i < |s.workers| && !s.workers[i].Exited? && Step(s, a).workers[i].Exited?
    ensures !s.isRunning && s.queue == []
  {
    if a.TaskCallStep? || a.ClientStep? || a.DestructorStep? { NotifyAllFacts(s.workers); }
  }

  lemma HistoriesGrow(s: State, a: Action)
    requires Enabled(s, a)
    ensures s.accepted <= Step(s, a).accepted && s.popped <= Step(s, a).popped
    ensures |Step(s, a).workers| == |s.workers| && (!s.isRunning ==> !Step(s, a).isRunning)
    ensures Step(s, a).capacity == s.capacity
  {
  }

  /** No worker leaves a task behind: along every run, when a worker has exited, the pool is shutting
      down and every task that was accepted while this worker was still there has been popped. */
  lemma {:induction false} ExitLeavesNothingBehind(s0: State, acts: seq<Action>, s: State, i: nat)
    requires Inv(s0) && Run(s0, acts) == Some(s)
    requires i < |s0.workers| && !s0.workers[i].Exited?
    ensures s0.accepted <= s.accepted && |s.workers| == |s0.workers|
    ensures s.workers[i].Exited? ==> !s.isRunning && s0.accepted <= s.popped
    decreases |acts|
  {
    if acts != [] {
      var a := acts[|acts| - 1];
      var before := LastStep(s0, acts, s);
      ExitLeavesNothingBehind(s0, acts[..|acts| - 1], before, i);
      HistoriesGrow(before, a);
      if s.workers[i].Exited? && !before.workers[i].Exited? {
        ExitMeansDrained(before, a, i);
        RunKeeps(s0, acts[..|acts| - 1], before);
      }
    }
  }

  /** Draining shutdown.  Once all workers have exited, what is left in the queue is exactly what was
      pushed after the last exit; everything accepted before has been run, and once. */
  lemma DrainedExactly(capacity: nat, workers: nat, clients: nat, acts: seq<Action>, s: State)
    requires Reaches(capacity, workers, clients, acts, s) && AllExited(s.workers)
    ensures s.queue == s.late && s.accepted == s.popped + s.late
    ensures forall k: nat :: k < |s.popped| <==> k in s.done
    ensures NoDuplicates(s.done)
  {
    ReachableInv(capacity, workers, clients, acts, s);
    assert forall i, k: nat :: 0 <= i < |s.workers| ==> !Holds(s.workers[i], k);
  }

  /** Only a thread other than the workers can push late: while a worker runs a task, not all have
      exited. */
  lemma LatePushesAreForeign(s: State, a: Action)
    requires Enabled(s, a) && Step(s, a).late != s.late
    ensures a.ClientStep? && s.clients[a.j].Pushing? && AllExited(s.workers)
  {
  }

  /** After the destructor cleared is_running, only tasks that run on workers push. */
  ghost predicate NoForeignPushAfterStop(s0: State, acts: seq<Action>) {
    forall k :: 0 <= k < |acts| && acts[k].ClientStep? && Run(s0, acts[..k]).Some? ==>
      var t := Run(s0, acts[..k]).value;
      acts[k].j < |t.clients| && t.clients[acts[k].j].Pushing? ==> t.isRunning
  }

  lemma {:induction false} NothingIsLate(capacity: nat, workers: nat, clients: nat, acts: seq<Action>, s: State)
    requires Reaches(capacity, workers, clients, acts, s) && workers > 0
    requires NoForeignPushAfterStop(Init(capacity, workers, clients), acts)
    ensures s.late == [] && |s.workers| == workers
    decreases |acts|
  {
    var s0 := Init(capacity, workers, clients);
    if acts != [] {
      var prefix, a := acts[..|acts| - 1], acts[|acts| - 1];
      var before := LastStep(s0, acts, s);
      forall k | 0 <= k < |prefix| ensures prefix[..k] == acts[..k] {}
      NothingIsLate(capacity, workers, clients, prefix, before);
      ReachableInv(capacity, workers, clients, prefix, before);
      NotifyAllFacts(before.workers);
      assert before.isRunning ==> !before.workers[0].Exited?;
      if s.late != before.late {
        LatePushesAreForeign(before, a);
      }
    }
  }

  /** If no foreign thread pushes after the stop, then once all workers have exited the queue is empty
      and every task that was ever accepted has been run, exactly once. */
  lemma EverythingWasRun(capacity: nat, workers: nat, clients: nat, acts: seq<Action>, s: State)
    requires Reaches(capacity, workers, clients, acts, s) && workers > 0 && AllExited(s.workers)
    requires NoForeignPushAfterStop(Init(capacity, workers, clients), acts)
    ensures s.queue == [] && s.popped == s.accepted
    ensures forall k: nat :: k < |s.accepted| <==> k in s.done
    ensures NoDuplicates(s.done)
  {
    NothingIsLate(capacity, workers, clients, acts, s);
    DrainedExactly(capacity, workers, clients, acts, s);
  }
}
