/**
  When queued work can still be popped.  Tasks may call schedule_task, which waits inside the worker
  until there is room.  If that blocks every worker on a full queue, the pool never moves again;
  `PopPossibleIff` shows that this is the only way in which queued work gets stuck.
*/
module ThreadPoolProgress {
  import opened Wrappers
  import opened ThreadPool

  /** The task on this worker waits for room in the queue. */
  predicate Blocked(s: State, w: Worker) {
    && w.Running?
    && (w.call.Locking? || w.call.BackingOff? || (w.call.Testing? && |s.queue| == s.capacity))
  }

  /** A client holds the mutex and is bound to push before it gives it back. */
  predicate ClientWillPush(s: State) {
    && s.lock.Some? && s.lock.value.C? && s.lock.value.j < |s.clients|
    && (var call := s.clients[s.lock.value.j];
        call.Pushing? || (call.Testing? && |s.queue| < s.capacity))
  }

  /** The cells of the queue that are taken or as good as taken. */
  function Claimed(s: State): nat {
    |s.queue| + (if ClientWillPush(s) then 1 else 0)
  }

  predicate OutOfAction(s: State, w: Worker) {
    w.Exited? || Blocked(s, w)
  }

  /** No worker is left, or all that are left wait for room that nobody can make. */
  ghost predicate Stuck(s: State) {
    && (forall i :: 0 <= i < |s.workers| ==> OutOfAction(s, s.workers[i]))
    && (AllExited(s.workers) || Claimed(s) == s.capacity)
  }

  ghost predicate NoSpuriousWake(acts: seq<Action>) {
    forall a :: a in acts ==> !a.SpuriousWake?
  }

  // ------------------------------------------------------------------ stuck for ever

  lemma StuckWorkerStep(s: State, a: Action)
    requires Inv(s) && Stuck(s) && Enabled(s, a)
    requires a.WorkerStep? || a.SpuriousWake? || a.TaskSchedules? || a.TaskCallStep? || a.TaskReturns?
    ensures Stuck(Step(s, a)) && Step(s, a).popped == s.popped
    ensures !AllExited(s.workers) ==> !AllExited(Step(s, a).workers)
  {
    assert OutOfAction(s, s.workers[a.i]);
    var s' := Step(s, a);
    assert a.TaskCallStep? && !s'.workers[a.i].Exited?;
    forall m | 0 <= m < |s'.workers| ensures OutOfAction(s', s'.workers[m]) {
      assert OutOfAction(s, s.workers[m]);
    }
  }

  lemma StuckOtherStep(s: State, a: Action)
    requires Inv(s) && Stuck(s) && Enabled(s, a)
    requires a.ClientSchedules? || a.ClientStep? || a.Destroy? || a.DestructorStep?
    ensures Stuck(Step(s, a)) && Step(s, a).popped == s.popped
    ensures !AllExited(s.workers) ==> !AllExited(Step(s, a).workers)
  {
    NotifyAllFacts(s.workers);
    var s' := Step(s, a);
    forall m | 0 <= m < |s'.workers| ensures s'.workers[m] == s.workers[m] && OutOfAction(s', s'.workers[m]) {
      assert OutOfAction(s, s.workers[m]);
    }
    assert s'.workers == s.workers;
  }

  lemma {:induction false} StuckForEver(s: State, acts: seq<Action>, s': State)
    requires Inv(s) && Stuck(s) && Run(s, acts) == Some(s')
    ensures Stuck(s') && s'.popped == s.popped && (!AllExited(s.workers) ==> !AllExited(s'.workers))
    decreases |acts|
  {
    if acts != [] {
      var a := acts[|acts| - 1];
      var before := LastStep(s, acts, s');
      StuckForEver(s, acts[..|acts| - 1], before);
      RunKeeps(s, acts[..|acts| - 1], before);
      if a.ClientSchedules? || a.ClientStep? || a.Destroy? || a.DestructorStep? {
        StuckOtherStep(before, a);
      } else {
        StuckWorkerStep(before, a);
      }
    }
  }

  // ------------------------------------------------------------------ a way to the next pop

  /** s is reached from s0 without a pop and without spurious wake-ups, and work is queued. */
  ghost predicate Underway(s0: State, acts: seq<Action>, s: State) {
    Run(s0, acts) == Some(s) && Inv(s) && NoSpuriousWake(acts) && s.popped == s0.popped && s.queue != []
  }

  ghost predicate Popped(s0: State, acts: seq<Action>) {
    Run(s0, acts).Some? && NoSpuriousWake(acts) && |Run(s0, acts).value.popped| > |s0.popped|
  }

  lemma Go(s0: State, acts: seq<Action>, s: State, a: Action)
    requires Underway(s0, acts, s) && Enabled(s, a) && !a.SpuriousWake?
    ensures var s' := Step(s, a);
            if s'.popped == s.popped && s'.queue != [] then Underway(s0, acts + [a], s')
            else Run(s0, acts + [a]) == Some(s')
    ensures NoSpuriousWake(acts + [a])
  {
    assert (acts + [a])[..|acts + [a]| - 1] == acts;
    StepKeeps(s, a);
  }

  lemma PopFromAcquiring(s0: State, acts: seq<Action>, s: State, i: nat) returns (acts': seq<Action>)
    requires Underway(s0, acts, s) && s.lock == None && i < |s.workers| && s.workers[i].Acquiring?
    ensures Popped(s0, acts')
  {
    var a := WorkerStep(i);
    Go(s0, acts, s, a);
    var s1 := Step(s, a);
    Go(s0, acts + [a], s1, a);
    var s2 := Step(s1, a);
    Go(s0, acts + [a] + [a], s2, a);
    var s3 := Step(s2, a);
    Go(s0, acts + [a] + [a] + [a], s3, a);
    acts' := acts + [a] + [a] + [a] + [a];
  }

  lemma PopFromReturn(s0: State, acts: seq<Action>, s: State, i: nat) returns (acts': seq<Action>)
    requires Underway(s0, acts, s) && s.lock == None
    requires i < |s.workers| && s.workers[i].Running? && s.workers[i].call.Out?
    ensures Popped(s0, acts')
  {
    Go(s0, acts, s, TaskReturns(i));
    acts' := PopFromAcquiring(s0, acts + [TaskReturns(i)], Step(s, TaskReturns(i)), i);
  }

  lemma PopFromNotifying(s0: State, acts: seq<Action>, s: State, i: nat) returns (acts': seq<Action>)
    requires Underway(s0, acts, s) && s.lock == None
    requires i < |s.workers| && s.workers[i].Running? && s.workers[i].call.Notifying?
    ensures Popped(s0, acts')
  {
    NotifyAllFacts(s.workers);
    Go(s0, acts, s, TaskCallStep(i));
    acts' := PopFromReturn(s0, acts + [TaskCallStep(i)], Step(s, TaskCallStep(i)), i);
  }

  lemma PopFromPushing(s0: State, acts: seq<Action>, s: State, i: nat) returns (acts': seq<Action>)
    requires Underway(s0, acts, s) && |s.queue| < s.capacity
    requires i < |s.workers| && s.workers[i].Running? && s.workers[i].call.Pushing?
    ensures Popped(s0, acts')
  {
    var a := TaskCallStep(i);
    Go(s0, acts, s, a);
    var s1 := Step(s, a);
    Go(s0, acts + [a], s1, a);
    acts' := PopFromNotifying(s0, acts + [a] + [a], Step(s1, a), i);
  }

  lemma PopFromLocking(s0: State, acts: seq<Action>, s: State, i: nat) returns (acts': seq<Action>)
    requires Underway(s0, acts, s) && s.lock == None && |s.queue| < s.capacity
    requires i < |s.workers| && s.workers[i].Running? && s.workers[i].call.Locking?
    ensures Popped(s0, acts')
  {
    var a := TaskCallStep(i);
    Go(s0, acts, s, a);
    var s1 := Step(s, a);
    Go(s0, acts + [a], s1, a);
    acts' := PopFromPushing(s0, acts + [a] + [a], Step(s1, a), i);
  }

  lemma PopFromBackingOff(s0: State, acts: seq<Action>, s: State, i: nat) returns (acts': seq<Action>)
    requires Underway(s0, acts, s) && s.lock == None && |s.queue| < s.capacity
    requires i < |s.workers| && s.workers[i].Running? && s.workers[i].call.BackingOff?
    ensures Popped(s0, acts')
  {
    Go(s0, acts, s, TaskCallStep(i));
    acts' := PopFromLocking(s0, acts + [TaskCallStep(i)], Step(s, TaskCallStep(i)), i);
  }

  /** A waiting worker needs no spurious wake-up: the pending notify_all wakes it. */
  lemma PopFromWaiting(s0: State, acts: seq<Action>, s: State, i: nat) returns (acts': seq<Action>)
    requires Underway(s0, acts, s) && s.lock == None && i < |s.workers| && s.workers[i].Waiting?
    ensures Popped(s0, acts')
  {
    NotifyAllFacts(s.workers);
    assert SomeoneWaits(s) && NotifyPending(s);
    var a: Action;
    if n :| 0 <= n < |s.workers| && WorkerNotifies(s.workers[n]) {
      a := TaskCallStep(n);
    } else if n :| 0 <= n < |s.clients| && CallNotifies(s.clients[n]) {
      a := ClientStep(n);
    } else {
      a := DestructorStep;
    }
    Go(s0, acts, s, a);
    acts' := PopFromAcquiring(s0, acts + [a], Step(s, a), i);
  }

  lemma PopWhenFree(s0: State, acts: seq<Action>, s: State) returns (acts': seq<Action>)
    requires Underway(s0, acts, s) && s.lock == None && !Stuck(s)
    ensures Popped(s0, acts')
  {
    if i :| 0 <= i < |s.workers| && !OutOfAction(s, s.workers[i]) {
      assert !WorkerHolds(s.workers[i]);
      match s.workers[i] {
        case Acquiring => acts' := PopFromAcquiring(s0, acts, s, i);
        case Waiting => acts' := PopFromWaiting(s0, acts, s, i);
        case Running(_, call) =>
          if call.Out? { acts' := PopFromReturn(s0, acts, s, i); } else { acts' := PopFromNotifying(s0, acts, s, i); }
      }
    } else {
      var i :| 0 <= i < |s.workers| && !s.workers[i].Exited?;
      assert OutOfAction(s, s.workers[i]) && !WorkerHolds(s.workers[i]);
      if s.workers[i].call.Locking? {
        acts' := PopFromLocking(s0, acts, s, i);
      } else {
        acts' := PopFromBackingOff(s0, acts, s, i);
      }
    }
  }

  // ------------------------------------------------------------------ the owner of the mutex first

  function CallRank(call: Sched): nat {
    if call.Testing? then 3 else if call.Pushing? then 2 else if call.Unlocking? then 1 else 0
  }

  /** How many steps the owner of the mutex takes at most until it gives it back. */
  function HolderRank(s: State): nat {
    match s.lock
    case None => 0
    case Some(W(i)) =>
      if i >= |s.workers| then 0
      else (match s.workers[i]
            case Checking => 3
            case Deciding => 2
            case Popping => 1
            case Leaving(_) => 1
            case Running(_, call) => CallRank(call)
            case _ => 0)
    case Some(C(j)) => if j < |s.clients| then CallRank(s.clients[j]) else 0
    case Some(D) => if s.destructor.Setting? then 2 else 1
  }

  function HolderAction(s: State): Action
    requires s.lock.Some?
  {
    match s.lock.value
    case W(i) => if i < |s.workers| && s.workers[i].Running? then TaskCallStep(i) else WorkerStep(i)
    case C(j) => ClientStep(j)
    case D => DestructorStep
  }

  lemma WorkerHolderStep(s: State, i: nat)
    requires Inv(s) && s.lock == Some(W(i)) && s.queue != [] && !Stuck(s)
    ensures var a := HolderAction(s);
            && Enabled(s, a) && !a.SpuriousWake?
            && (|Step(s, a).popped| > |s.popped|
                || (Step(s, a).popped == s.popped && Step(s, a).queue != [] && !Stuck(Step(s, a))
                    && (Step(s, a).lock == None || HolderRank(Step(s, a)) < HolderRank(s))))
  {
    var a := HolderAction(s);
    var s' := Step(s, a);
    if Blocked(s, s.workers[i]) {
      assert Claimed(s) == |s.queue| == s.capacity;
      var m :| 0 <= m < |s.workers| && !OutOfAction(s, s.workers[m]);
      assert !OutOfAction(s', s'.workers[m]);
    } else {
      assert !OutOfAction(s', s'.workers[i]) || s'.popped != s.popped;
    }
  }

  lemma OtherHolderStep(s: State)
    requires Inv(s) && s.lock.Some? && !s.lock.value.W?
    ensures var a := HolderAction(s);
            && Enabled(s, a) && !a.SpuriousWake?
            && Step(s, a).popped == s.popped && (s.queue != [] ==> Step(s, a).queue != [])
            && Step(s, a).workers == s.workers && (Stuck(Step(s, a)) <==> Stuck(s))
            && (Step(s, a).lock == None || HolderRank(Step(s, a)) < HolderRank(s))
  {
    var a := HolderAction(s);
    var s' := Step(s, a);
    assert s'.workers == s.workers && Claimed(s') == Claimed(s) && s'.capacity == s.capacity;
    forall i | 0 <= i < |s.workers| ensures OutOfAction(s', s'.workers[i]) <==> OutOfAction(s, s.workers[i]) {
      assert !WorkerHolds(s.workers[i]);
    }
  }

  lemma {:induction false} PopReachable(s0: State, acts: seq<Action>, s: State) returns (acts': seq<Action>)
    requires Underway(s0, acts, s) && !Stuck(s)
    ensures Popped(s0, acts')
    decreases HolderRank(s), if s.lock.Some? then 1 else 0
  {
    if s.lock == None {
      acts' := PopWhenFree(s0, acts, s);
    } else {
      var a := HolderAction(s);
      if s.lock.value.W? { WorkerHolderStep(s, s.lock.value.i); } else { OtherHolderStep(s); }
      Go(s0, acts, s, a);
      if |Step(s, a).popped| > |s.popped| {
        acts' := acts + [a];
      } else {
        acts' := PopReachable(s0, acts + [a], Step(s, a));
      }
    }
  }

  /** In every reachable state with queued work, some continuation without spurious wake-ups pops a
      task exactly when the pool is not stuck. */
  lemma PopPossibleIff(capacity: nat, workers: nat, clients: nat, acts: seq<Action>, s: State)
    requires Reaches(capacity, workers, clients, acts, s) && s.queue != []
    ensures (exists next :: Popped(s, next)) <==> !Stuck(s)
  {
    ReachableInv(capacity, workers, clients, acts, s);
    if Stuck(s) {
      forall next | Run(s, next).Some? ensures Run(s, next).value.popped == s.popped {
        StuckForEver(s, next, Run(s, next).value);
      }
    } else {
      assert Underway(s, [], s);
      var next := PopReachable(s, [], s);
    }
  }

  /** In particular, if no task body is inside schedule_task and a worker is left, queued work can
      always be popped. */
  lemma PopPossibleWithoutNestedCalls(capacity: nat, workers: nat, clients: nat, acts: seq<Action>, s: State)
    requires Reaches(capacity, workers, clients, acts, s) && s.queue != [] && !AllExited(s.workers)
    requires forall i :: 0 <= i < |s.workers| && s.workers[i].Running? ==> s.workers[i].call.Out?
    ensures exists next :: Popped(s, next)
  {
    var i :| 0 <= i < |s.workers| && !s.workers[i].Exited?;
    assert !OutOfAction(s, s.workers[i]);
    PopPossibleIff(capacity, workers, clients, acts, s);
  }

  // ------------------------------------------------------------------ a pool gets stuck

  /** A pool that runs, with nobody in the mutex, no worker waiting and the first client outside. */
  ghost predicate Calm(s: State, capacity: nat, workers: nat) {
    && s.capacity == capacity && |s.workers| == workers && |s.clients| > 0
    && s.isRunning && s.lock == None && s.clients[0].Out?
    && forall i :: 0 <= i < workers ==> !s.workers[i].Waiting?
  }

  lemma Take(s0: State, acts: seq<Action>, s: State, a: Action) returns (acts': seq<Action>, s': State)
    requires Run(s0, acts) == Some(s) && Enabled(s, a)
    ensures Run(s0, acts') == Some(s') && s' == Step(s, a) && acts' == acts + [a]
  {
    acts', s' := acts + [a], Step(s, a);
    assert acts'[..|acts'| - 1] == acts;
  }

  lemma ClientSchedulesOne(s0: State, acts: seq<Action>, s: State) returns (acts': seq<Action>, s': State)
    requires Run(s0, acts) == Some(s) && Calm(s, s.capacity, |s.workers|) && |s.queue| < s.capacity
    ensures Run(s0, acts') == Some(s') && Calm(s', s.capacity, |s.workers|)
    ensures s'.workers == s.workers && |s'.queue| == |s.queue| + 1
  {
    acts', s' := Take(s0, acts, s, ClientSchedules(0, 0));
    acts', s' := Take(s0, acts', s', ClientStep(0));
    acts', s' := Take(s0, acts', s', ClientStep(0));
    acts', s' := ClientPushesOne(s0, acts', s');
  }

  lemma ClientPushesOne(s0: State, acts: seq<Action>, s: State) returns (acts': seq<Action>, s': State)
    requires Run(s0, acts) == Some(s) && |s.queue| < s.capacity && |s.clients| > 0 && s.clients[0].Pushing?
    requires s.isRunning && forall i :: 0 <= i < |s.workers| ==> !s.workers[i].Waiting?
    ensures Run(s0, acts') == Some(s') && Calm(s', s.capacity, |s.workers|)
    ensures s'.workers == s.workers && |s'.queue| == |s.queue| + 1
  {
    acts', s' := Take(s0, acts, s, ClientStep(0));
    acts', s' := Take(s0, acts', s', ClientStep(0));
    NotifyAllFacts(s'.workers);
    acts', s' := Take(s0, acts', s', ClientStep(0));
  }

  lemma WorkerTakesOne(s0: State, acts: seq<Action>, s: State, i: nat) returns (acts': seq<Action>, s': State)
    requires Run(s0, acts) == Some(s) && Calm(s, s.capacity, |s.workers|) && |s.queue| == 1
    requires i < |s.workers| && s.workers[i].Acquiring?
    ensures Run(s0, acts') == Some(s') && Calm(s', s.capacity, |s.workers|)
    ensures s'.queue == [] && s'.workers == s.workers[i := Running(|s.popped|, Out)]
  {
    acts', s' := Take(s0, acts, s, WorkerStep(i));
    acts', s' := Take(s0, acts', s', WorkerStep(i));
    acts', s' := Take(s0, acts', s', WorkerStep(i));
    acts', s' := Take(s0, acts', s', WorkerStep(i));
    acts', s' := Take(s0, acts', s', WorkerStep(i));
  }

  /** The first m workers run a task each. */
  lemma {:induction false} WorkersAreBusy(capacity: nat, workers: nat, clients: nat, m: nat)
      returns (acts: seq<Action>, s: State)
    requires capacity > 0 && clients > 0 && m <= workers
    ensures Reaches(capacity, workers, clients, acts, s) && Calm(s, capacity, workers) && s.queue == []
    ensures forall i :: 0 <= i < workers ==> if i < m then s.workers[i].Running? && s.workers[i].call.Out?
                                             else s.workers[i].Acquiring?
  {
    var s0 := Init(capacity, workers, clients);
    if m == 0 {
      acts, s := [], s0;
    } else {
      acts, s := WorkersAreBusy(capacity, workers, clients, m - 1);
      acts, s := ClientSchedulesOne(s0, acts, s);
      acts, s := WorkerTakesOne(s0, acts, s, m - 1);
    }
  }

  /** A client fills the queue up to m tasks. */
  lemma {:induction false} QueueIsFilled(s0: State, acts: seq<Action>, s: State, m: nat)
      returns (acts': seq<Action>, s': State)
    requires Run(s0, acts) == Some(s) && Calm(s, s.capacity, |s.workers|) && s.queue == [] && m <= s.capacity
    ensures Run(s0, acts') == Some(s') && Calm(s', s.capacity, |s.workers|)
    ensures s'.workers == s.workers && |s'.queue| == m
  {
    acts', s' := acts, s;
    if m > 0 {
      acts', s' := QueueIsFilled(s0, acts, s, m - 1);
      acts', s' := ClientSchedulesOne(s0, acts', s');
    }
  }

  /** The first m tasks call schedule_task. */
  lemma {:induction false} TasksSchedule(s0: State, acts: seq<Action>, s: State, m: nat)
      returns (acts': seq<Action>, s': State)
    requires Run(s0, acts) == Some(s) && s.lock == None && m <= |s.workers|
    requires forall i :: 0 <= i < |s.workers| ==> s.workers[i].Running? && s.workers[i].call.Out?
    ensures Run(s0, acts') == Some(s') && s' == s.(workers := s'.workers) && |s'.workers| == |s.workers|
    ensures forall i :: 0 <= i < |s.workers| ==>
              s'.workers[i].Running? && if i < m then s'.workers[i].call.Locking? else s'.workers[i].call.Out?
  {
    acts', s' := acts, s;
    if m > 0 {
      acts', s' := TasksSchedule(s0, acts, s, m - 1);
      acts', s' := Take(s0, acts', s', TaskSchedules(m - 1, 0));
    }
  }

  /** The stuck pool is no theoretical case.  Whatever the numbers of workers and cells, if every
      worker runs a task that calls schedule_task when clients have filled the queue, the pool is
      stuck with queued work. */
  lemma StuckIsReachable(capacity: nat, workers: nat, clients: nat) returns (acts: seq<Action>, s: State)
    requires capacity > 0 && workers > 0 && clients > 0
    ensures Reaches(capacity, workers, clients, acts, s)
    ensures s.isRunning && s.queue != [] && !AllExited(s.workers) && Stuck(s)
  {
    var s0 := Init(capacity, workers, clients);
    acts, s := WorkersAreBusy(capacity, workers, clients, workers);
    acts, s := QueueIsFilled(s0, acts, s, capacity);
    acts, s := TasksSchedule(s0, acts, s, workers);
    assert !s.workers[0].Exited?;
  }
}
