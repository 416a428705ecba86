/**
  When the end of the destructor is inevitable.  Even if nobody calls schedule_task any more, a pool
  can still jam: the workers that are not waiting for room leave or get nothing more to do, and
  pending pushes of clients fill the queue for those that are.  `JamPossibleIff` says from which
  states this can happen.
*/
module ThreadPoolJam {
  import opened Wrappers
  import opened ThreadPool
  import opened ThreadPoolProgress
  import opened ThreadPoolShutdown
  import opened ThreadPoolEnding

  /** The client is inside schedule_task and has not pushed yet. */
  predicate Pends(call: Sched) {
    call.Locking? || call.Testing? || call.BackingOff? || call.Pushing?
  }

  function Pending(calls: seq<Sched>): nat {
    if calls == [] then 0 else (if Pends(calls[0]) then 1 else 0) + Pending(calls[1..])
  }

  /** The pending pushes of clients that have not found room yet. */
  function Uncommitted(s: State): int {
    Pending(s.clients) - if ClientWillPush(s) then 1 else 0
  }

  ghost predicate AllOut(s: State) {
    forall i :: 0 <= i < |s.workers| ==> OutOfAction(s, s.workers[i])
  }

  ghost predicate SomeBlocked(s: State) {
    exists i :: 0 <= i < |s.workers| && Blocked(s, s.workers[i])
  }

  /** A task waits for room, and the pending pushes of clients suffice to fill the queue: what is free
      of it, if no worker is left to take anything out, and all of it otherwise. */
  ghost predicate MayJam(s: State) {
    && SomeBlocked(s)
    && (Uncommitted(s) >= s.capacity || (AllOut(s) && Claimed(s) + Uncommitted(s) >= s.capacity))
  }

  lemma {:induction false} PendingUpdate(calls: seq<Sched>, j: nat, call: Sched)
    requires j < |calls|
    ensures Pending(calls[j := call])
         == Pending(calls) - (if Pends(calls[j]) then 1 else 0) + if Pends(call) then 1 else 0
  {
    var calls' := calls[j := call];
    if j == 0 {
      assert calls'[1..] == calls[1..];
    } else {
      assert calls'[1..] == calls[1..][j - 1 := call];
      PendingUpdate(calls[1..], j - 1, call);
    }
  }

  // ------------------------------------------------------------------ a step makes no jam possible

  predicate IsStepOf(a: Action, i: nat) {
    (a.WorkerStep? || a.SpuriousWake? || a.TaskSchedules? || a.TaskCallStep? || a.TaskReturns?) && a.i == i
  }

  /** What a step of another thread does to a worker: at most, it wakes him up. */
  lemma OthersStep(s: State, a: Action, i: nat)
    requires Inv(s) && Enabled(s, a) && i < |s.workers| && !IsStepOf(a, i)
    ensures |Step(s, a).workers| == |s.workers| && Step(s, a).capacity == s.capacity
    ensures Step(s, a).workers[i] == if s.workers[i].Waiting? then Step(s, a).workers[i] else s.workers[i]
    ensures s.workers[i].Waiting? ==> Step(s, a).workers[i].Waiting? || Step(s, a).workers[i].Acquiring?
  {
    if a.TaskCallStep? || a.ClientStep? || a.DestructorStep? { NotifyAllFacts(s.workers); }
  }

  /** Nobody touches the queue while a worker holds the mutex. */
  lemma OthersLeaveQueue(s: State, a: Action, i: nat)
    requires Inv(s) && Enabled(s, a) && i < |s.workers| && WorkerHolds(s.workers[i]) && !IsStepOf(a, i)
    ensures Step(s, a).queue == s.queue
  {
    assert s.lock == Some(W(i));
  }

  lemma BlockedBefore(s: State, a: Action, i: nat)
    requires Inv(s) && Enabled(s, a) && !Schedules(a) && i < |s.workers|
    ensures |Step(s, a).workers| == |s.workers|
    ensures Blocked(Step(s, a), Step(s, a).workers[i]) ==> Blocked(s, s.workers[i])
  {
    if !IsStepOf(a, i) {
      OthersStep(s, a, i);
      if WorkerHolds(s.workers[i]) { OthersLeaveQueue(s, a, i); }
    } else if a.TaskCallStep? {
      NotifyAllFacts(s.workers);
    }
  }

  lemma UncommittedClient(s: State, j: nat)
    requires Inv(s) && Enabled(s, ClientStep(j))
    ensures Uncommitted(Step(s, ClientStep(j))) <= Uncommitted(s)
    ensures Claimed(Step(s, ClientStep(j))) + Uncommitted(Step(s, ClientStep(j))) == Claimed(s) + Uncommitted(s)
    ensures !s.clients[j].Locking? ==> Uncommitted(Step(s, ClientStep(j))) == Uncommitted(s)
  {
    PendingUpdate(s.clients, j, CallNext(s, s.clients[j]));
  }

  lemma UncommittedOther(s: State, a: Action)
    requires Inv(s) && Enabled(s, a) && !Schedules(a) && !a.ClientStep?
    ensures Step(s, a).clients == s.clients && ClientWillPush(Step(s, a)) == ClientWillPush(s)
    ensures Uncommitted(Step(s, a)) == Uncommitted(s)
  {
  }

  lemma UncommittedStep(s: State, a: Action)
    requires Inv(s) && Enabled(s, a) && !Schedules(a)
    ensures Uncommitted(Step(s, a)) <= Uncommitted(s) && Step(s, a).capacity == s.capacity
    ensures !CallOf(s, a).Locking? ==> Uncommitted(Step(s, a)) == Uncommitted(s)
  {
    if a.ClientStep? { UncommittedClient(s, a.j); } else { UncommittedOther(s, a); }
  }

  /** With all workers out of action, nothing is taken out of the queue, and only clients push. */
  lemma ClaimsWhenOut(s: State, a: Action)
    requires Inv(s) && Enabled(s, a) && !Schedules(a) && AllOut(s)
    ensures Claimed(Step(s, a)) + Uncommitted(Step(s, a)) == Claimed(s) + Uncommitted(s)
  {
    if a.ClientStep? {
      UncommittedClient(s, a.j);
    } else {
      UncommittedOther(s, a);
      if a.WorkerStep? || a.TaskCallStep? || a.TaskReturns? || a.SpuriousWake? {
        assert OutOfAction(s, s.workers[a.i]);
      }
    }
  }

  /** A worker gets out of action only by leaving, which it does with an empty queue. */
  lemma LastOneLeaves(s: State, a: Action)
    requires Inv(s) && Enabled(s, a) && !Schedules(a) && !AllOut(s) && AllOut(Step(s, a))
    ensures Claimed(Step(s, a)) == 0
  {
    var s' := Step(s, a);
    var i :| 0 <= i < |s.workers| && !OutOfAction(s, s.workers[i]);
    BlockedBefore(s, a, i);
    assert OutOfAction(s', s'.workers[i]);
    ExitMeansDrained(s, a, i);
    if !IsStepOf(a, i) { OthersStep(s, a, i); }
  }

  lemma MayJamBefore(s: State, a: Action)
    requires Inv(s) && Enabled(s, a) && !Schedules(a) && MayJam(Step(s, a))
    ensures MayJam(s)
  {
    var s' := Step(s, a);
    var i :| 0 <= i < |s'.workers| && Blocked(s', s'.workers[i]);
    BlockedBefore(s, a, i);
    UncommittedStep(s, a);
    if AllOut(s') && !AllOut(s) {
      LastOneLeaves(s, a);
    } else if AllOut(s) {
      ClaimsWhenOut(s, a);
    }
  }

  // ------------------------------------------------------------------ the way into a jam

  /** A run of allowed steps to a state in which worker i waits for room. */
  ghost predicate Sinking(s0: State, acts: seq<Action>, s: State, i: nat) {
    && Run(s0, acts) == Some(s) && (forall a :: a in acts ==> Allowed(a, false))
    && Inv(s) && s.capacity > 0 && i < |s.workers| && Blocked(s, s.workers[i])
  }

  /** A task that waits for room stays blocked unless it goes for the mutex. */
  lemma BlockedStays(s: State, a: Action, i: nat)
    requires Inv(s) && Enabled(s, a) && i < |s.workers| && Blocked(s, s.workers[i])
    requires a == TaskCallStep(i) ==> s.workers[i].call.Testing?
    ensures |Step(s, a).workers| == |s.workers| && Blocked(Step(s, a), Step(s, a).workers[i])
  {
    if !IsStepOf(a, i) {
      OthersStep(s, a, i);
      if WorkerHolds(s.workers[i]) { OthersLeaveQueue(s, a, i); }
    }
  }

  lemma Sink(s0: State, acts: seq<Action>, s: State, i: nat, a: Action) returns (acts': seq<Action>, s': State)
    requires Sinking(s0, acts, s, i) && Enabled(s, a) && Allowed(a, false)
    requires a == TaskCallStep(i) ==> s.workers[i].call.Testing?
    ensures Sinking(s0, acts', s', i) && s' == Step(s, a)
    ensures !Retry(s, a) ==> Measure(s', false, 1) < Measure(s, false, 1)
  {
    BlockedStays(s, a, i);
    UncommittedStep(s, a);
    StepLowers(s, a, false, 1);
    StepKeeps(s, a);
    acts', s' := Take(s0, acts, s, a);
  }

  /** A step that brings a pool with an active worker nearer to having none. */
  lemma StepToIdle(s: State) returns (a: Action)
    requires Inv(s) && s.capacity > 0 && !AllOut(s)
    ensures Helps(s, a) && !CallOf(s, a).Locking? && !CallOf(s, a).BackingOff?
  {
    if s.lock.Some? {
      a := HolderAction(s);
      if s.lock.value.W? { WorkerOwnerHelps(s, s.lock.value.i); } else { OtherOwnerHelps(s); }
    } else if s.isRunning || s.destructor.DNotifying? {
      a := if s.destructor.NotStarted? then Destroy else DestructorStep;
      DestructorHelps(s, a);
    } else {
      var i :| 0 <= i < |s.workers| && !OutOfAction(s, s.workers[i]);
      a := ActiveWorkerHelps(s, i);
    }
  }

  /** The workers that wait for nothing drain the queue and leave. */
  lemma {:induction false} GetIdle(s0: State, acts: seq<Action>, s: State, i: nat)
      returns (acts': seq<Action>, s': State)
    requires Sinking(s0, acts, s, i) && Uncommitted(s) >= s.capacity
    ensures Sinking(s0, acts', s', i) && Uncommitted(s') >= s'.capacity && AllOut(s')
    decreases if FullTester(s) then 1 else 0, Measure(s, false, 1)
  {
    if AllOut(s) {
      acts', s' := acts, s;
    } else {
      var a := StepToIdle(s);
      UncommittedStep(s, a);
      acts', s' := Sink(s0, acts, s, i, a);
      acts', s' := GetIdle(s0, acts', s', i);
    }
  }

  lemma {:induction false} SomeonePends(calls: seq<Sched>) returns (j: nat)
    requires Pending(calls) > 0
    ensures j < |calls| && Pends(calls[j])
  {
    if Pends(calls[0]) {
      j := 0;
    } else {
      j := SomeonePends(calls[1..]);
      j := j + 1;
    }
  }

  lemma NoWorkerHolds(s: State)
    requires Inv(s) && AllOut(s) && Claimed(s) < s.capacity && s.lock.Some?
    ensures !s.lock.value.W?
  {
    forall i | 0 <= i < |s.workers| ensures !WorkerHolds(s.workers[i]) {
      assert OutOfAction(s, s.workers[i]);
    }
  }

  /** A step that brings the next push of a client nearer. */
  lemma StepToPush(s: State) returns (a: Action)
    requires Inv(s) && AllOut(s) && Claimed(s) < s.capacity <= Claimed(s) + Uncommitted(s)
    ensures Enabled(s, a) && Allowed(a, false) && !Retry(s, a) && (a.ClientStep? || a.DestructorStep?)
  {
    if s.lock.Some? {
      NoWorkerHolds(s);
      a := HolderAction(s);
    } else {
      var j := SomeonePends(s.clients);
      assert !CallHolds(s.clients[j]);
      a := ClientStep(j);
    }
  }

  lemma StaysOut(s: State, a: Action)
    requires Inv(s) && AllOut(s) && Enabled(s, a) && !Retry(s, a) && (a.ClientStep? || a.DestructorStep?)
    requires Claimed(s) < s.capacity
    ensures AllOut(Step(s, a))
  {
    NotifyAllFacts(s.workers);
    forall i | 0 <= i < |s.workers| ensures OutOfAction(Step(s, a), Step(s, a).workers[i]) {
      assert OutOfAction(s, s.workers[i]);
    }
  }

  /** Pending pushes of clients fill the queue. */
  lemma {:induction false} FillUp(s0: State, acts: seq<Action>, s: State, i: nat)
      returns (acts': seq<Action>, s': State)
    requires Sinking(s0, acts, s, i) && AllOut(s) && Claimed(s) + Uncommitted(s) >= s.capacity
    ensures Sinking(s0, acts', s', i) && Jammed(s')
    decreases Measure(s, false, 1)
  {
    if Claimed(s) >= s.capacity {
      acts', s' := acts, s;
    } else {
      var a := StepToPush(s);
      StaysOut(s, a);
      ClaimsWhenOut(s, a);
      UncommittedStep(s, a);
      acts', s' := Sink(s0, acts, s, i, a);
      acts', s' := FillUp(s0, acts', s', i);
    }
  }

  // ------------------------------------------------------------------ the theorems

  /** A continuation without new calls. */
  ghost predicate Continues(s: State, next: seq<Action>) {
    Run(s, next).Some? && forall a :: a in next ==> Allowed(a, true)
  }

  lemma {:induction false} MayJamFromTheStart(s: State, next: seq<Action>, s': State)
    requires Inv(s) && Continues(s, next) && Run(s, next) == Some(s') && MayJam(s')
    ensures MayJam(s)
    decreases |next|
  {
    if next != [] {
      var most := next[..|next| - 1];
      var before := LastStep(s, next, s');
      RunKeeps(s, most, before);
      assert next[|next| - 1] in next;
      MayJamBefore(before, next[|next| - 1]);
      MayJamFromTheStart(s, most, before);
    }
  }

  /** From a reachable state, a run without new calls of schedule_task, spurious wake-ups included, can
      jam the pool if and only if some task waits for room and the clients inside schedule_task can
      fill the queue. */
  lemma JamPossibleIff(capacity: nat, workers: nat, clients: nat, acts: seq<Action>, s: State)
    requires Reaches(capacity, workers, clients, acts, s) && s.capacity > 0
    ensures (exists next :: Continues(s, next) && Jammed(Run(s, next).value)) <==> MayJam(s)
  {
    ReachableInv(capacity, workers, clients, acts, s);
    if MayJam(s) {
      var i :| 0 <= i < |s.workers| && Blocked(s, s.workers[i]);
      var next, s' := [], s;
      if Uncommitted(s) >= s.capacity { next, s' := GetIdle(s, next, s', i); }
      next, s' := FillUp(s, next, s', i);
      assert Continues(s, next);
    } else {
      forall next | Continues(s, next) ensures !Jammed(Run(s, next).value) {
        var s' := Run(s, next).value;
        if Jammed(s') {
          RunKeeps(s, next, s');
          JammedMayJam(s');
          MayJamFromTheStart(s, next, s');
        }
      }
    }
  }

  lemma JammedMayJam(s: State)
    requires Inv(s) && Jammed(s)
    ensures MayJam(s)
  {
    var i :| 0 <= i < |s.workers| && !s.workers[i].Exited?;
    assert OutOfAction(s, s.workers[i]);
    PendingCoversCommitted(s);
  }

  lemma PendingCoversCommitted(s: State)
    ensures Uncommitted(s) >= 0
  {
    if ClientWillPush(s) {
      PendingUpdate(s.clients, s.lock.value.j, Out);
    }
  }

  lemma {:induction false} CapacityStays(s: State, next: seq<Action>, s': State)
    requires Run(s, next) == Some(s')
    ensures s'.capacity == s.capacity
    decreases |next|
  {
    if next != [] {
      var before := LastStep(s, next, s');
      CapacityStays(s, next[..|next| - 1], before);
      HistoriesGrow(before, next[|next| - 1]);
    }
  }

  /** The destructor can end whatever a run without new calls does first, if and only if no such run
      can jam the pool. */
  lemma EndIsInevitableIff(capacity: nat, workers: nat, clients: nat, acts: seq<Action>, s: State)
    requires Reaches(capacity, workers, clients, acts, s) && s.capacity > 0
    ensures (forall next :: Continues(s, next) ==> exists more :: Ends(Run(s, next).value, more)) <==> !MayJam(s)
  {
    ReachableInv(capacity, workers, clients, acts, s);
    DestructorJoinsAll(capacity, workers, clients, acts, s);
    JamPossibleIff(capacity, workers, clients, acts, s);
    forall next | Continues(s, next)
      ensures (exists more :: Ends(Run(s, next).value, more)) <==> !Jammed(Run(s, next).value)
    {
      var s' := Run(s, next).value;
      RunKeeps(s, next, s');
      RunKeepsJoins(s, next, s');
      CapacityStays(s, next, s');
      CanEndIff(s');
    }
  }
}
