/**
  When the destructor can end.  A caller that waits in schedule_task when the shutdown starts may
  still be served, since the workers go on until the queue is empty.  `DestructorCanEndIff` shows
  that the destructor can end from every reachable state in which the workers have not already
  blocked each other, and from no other.
*/
module ThreadPoolEnding {
  import opened Wrappers
  import opened ThreadPool
  import opened ThreadPoolProgress
  import opened ThreadPoolShutdown

  /** All workers that are left wait for room that nobody can make. */
  ghost predicate Jammed(s: State) {
    Stuck(s) && !AllExited(s.workers)
  }

  /** The owner of the mutex is about to find the queue full. */
  predicate FullTester(s: State) {
    s.lock.Some? && Retry(s, HolderAction(s))
  }

  /** A step towards the end: it jams nothing, and no caller is left to find the queue full. */
  ghost predicate Helps(s: State, a: Action) {
    && Enabled(s, a) && Allowed(a, false) && (Retry(s, a) ==> FullTester(s))
    && !Jammed(Step(s, a)) && !FullTester(Step(s, a)) && Step(s, a).capacity == s.capacity
  }

  // ------------------------------------------------------------------ a helpful step

  lemma WorkerOwnerHelps(s: State, i: nat)
    requires Inv(s) && s.capacity > 0 && !Jammed(s) && s.lock == Some(W(i))
    ensures Helps(s, HolderAction(s))
  {
    var s', w := Step(s, HolderAction(s)), s.workers[i];
    assert WorkerHolds(w);
    if Blocked(s, w) {
      assert Claimed(s) == |s.queue| == s.capacity;
      var m :| 0 <= m < |s.workers| && !OutOfAction(s, s.workers[m]);
      assert m != i && !WorkerHolds(s.workers[m]);
      assert !OutOfAction(s', s'.workers[m]);
    } else if s'.workers[i].Exited? {
      assert Claimed(s') == 0;
    } else {
      assert !OutOfAction(s', s'.workers[i]);
    }
  }

  lemma OtherOwnerHelps(s: State)
    requires Inv(s) && !Jammed(s) && s.lock.Some? && !s.lock.value.W?
    ensures Helps(s, HolderAction(s))
  {
    OtherHolderStep(s);
  }

  /** The destructor outside the mutex, before it joins. */
  lemma DestructorHelps(s: State, a: Action)
    requires Inv(s) && !Jammed(s) && s.lock == None
    requires if s.destructor.NotStarted? then a == Destroy
             else a == DestructorStep && (s.destructor.DLocking? || s.destructor.DNotifying?)
    ensures Helps(s, a)
  {
    NotifyAllFacts(s.workers);
    var s' := Step(s, a);
    assert Claimed(s') == Claimed(s);
    forall i | 0 <= i < |s.workers| ensures OutOfAction(s', s'.workers[i]) ==> OutOfAction(s, s.workers[i]) {}
  }

  /** A worker that has something to do, or is owed a notification. */
  lemma ActiveWorkerHelps(s: State, i: nat) returns (a: Action)
    requires Inv(s) && s.lock == None && !s.isRunning && i < |s.workers| && !OutOfAction(s, s.workers[i])
    ensures Helps(s, a) && !Waits(s, a)
  {
    assert !WorkerHolds(s.workers[i]);
    NotifyAllFacts(s.workers);
    match s.workers[i] {
      case Acquiring => a := WorkerStep(i);
      case Waiting =>
        assert SomeoneWaits(s);
        a := NotifierCanStep(s);
      case Running(_, call) => a := if call.Out? then TaskReturns(i) else TaskCallStep(i);
    }
    assert !OutOfAction(Step(s, a), Step(s, a).workers[i]);
  }

  /** A task that waits for room, when there is room. */
  lemma ServedCallHelps(s: State, i: nat)
    requires Inv(s) && s.lock == None && |s.queue| < s.capacity && i < |s.workers| && Blocked(s, s.workers[i])
    ensures Helps(s, TaskCallStep(i))
  {
    assert !WorkerHolds(s.workers[i]);
    var s' := Step(s, TaskCallStep(i));
    assert s'.workers[i].call.Locking? || !OutOfAction(s', s'.workers[i]);
  }

  lemma SomeStepHelps(s: State) returns (a: Action)
    requires Inv(s) && s.capacity > 0 && !Jammed(s) && !s.destructor.Done?
    ensures Helps(s, a)
  {
    if s.lock.Some? {
      a := HolderAction(s);
      if s.lock.value.W? { WorkerOwnerHelps(s, s.lock.value.i); } else { OtherOwnerHelps(s); }
    } else if !s.destructor.Joining? {
      a := if s.destructor.NotStarted? then Destroy else DestructorStep;
      DestructorHelps(s, a);
    } else if i :| 0 <= i < |s.workers| && !OutOfAction(s, s.workers[i]) {
      a := ActiveWorkerHelps(s, i);
    } else if i :| 0 <= i < |s.workers| && !s.workers[i].Exited? {
      assert OutOfAction(s, s.workers[i]);
      a := TaskCallStep(i);
      ServedCallHelps(s, i);
    } else {
      a := DestructorStep;
    }
  }

  // ------------------------------------------------------------------ the theorem

  /** A continuation, without new calls and without spurious wake-ups, in which the destructor ends. */
  ghost predicate Ends(s: State, next: seq<Action>) {
    Run(s, next).Some? && Run(s, next).value.destructor.Done? && forall a :: a in next ==> Allowed(a, false)
  }

  /** A run of allowed steps that has not jammed the pool. */
  ghost predicate Heading(s0: State, acts: seq<Action>, s: State) {
    && Run(s0, acts) == Some(s) && (forall a :: a in acts ==> Allowed(a, false))
    && Inv(s) && s.capacity > 0 && !Jammed(s)
  }

  lemma GoOn(s0: State, acts: seq<Action>, s: State) returns (acts': seq<Action>, s': State)
    requires Heading(s0, acts, s) && !s.destructor.Done?
    ensures Heading(s0, acts', s') && !FullTester(s')
    ensures Measure(s', false, 1) < Measure(s, false, 1) || FullTester(s)
  {
    var a := SomeStepHelps(s);
    StepLowers(s, a, false, 1);
    StepKeeps(s, a);
    acts', s' := Take(s0, acts, s, a);
  }

  lemma {:induction false} EndReachable(s0: State, acts: seq<Action>, s: State) returns (acts': seq<Action>)
    requires Heading(s0, acts, s)
    ensures Ends(s0, acts')
    decreases if FullTester(s) then 1 else 0, Measure(s, false, 1)
  {
    if s.destructor.Done? {
      acts' := acts;
    } else {
      var longer, s' := GoOn(s0, acts, s);
      acts' := EndReachable(s0, longer, s');
    }
  }

  lemma CanEndIff(s: State)
    requires Inv(s) && JoinsInOrder(s) && s.capacity > 0
    ensures (exists next :: Ends(s, next)) <==> !Jammed(s)
    ensures Jammed(s) ==> forall next :: Run(s, next).Some? ==> !Run(s, next).value.destructor.Done?
  {
    if Jammed(s) {
      forall next | Run(s, next).Some? ensures !Run(s, next).value.destructor.Done? {
        StuckForEver(s, next, Run(s, next).value);
        RunKeepsJoins(s, next, Run(s, next).value);
      }
    } else {
      assert Run(s, []) == Some(s);
      var next := EndReachable(s, [], s);
    }
  }

  /** From every reachable state, running or not, with calls of schedule_task under way or not, the
      destructor can end without new calls and spurious wake-ups if and only if the workers have not
      blocked each other; and if they have, no continuation of any kind brings it to its end. */
  lemma DestructorCanEndIff(capacity: nat, workers: nat, clients: nat, acts: seq<Action>, s: State)
    requires Reaches(capacity, workers, clients, acts, s) && s.capacity > 0
    ensures (exists next :: Ends(s, next)) <==> !Jammed(s)
    ensures Jammed(s) ==> forall next :: Run(s, next).Some? ==> !Run(s, next).value.destructor.Done?
  {
    ReachableInv(capacity, workers, clients, acts, s);
    DestructorJoinsAll(capacity, workers, clients, acts, s);
    CanEndIff(s);
  }
}
