/**
  The pool comes to rest.  If nobody calls schedule_task any more, every step of any thread lowers a
  measure, except that a caller who finds the queue full backs off and tests again.  In a shutdown
  this holds in spite of spurious wake-ups.  As long as there is something to do, a step other than a
  spurious wake-up is possible; so the queue is drained, and every join returns.
*/
module ThreadPoolShutdown {
  import opened Wrappers
  import opened ThreadPool

  predicate Schedules(a: Action) {
    a.TaskSchedules? || a.ClientSchedules?
  }

  /** No new call of schedule_task, and spurious wake-ups only if they are asked for. */
  predicate Allowed(a: Action, spurious: bool) {
    !Schedules(a) && (a.SpuriousWake? ==> spurious)
  }

  /** A test that finds the queue full, so that the caller of schedule_task backs off once more. */
  predicate FullTest(s: State, call: Sched) {
    call.Testing? && |s.queue| == s.capacity
  }

  /** A step with which a caller only waits for room: acquiring the mutex, a full test, or the end of
      the back-off. */
  predicate WaitStep(s: State, call: Sched) {
    call.Locking? || call.BackingOff? || FullTest(s, call)
  }

  /** The call of schedule_task that an action makes a step of. */
  function CallOf(s: State, a: Action): Sched {
    match a
    case TaskCallStep(i) => if i < |s.workers| && s.workers[i].Running? then s.workers[i].call else Out
    case ClientStep(j) => if j < |s.clients| then s.clients[j] else Out
    case _ => Out
  }

  predicate Retry(s: State, a: Action) {
    FullTest(s, CallOf(s, a))
  }

  predicate Waits(s: State, a: Action) {
    WaitStep(s, CallOf(s, a))
  }

  // ------------------------------------------------------------------ the measure

  /** How ranks are counted.  A waiting worker ranks `idle`: above one that acquires the mutex if it
      may wake up on its own, and below one that checks the predicate if it may not.  `cost` is what
      a notify_all may add, and `patience` what a round of waiting is worth. */
  datatype Scale = Scale(idle: nat, cost: nat, patience: nat)

  function ScaleFor(spurious: bool, patience: nat, workers: nat): Scale {
    if spurious then Scale(6, 0, patience) else Scale(3, 2 * workers, patience)
  }

  function CallRank(call: Sched, sc: Scale): nat {
    match call
    case BackingOff(_) => sc.cost + 13 + 2 * sc.patience
    case Locking(_) => sc.cost + 13 + sc.patience
    case Testing(_) => sc.cost + 13
    case Pushing(_) => sc.cost + 12
    case Unlocking => sc.cost + 2
    case Notifying => sc.cost + 1
    case Out => 0
  }

  function WorkerRank(w: Worker, sc: Scale): nat {
    match w
    case Leaving(_) => 10
    case Running(_, call) => 7 + CallRank(call, sc)
    case Waiting => sc.idle
    case Acquiring => 5
    case Checking => 4
    case Deciding => 3
    case Popping => 2
    case Exited => 0
  }

  function WorkerRanks(ws: seq<Worker>, sc: Scale): nat {
    if ws == [] then 0 else WorkerRank(ws[0], sc) + WorkerRanks(ws[1..], sc)
  }

  function CallRanks(calls: seq<Sched>, sc: Scale): nat {
    if calls == [] then 0 else CallRank(calls[0], sc) + CallRanks(calls[1..], sc)
  }

  function DestructorRank(d: Destructor, workers: nat, sc: Scale): nat {
    match d
    case NotStarted => workers + sc.cost + 6
    case DLocking => workers + sc.cost + 5
    case Setting => workers + sc.cost + 4
    case DUnlocking => workers + sc.cost + 3
    case DNotifying => workers + sc.cost + 2
    case Joining(i) => if i <= workers then workers - i + 1 else 1
    case Done => 0
  }

  /** A pop costs a worker's rank 8 more and pays with an element of the queue; a push costs an
      element of the queue and pays with a caller's rank. */
  function Measure(s: State, spurious: bool, patience: nat): nat {
    var sc := ScaleFor(spurious, patience, |s.workers|);
    9 * |s.queue| + WorkerRanks(s.workers, sc) + CallRanks(s.clients, sc)
    + DestructorRank(s.destructor, |s.workers|, sc)
  }

  lemma {:induction false} WorkerRanksUpdate(ws: seq<Worker>, i: nat, w: Worker, sc: Scale)
    requires i < |ws|
    ensures WorkerRanks(ws[i := w], sc) == WorkerRanks(ws, sc) - WorkerRank(ws[i], sc) + WorkerRank(w, sc)
  {
    var ws' := ws[i := w];
    if i == 0 {
      assert ws'[1..] == ws[1..];
    } else {
      assert ws'[1..] == ws[1..][i - 1 := w];
      WorkerRanksUpdate(ws[1..], i - 1, w, sc);
    }
  }

  lemma {:induction false} CallRanksUpdate(calls: seq<Sched>, j: nat, call: Sched, sc: Scale)
    requires j < |calls|
    ensures CallRanks(calls[j := call], sc) == CallRanks(calls, sc) - CallRank(calls[j], sc) + CallRank(call, sc)
  {
    var calls' := calls[j := call];
    if j == 0 {
      assert calls'[1..] == calls[1..];
    } else {
      assert calls'[1..] == calls[1..][j - 1 := call];
      CallRanksUpdate(calls[1..], j - 1, call, sc);
    }
  }

  lemma {:induction false} NotifyRanks(ws: seq<Worker>, sc: Scale)
    requires sc.idle >= 3
    ensures WorkerRanks(NotifyAll(ws), sc) <= WorkerRanks(ws, sc) + if sc.idle >= 5 then 0 else 2 * |ws|
  {
    if ws != [] {
      assert NotifyAll(ws)[1..] == NotifyAll(ws[1..]);
      NotifyRanks(ws[1..], sc);
    }
  }

  // ------------------------------------------------------------------ what a step does to it

  /** What a step may change the measure by: a full test adds two rounds of patience, any other
      waiting step takes one off, and every step that is not waiting lowers it. */
  function Slack(s: State, call: Sched, patience: nat): int {
    if FullTest(s, call) then 2 * patience else if WaitStep(s, call) then 0 - patience else -1
  }

  lemma WorkerStepLowers(s: State, i: nat, spurious: bool, patience: nat)
    requires Inv(s) && Enabled(s, WorkerStep(i)) && (spurious ==> !s.isRunning)
    ensures Measure(WorkerNext(s, i), spurious, patience) < Measure(s, spurious, patience)
  {
    var w' := WorkerNext(s, i).workers[i];
    WorkerRanksUpdate(s.workers, i, w', ScaleFor(spurious, patience, |s.workers|));
    assert WorkerNext(s, i).workers == s.workers[i := w'];
  }

  /** A step of schedule_task before its notify_all: what the caller and the queue rank together. */
  lemma CallLowers(s: State, t: Thread, call: Sched, sc: Scale)
    requires !call.Out? && !call.Notifying?
    ensures var s' := CallEffect(s, t, call);
            && s' == s.(queue := s'.queue, lock := s'.lock, accepted := s'.accepted, late := s'.late)
            && 9 * |s'.queue| + CallRank(CallNext(s, call), sc)
            <= 9 * |s.queue| + CallRank(call, sc) + Slack(s, call, sc.patience)
  {
  }

  lemma TaskCallLowers(s: State, i: nat, spurious: bool, patience: nat)
    requires Enabled(s, TaskCallStep(i))
    ensures Measure(Step(s, TaskCallStep(i)), spurious, patience)
         <= Measure(s, spurious, patience) + Slack(s, s.workers[i].call, patience)
  {
    var sc := ScaleFor(spurious, patience, |s.workers|);
    var call := s.workers[i].call;
    var ws := if call.Notifying? then NotifyAll(s.workers) else s.workers;
    var w' := Running(s.workers[i].k, CallNext(s, call));
    if call.Notifying? {
      NotifyAllFacts(s.workers);
      NotifyRanks(s.workers, sc);
    } else {
      CallLowers(s, W(i), call, sc);
    }
    WorkerRanksUpdate(ws, i, w', sc);
    assert Step(s, TaskCallStep(i)).workers == ws[i := w'];
  }

  lemma ClientStepLowers(s: State, j: nat, spurious: bool, patience: nat)
    requires Enabled(s, ClientStep(j))
    ensures Measure(Step(s, ClientStep(j)), spurious, patience)
         <= Measure(s, spurious, patience) + Slack(s, s.clients[j], patience)
  {
    var sc := ScaleFor(spurious, patience, |s.workers|);
    var call := s.clients[j];
    if call.Notifying? {
      NotifyAllFacts(s.workers);
      NotifyRanks(s.workers, sc);
    } else {
      CallLowers(s, C(j), call, sc);
    }
    CallRanksUpdate(s.clients, j, CallNext(s, call), sc);
  }

  lemma TaskStepLowers(s: State, a: Action, spurious: bool, patience: nat)
    requires Enabled(s, a) && Allowed(a, spurious) && (a.TaskReturns? || a.SpuriousWake?)
    ensures Measure(Step(s, a), spurious, patience) < Measure(s, spurious, patience)
  {
    WorkerRanksUpdate(s.workers, a.i, Acquiring, ScaleFor(spurious, patience, |s.workers|));
  }

  lemma DestructorStepLowers(s: State, spurious: bool, patience: nat)
    requires Enabled(s, DestructorStep)
    ensures Measure(Step(s, DestructorStep), spurious, patience) < Measure(s, spurious, patience)
  {
    NotifyAllFacts(s.workers);
    NotifyRanks(s.workers, ScaleFor(spurious, patience, |s.workers|));
  }

  /** Every step of any thread that is no new call lowers the measure, unless it only waits.  Without
      patience, waiting leaves the measure as it is; with patience, only a full test raises it. */
  lemma StepLowers(s: State, a: Action, spurious: bool, patience: nat)
    requires Inv(s) && Enabled(s, a) && Allowed(a, spurious) && (spurious ==> !s.isRunning)
    ensures Measure(Step(s, a), spurious, patience) <= Measure(s, spurious, patience) + Slack(s, CallOf(s, a), patience)
  {
    match a {
      case WorkerStep(i) => WorkerStepLowers(s, i, spurious, patience);
      case TaskCallStep(i) => TaskCallLowers(s, i, spurious, patience);
      case ClientStep(j) => ClientStepLowers(s, j, spurious, patience);
      case DestructorStep => DestructorStepLowers(s, spurious, patience);
      case Destroy =>
      case _ => TaskStepLowers(s, a, spurious, patience);
    }
  }

  /** How often a run finds the queue full. */
  function Retries(s: State, acts: seq<Action>): nat {
    if acts == [] then 0
    else
      var most := acts[..|acts| - 1];
      Retries(s, most) + match Run(s, most)
                         case Some(t) => if Retry(t, acts[|acts| - 1]) then 1 else 0
                         case None => 0
  }

  /** How many steps of a run do more than wait for room. */
  function Efforts(s: State, acts: seq<Action>): nat {
    if acts == [] then 0
    else
      var most := acts[..|acts| - 1];
      Efforts(s, most) + match Run(s, most)
                         case Some(t) => if Waits(t, acts[|acts| - 1]) then 0 else 1
                         case None => 0
  }

  lemma StepKeepsMode(s: State, a: Action, spurious: bool)
    requires Inv(s) && Enabled(s, a) && (spurious ==> !s.isRunning)
    ensures Inv(Step(s, a)) && (spurious ==> !Step(s, a).isRunning)
  {
    StepKeeps(s, a);
    HistoriesGrow(s, a);
  }

  lemma {:induction false} EffortsAreBounded(s: State, acts: seq<Action>, s': State, spurious: bool)
    requires Inv(s) && Run(s, acts) == Some(s') && (spurious ==> !s.isRunning)
    requires forall a :: a in acts ==> Allowed(a, spurious)
    ensures Efforts(s, acts) + Measure(s', spurious, 0) <= Measure(s, spurious, 0)
    ensures Inv(s') && (spurious ==> !s'.isRunning)
    decreases |acts|
  {
    if acts != [] {
      var a := acts[|acts| - 1];
      var before := LastStep(s, acts, s');
      EffortsAreBounded(s, acts[..|acts| - 1], before, spurious);
      StepLowers(before, a, spurious, 0);
      StepKeepsMode(before, a, spurious);
    }
  }

  lemma {:induction false} StepsAreBounded(s: State, acts: seq<Action>, s': State, spurious: bool)
    requires Inv(s) && Run(s, acts) == Some(s') && (spurious ==> !s.isRunning)
    requires forall a :: a in acts ==> Allowed(a, spurious)
    ensures |acts| + Measure(s', spurious, 1) <= Measure(s, spurious, 1) + 3 * Retries(s, acts)
    ensures Inv(s') && (spurious ==> !s'.isRunning)
    decreases |acts|
  {
    if acts != [] {
      var a := acts[|acts| - 1];
      var before := LastStep(s, acts, s');
      StepsAreBounded(s, acts[..|acts| - 1], before, spurious);
      StepLowers(before, a, spurious, 1);
      StepKeepsMode(before, a, spurious);
    }
  }

  /** Nobody is inside schedule_task who has not found room. */
  ghost predicate NobodyWaits(s: State) {
    && (forall i :: 0 <= i < |s.workers| && s.workers[i].Running? ==> HasRoom(s.workers[i].call))
    && (forall j :: 0 <= j < |s.clients| ==> HasRoom(s.clients[j]))
  }

  predicate HasRoom(call: Sched) {
    !call.Locking? && !call.Testing? && !call.BackingOff?
  }

  lemma NobodyWaitsCall(s: State, a: Action)
    requires NobodyWaits(s) && Enabled(s, a) && (a.TaskCallStep? || a.ClientStep?)
    ensures NobodyWaits(Step(s, a)) && !Waits(s, a)
  {
    NotifyAllFacts(s.workers);
    assert HasRoom(CallOf(s, a));
  }

  lemma NobodyWaitsStep(s: State, a: Action)
    requires NobodyWaits(s) && Enabled(s, a) && !Schedules(a)
    ensures NobodyWaits(Step(s, a)) && !Waits(s, a)
  {
    if a.TaskCallStep? || a.ClientStep? {
      NobodyWaitsCall(s, a);
    } else if a.DestructorStep? {
      NotifyAllFacts(s.workers);
    }
  }

  /** If nobody waits for room, no step of a run without new calls is spent on waiting. */
  lemma {:induction false} NobodyEverWaits(s: State, acts: seq<Action>, s': State)
    requires NobodyWaits(s) && Run(s, acts) == Some(s') && forall a :: a in acts ==> !Schedules(a)
    ensures NobodyWaits(s') && Retries(s, acts) == 0 && Efforts(s, acts) == |acts|
    decreases |acts|
  {
    if acts != [] {
      var before := LastStep(s, acts, s');
      NobodyEverWaits(s, acts[..|acts| - 1], before);
      NobodyWaitsStep(before, acts[|acts| - 1]);
    }
  }

  // ------------------------------------------------------------------ nothing hangs

  /** A step that some thread takes of its own accord, to finish what it has begun. */
  predicate Voluntary(a: Action) {
    Allowed(a, false) && !a.Destroy?
  }

  lemma OwnerCanStep(s: State) returns (a: Action)
    requires Inv(s) && s.lock.Some?
    ensures Enabled(s, a) && Voluntary(a)
  {
    match s.lock.value {
      case W(i) => a := if s.workers[i].Running? then TaskCallStep(i) else WorkerStep(i);
      case C(j) => a := ClientStep(j);
      case D => a := DestructorStep;
    }
  }

  /** The notify_all that a waiting worker is owed. */
  lemma NotifierCanStep(s: State) returns (a: Action)
    requires Inv(s) && s.lock == None && SomeoneWaits(s) && WorkToDo(s)
    ensures Enabled(s, a) && Voluntary(a) && !Waits(s, a)
    ensures |Step(s, a).workers| == |s.workers|
    ensures forall i :: 0 <= i < |s.workers| && s.workers[i].Waiting? ==> Step(s, a).workers[i].Acquiring?
  {
    NotifyAllFacts(s.workers);
    if n :| 0 <= n < |s.workers| && WorkerNotifies(s.workers[n]) {
      a := TaskCallStep(n);
    } else if n :| 0 <= n < |s.clients| && CallNotifies(s.clients[n]) {
      a := ClientStep(n);
    } else {
      a := DestructorStep;
    }
  }

  lemma WorkerCanMove(s: State, i: nat) returns (a: Action)
    requires Inv(s) && s.lock == None && i < |s.workers| && !s.workers[i].Exited?
    requires s.workers[i].Waiting? ==> WorkToDo(s)
    ensures Enabled(s, a) && Voluntary(a)
  {
    assert !WorkerHolds(s.workers[i]);
    match s.workers[i] {
      case Running(_, call) => a := if call.Out? then TaskReturns(i) else TaskCallStep(i);
      case Waiting =>
        assert SomeoneWaits(s);
        a := NotifierCanStep(s);
      case _ => a := WorkerStep(i);
    }
  }

  /** In a shutdown, until the destructor has returned, some thread can take a step that is no
      spurious wake-up. */
  lemma ShutdownNeverHangs(s: State) returns (a: Action)
    requires Inv(s) && !s.isRunning && !s.destructor.Done?
    ensures Enabled(s, a) && Voluntary(a)
  {
    if s.lock.Some? {
      a := OwnerCanStep(s);
    } else if i :| 0 <= i < |s.workers| && !s.workers[i].Exited? {
      a := WorkerCanMove(s, i);
    } else {
      a := DestructorStep;
    }
  }

  /** At most spurious wake-ups, new calls of schedule_task and the start of the destructor are
      possible. */
  ghost predicate AtRest(s: State) {
    forall a :: Enabled(s, a) ==> !Voluntary(a)
  }

  /** Shutdown terminates.  From every reachable state in which is_running is false, a run without
      new calls of schedule_task, spurious wake-ups included, takes at most Measure(s) steps that do
      more than wait for room, and as many steps in all as Measure(s) and three for each time that a
      caller finds the queue full.  If nobody waits for room in s, it has at most Measure(s) steps.
      A run that has come to rest has brought the destructor to its end. */
  lemma {:induction false} ShutdownTerminates(capacity: nat, workers: nat, clients: nat, past: seq<Action>,
                                              s: State, acts: seq<Action>, s': State)
    requires Reaches(capacity, workers, clients, past, s) && !s.isRunning
    requires Run(s, acts) == Some(s') && forall a :: a in acts ==> Allowed(a, true)
    ensures Efforts(s, acts) <= Measure(s, true, 0)
    ensures |acts| <= Measure(s, true, 1) + 3 * Retries(s, acts)
    ensures NobodyWaits(s) ==> |acts| <= Measure(s, true, 0)
    ensures AtRest(s') ==> s'.destructor.Done?
  {
    ReachableInv(capacity, workers, clients, past, s);
    EffortsAreBounded(s, acts, s', true);
    StepsAreBounded(s, acts, s', true);
    if NobodyWaits(s) { NobodyEverWaits(s, acts, s'); }
    if !s'.destructor.Done? {
      var a := ShutdownNeverHangs(s');
    }
  }

  /** A pool without new calls comes to rest.  From every reachable state, running or not, a run
      without new calls and without spurious wake-ups is bounded in the same way; and if one has come
      to rest and a worker is left, then the queue is empty and every accepted task has been run,
      exactly once. */
  lemma {:induction false} PoolComesToRest(capacity: nat, workers: nat, clients: nat, past: seq<Action>,
                                           s: State, acts: seq<Action>, s': State)
    requires Reaches(capacity, workers, clients, past, s)
    requires Run(s, acts) == Some(s') && forall a :: a in acts ==> Allowed(a, false)
    ensures Efforts(s, acts) <= Measure(s, false, 0)
    ensures |acts| <= Measure(s, false, 1) + 3 * Retries(s, acts)
    ensures NobodyWaits(s) ==> |acts| <= Measure(s, false, 0)
    ensures AtRest(s') && !AllExited(s'.workers) ==>
              && s'.queue == [] && s'.isRunning && NoDuplicates(s'.done)
              && forall k: nat :: k < |s'.accepted| <==> k in s'.done
  {
    ReachableInv(capacity, workers, clients, past, s);
    EffortsAreBounded(s, acts, s', false);
    StepsAreBounded(s, acts, s', false);
    if NobodyWaits(s) { NobodyEverWaits(s, acts, s'); }
    if AtRest(s') && !AllExited(s'.workers) {
      RestIsIdle(s');
      assert forall i, k: nat :: 0 <= i < |s'.workers| ==> !Holds(s'.workers[i], k);
    }
  }

  /** At rest with a worker left, the workers wait for nothing. */
  lemma RestIsIdle(s: State)
    requires Inv(s) && AtRest(s) && !AllExited(s.workers)
    ensures s.isRunning && s.queue == []
    ensures forall i :: 0 <= i < |s.workers| ==> s.workers[i].Waiting?
  {
    if s.lock.Some? { var a := OwnerCanStep(s); }
    forall i | 0 <= i < |s.workers| && !s.workers[i].Exited?
      ensures s.workers[i].Waiting? && !WorkToDo(s)
    {
      if !s.workers[i].Waiting? || WorkToDo(s) { var a := WorkerCanMove(s, i); }
    }
  }

  /** The destructor ends only when all workers have exited. */
  ghost predicate JoinsInOrder(s: State) {
    match s.destructor
    case Joining(i) => i <= |s.workers| && forall m :: 0 <= m < i ==> s.workers[m].Exited?
    case Done => AllExited(s.workers)
    case _ => true
  }

  /** Whoever has exited stays so. */
  lemma NotifyKeepsExits(s: State, a: Action)
    requires Enabled(s, a)
    requires a.TaskCallStep? || a.ClientStep? || a.DestructorStep?
    ensures |Step(s, a).workers| == |s.workers|
    ensures forall m :: 0 <= m < |s.workers| && s.workers[m].Exited? ==> Step(s, a).workers[m].Exited?
  {
    NotifyAllFacts(s.workers);
  }

  lemma StepKeepsExits(s: State, a: Action)
    requires Enabled(s, a)
    ensures |Step(s, a).workers| == |s.workers|
    ensures forall m :: 0 <= m < |s.workers| && s.workers[m].Exited? ==> Step(s, a).workers[m].Exited?
  {
    if a.TaskCallStep? || a.ClientStep? || a.DestructorStep? { NotifyKeepsExits(s, a); }
  }

  lemma JoinStep(s: State, a: Action)
    requires JoinsInOrder(s) && Enabled(s, a)
    ensures JoinsInOrder(Step(s, a))
  {
    StepKeepsExits(s, a);
    if a.DestructorStep? { assert s.destructor.DNotifying? || Step(s, a).workers == s.workers; }
  }

  lemma {:induction false} RunKeepsJoins(s0: State, acts: seq<Action>, s: State)
    requires JoinsInOrder(s0) && Run(s0, acts) == Some(s)
    ensures JoinsInOrder(s)
    decreases |acts|
  {
    if acts != [] {
      var before := LastStep(s0, acts, s);
      RunKeepsJoins(s0, acts[..|acts| - 1], before);
      JoinStep(before, acts[|acts| - 1]);
    }
  }

  lemma DestructorJoinsAll(capacity: nat, workers: nat, clients: nat, acts: seq<Action>, s: State)
    requires Reaches(capacity, workers, clients, acts, s)
    ensures JoinsInOrder(s)
  {
    RunKeepsJoins(Init(capacity, workers, clients), acts, s);
  }
}
