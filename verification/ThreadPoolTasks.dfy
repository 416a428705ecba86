/**
  Which tasks are run.  In every run the tasks that the pool has accepted, together with those that
  callers of schedule_task still carry, are exactly the tasks that schedule_task was called with.
*/
module ThreadPoolTasks {
  import opened Wrappers
  import opened ThreadPool

  /** The task that a call of schedule_task has not pushed yet. */
  function Carried(call: Sched): Option<Task> {
    match call
    case Locking(task) => Some(task)
    case Testing(task) => Some(task)
    case BackingOff(task) => Some(task)
    case Pushing(task) => Some(task)
    case _ => None
  }

  function One(carried: Option<Task>, x: Task): nat {
    if carried == Some(x) then 1 else 0
  }

  /** How many of these calls carry task x. */
  function CarriedCount(calls: seq<Sched>, x: Task): nat {
    if calls == [] then 0 else One(Carried(calls[0]), x) + CarriedCount(calls[1..], x)
  }

  /** The calls that run inside the workers' tasks. */
  function CallsOf(ws: seq<Worker>): seq<Sched> {
    seq(|ws|, i requires 0 <= i < |ws| => if ws[i].Running? then ws[i].call else Out)
  }

  /** The task that an action calls schedule_task with. */
  function Argument(a: Action): Option<Task> {
    match a
    case TaskSchedules(_, task) => Some(task)
    case ClientSchedules(_, task) => Some(task)
    case _ => None
  }

  /** How often a run calls schedule_task with task x. */
  function ScheduledCount(acts: seq<Action>, x: Task): nat {
    if acts == [] then 0 else ScheduledCount(acts[..|acts| - 1], x) + One(Argument(acts[|acts| - 1]), x)
  }

  lemma {:induction false} CarriedUpdate(calls: seq<Sched>, j: nat, call: Sched, x: Task)
    requires j < |calls|
    ensures CarriedCount(calls[j := call], x) + One(Carried(calls[j]), x)
         == CarriedCount(calls, x) + One(Carried(call), x)
  {
    var calls' := calls[j := call];
    if j == 0 {
      assert calls'[1..] == calls[1..];
    } else {
      assert calls'[1..] == calls[1..][j - 1 := call];
      CarriedUpdate(calls[1..], j - 1, call, x);
    }
  }

  /** The copies of task x in the pool's queue and history, and in the hands of callers. */
  function Copies(s: State, x: Task): nat {
    multiset(s.accepted)[x] + CarriedCount(CallsOf(s.workers), x) + CarriedCount(s.clients, x)
  }

  /** A step of schedule_task moves the task that it carries to the accepted ones, or keeps it. */
  lemma CallKeepsTask(s: State, t: Thread, call: Sched, x: Task)
    requires call.Pushing? ==> |s.queue| < s.capacity
    ensures multiset(CallEffect(s, t, call).accepted)[x] + One(Carried(CallNext(s, call)), x)
         == multiset(s.accepted)[x] + One(Carried(call), x)
    ensures CallEffect(s, t, call).clients == s.clients
  {
  }

  lemma CallsStay(s: State, t: Thread, call: Sched)
    ensures CallsOf(CallEffect(s, t, call).workers) == CallsOf(s.workers)
  {
    NotifyAllFacts(s.workers);
  }

  lemma TaskCallKeeps(s: State, i: nat, x: Task)
    requires Inv(s) && Enabled(s, TaskCallStep(i))
    ensures Copies(Step(s, TaskCallStep(i)), x) == Copies(s, x)
  {
    var s', call := Step(s, TaskCallStep(i)), s.workers[i].call;
    CallKeepsTask(s, W(i), call, x);
    CallsStay(s, W(i), call);
    assert CallsOf(s'.workers) == CallsOf(s.workers)[i := CallNext(s, call)];
    CarriedUpdate(CallsOf(s.workers), i, CallNext(s, call), x);
  }

  lemma ClientKeeps(s: State, j: nat, x: Task)
    requires Inv(s) && Enabled(s, ClientStep(j))
    ensures Copies(Step(s, ClientStep(j)), x) == Copies(s, x)
  {
    CallKeepsTask(s, C(j), s.clients[j], x);
    CallsStay(s, C(j), s.clients[j]);
    CarriedUpdate(s.clients, j, CallNext(s, s.clients[j]), x);
  }

  lemma NewCallAdds(s: State, a: Action, x: Task)
    requires (a.TaskSchedules? || a.ClientSchedules?) && Enabled(s, a)
    ensures Copies(Step(s, a), x) == Copies(s, x) + One(Argument(a), x)
  {
    if a.TaskSchedules? {
      assert CallsOf(Step(s, a).workers) == CallsOf(s.workers)[a.i := Locking(a.task)];
      CarriedUpdate(CallsOf(s.workers), a.i, Locking(a.task), x);
    } else {
      CarriedUpdate(s.clients, a.j, Locking(a.task), x);
    }
  }

  /** The other steps change neither the accepted tasks nor what anybody carries. */
  lemma OthersKeep(s: State, a: Action, x: Task)
    requires Enabled(s, a)
    requires !a.TaskSchedules? && !a.ClientSchedules? && !a.TaskCallStep? && !a.ClientStep?
    ensures Copies(Step(s, a), x) == Copies(s, x)
  {
    var s' := Step(s, a);
    if a.DestructorStep? { NotifyAllFacts(s.workers); }
    assert s'.accepted == s.accepted && s'.clients == s.clients;
    assert CallsOf(s'.workers) == CallsOf(s.workers);
  }

  lemma {:induction false} NothingIsCarried(calls: seq<Sched>, x: Task)
    requires forall j :: 0 <= j < |calls| ==> calls[j].Out?
    ensures CarriedCount(calls, x) == 0
  {
    if calls != [] { NothingIsCarried(calls[1..], x); }
  }

  /** In every run, every task has been accepted as often as schedule_task was called with it, but for
      the calls that still carry it. */
  lemma {:induction false} ScheduledTasksAreAccepted(capacity: nat, workers: nat, clients: nat,
                                                     acts: seq<Action>, s: State, x: Task)
    requires Reaches(capacity, workers, clients, acts, s)
    ensures multiset(s.accepted)[x] + CarriedCount(CallsOf(s.workers), x) + CarriedCount(s.clients, x)
         == ScheduledCount(acts, x)
    decreases |acts|
  {
    if acts == [] {
      NothingIsCarried(CallsOf(s.workers), x);
      NothingIsCarried(s.clients, x);
    } else {
      var most, a := acts[..|acts| - 1], acts[|acts| - 1];
      var before := LastStep(Init(capacity, workers, clients), acts, s);
      ScheduledTasksAreAccepted(capacity, workers, clients, most, before, x);
      ReachableInv(capacity, workers, clients, most, before);
      match a {
        case TaskCallStep(i) => TaskCallKeeps(before, i, x);
        case ClientStep(j) => ClientKeeps(before, j, x);
        case TaskSchedules(_, _) => NewCallAdds(before, a, x);
        case ClientSchedules(_, _) => NewCallAdds(before, a, x);
        case _ => OthersKeep(before, a, x);
      }
    }
  }

  // ------------------------------------------------------------------ thread by thread

  /** The argument of the last call of schedule_task by client j. */
  function LastByClient(acts: seq<Action>, j: nat): Option<Task> {
    if acts == [] then None
    else match acts[|acts| - 1]
         case ClientSchedules(m, task) => if m == j then Some(task) else LastByClient(acts[..|acts| - 1], j)
         case _ => LastByClient(acts[..|acts| - 1], j)
  }

  /** The argument of the last call of schedule_task by a task on worker i. */
  function LastByWorker(acts: seq<Action>, i: nat): Option<Task> {
    if acts == [] then None
    else match acts[|acts| - 1]
         case TaskSchedules(m, task) => if m == i then Some(task) else LastByWorker(acts[..|acts| - 1], i)
         case _ => LastByWorker(acts[..|acts| - 1], i)
  }

  lemma CarriesStep(s: State, a: Action, i: nat)
    requires Enabled(s, a)
    ensures |Step(s, a).workers| == |s.workers| && |Step(s, a).clients| == |s.clients|
    ensures i < |s.clients| ==>
              var carried := Carried(Step(s, a).clients[i]);
              carried == None
              || carried == if a.ClientSchedules? && a.j == i then Some(a.task) else Carried(s.clients[i])
    ensures i < |s.workers| ==>
              var carried := Carried(CallsOf(Step(s, a).workers)[i]);
              carried == None
              || carried == if a.TaskSchedules? && a.i == i then Some(a.task) else Carried(CallsOf(s.workers)[i])
  {
    if a.TaskCallStep? || a.ClientStep? || a.DestructorStep? { NotifyAllFacts(s.workers); }
  }

  /** In every run, whoever is inside schedule_task carries the argument of his last call until he has
      pushed it. */
  lemma {:induction false} CallersCarryTheirTask(capacity: nat, workers: nat, clients: nat, acts: seq<Action>,
                                                 s: State, i: nat)
    requires Reaches(capacity, workers, clients, acts, s)
    ensures i < |s.clients| && Carried(s.clients[i]).Some? ==> Carried(s.clients[i]) == LastByClient(acts, i)
    ensures i < |s.workers| && s.workers[i].Running? && Carried(s.workers[i].call).Some? ==>
              Carried(s.workers[i].call) == LastByWorker(acts, i)
    decreases |acts|
  {
    if acts != [] {
      var most := acts[..|acts| - 1];
      var before := LastStep(Init(capacity, workers, clients), acts, s);
      CallersCarryTheirTask(capacity, workers, clients, most, before, i);
      CarriesStep(before, acts[|acts| - 1], i);
    }
  }
}
