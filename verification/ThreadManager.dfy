/**
  The shared state of common/thread_manager/ThreadManager.cpp with its ring buffer.  The methods are
  the critical sections: what a thread does between acquiring and releasing the mutex, where no other
  thread interferes.  `ThreadPool` interleaves the steps that they are made of.
*/
module ThreadManagers {
  import opened Wrappers
  import opened CircularBuffers
  import opened ThreadPool

  /** What a worker does that holds the mutex: wait, return, or run the oldest task. */
  datatype Decision = Wait | Exit | Execute(task: Task)

  function Decide(queue: seq<Task>, isRunning: bool): Decision {
    if queue != [] then Execute(queue[0]) else if isRunning then Wait else Exit
  }

  class ThreadManager {
    const taskQueue: CircularBuffer<Task>
    var isRunning: bool

    ghost predicate Valid()
      reads this, taskQueue
    {
      taskQueue.Valid()
    }

    constructor (capacity: nat)
      ensures Valid() && isRunning && taskQueue.length == capacity && taskQueue.Contents() == []
    {
      taskQueue := new CircularBuffer<Task>(capacity);
      isRunning := true;
    }

    method TakeTask() returns (d: Decision)
      requires Valid()
      modifies taskQueue
      ensures Valid() && isRunning == old(isRunning)
      ensures d == Decide(old(taskQueue.Contents()), isRunning)
      ensures taskQueue.Contents() == if d.Execute? then old(taskQueue.Contents())[1..] else old(taskQueue.Contents())
    {
      var empty := taskQueue.IsEmpty();
      if empty && isRunning {
        return Wait;
      }
      if !isRunning && empty {
        return Exit;
      }
      var task := taskQueue.Pop();
      return Execute(task.value);
    }

    /** One round of the loop in schedule_task: a full queue makes the caller back off. */
    method TrySchedule(task: Task) returns (scheduled: bool)
      requires Valid()
      modifies taskQueue, taskQueue.circBuffer
      ensures Valid() && isRunning == old(isRunning)
      ensures scheduled == (|old(taskQueue.Contents())| < taskQueue.length)
      ensures taskQueue.Contents() == old(taskQueue.Contents()) + if scheduled then [task] else []
    {
      var full := taskQueue.IsFull();
      if full {
        return false;
      }
      scheduled := taskQueue.Push(task);
    }

    method Stop()
      requires Valid()
      modifies this
      ensures Valid() && !isRunning && taskQueue.Contents() == old(taskQueue.Contents())
    {
      isRunning := false;
    }

    /** The destructor's critical section, and then the loop of a worker to its end, without
        interference: the queue is drained, oldest task first. */
    method StopAndDrain() returns (executed: seq<Task>)
      requires Valid()
      modifies this, taskQueue
      ensures Valid() && !isRunning && taskQueue.Contents() == []
      ensures executed == old(taskQueue.Contents())
    {
      ghost var queue := taskQueue.Contents();
      Stop();
      executed := [];
      var d := TakeTask();
      while d.Execute?
        invariant Valid() && !isRunning && |executed| <= |queue| && executed == queue[..|executed|]
        invariant d == Decide(queue[|executed|..], false)
        invariant taskQueue.Contents() == queue[if d.Execute? then |executed| + 1 else |executed|..]
        decreases |queue| - |executed|
      {
        assert queue[..|executed| + 1] == executed + [d.task];
        executed := executed + [d.task];
        d := TakeTask();
      }
    }
  }

  /** The worker's steps from the predicate of wait() to the release of the mutex, in one go. */
  function Section(s: State, i: nat, fuel: nat): (r: State)
    ensures |r.workers| == |s.workers|
    decreases fuel
  {
    if fuel == 0 || i >= |s.workers| || s.lock != Some(W(i)) || !WorkerEnabled(s, s.workers[i]) then s
    else Section(WorkerNext(s, i), i, fuel - 1)
  }

  /** Those steps amount to the critical section that `TakeTask` implements. */
  lemma SectionIsTakeTask(s: State, i: nat)
    requires Inv(s) && i < |s.workers| && s.workers[i].Checking?
    ensures var s' := Section(s, i, 4);
            && s'.lock == None
            && match Decide(s.queue, s.isRunning)
               case Wait => s'.workers[i] == Waiting && s'.queue == s.queue && s'.popped == s.popped
               case Exit => s'.workers[i] == Exited && s'.queue == s.queue && s'.popped == s.popped
               case Execute(task) =>
                 s'.workers[i] == Running(|s.popped|, Out) && s'.queue == s.queue[1..] && s'.popped == s.popped + [task]
  {
    assert s.lock == Some(W(i));
    if Decide(s.queue, s.isRunning).Wait? {
      assert Section(s, i, 4) == Section(WorkerNext(s, i), i, 3);
    } else {
      var s1 := WorkerNext(s, i);
      var s2 := WorkerNext(s1, i);
      assert Section(s, i, 4) == Section(s1, i, 3) == Section(s2, i, 2);
      if Decide(s.queue, s.isRunning).Execute? {
        var s3 := WorkerNext(s2, i);
        assert Section(s2, i, 2) == Section(s3, i, 1) == Section(WorkerNext(s3, i), i, 0);
      }
    }
  }
}
