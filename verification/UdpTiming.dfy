/**
  How long messages wait, counting the sleeps that the sender thread requests, and ACK safety for
  stamps that a clock provides.
*/
module UdpTiming {
  import opened Envelopes
  import opened MessageProcessing
  import opened UdpProtocol
  import opened UdpSafety

  const LONGEST_TURN: nat := 1501

  /** The milliseconds slept after k attempts: 100 + 200 + ... + 100 k. */
  function SleptAfter(k: nat): nat {
    50 * k * (k + 1)
  }

  /** The checks that the sender has slept for. */
  function SleepsDone(snd: Sender): nat {
    match snd
    case Asleep => 0
    case Ready => 0
    case Transmitting(_, a) => a
    case AwaitingAck(_, a) => a
    case Checking(_, a) => a + 1
    case Requeueing(_, a, _) => a + 1
  }

  /** Sleep that is at most left before the sender can take the next message from its queue. */
  function Backlog(snd: Sender): int {
    if snd.Asleep? then 1 else if snd.Ready? then 0 else LONGEST_TURN - SleptAfter(SleepsDone(snd))
  }

  /** The latest sleep count at which message m is first transmitted. */
  function Deadline(m: Message): nat {
    m.slept + (m.index + 1) * LONGEST_TURN
  }

  ghost predicate OnTime(e: Endpoint, log: seq<Message>) {
    && (Busy(e.sender) ==>
          && e.sender.attempt < MAX_ATTEMPTS
          && e.slept == e.startedAt + SleptAfter(SleepsDone(e.sender))
          && e.sender.item.id < |log|
          && e.startedAt <= Deadline(log[e.sender.item.id]))
    && (forall k :: 0 <= k < |e.outQueue| ==>
          && e.outQueue[k].id < |log|
          && e.slept + Backlog(e.sender) + k * LONGEST_TURN <= Deadline(log[e.outQueue[k].id]))
  }

  lemma SleptAfterNext(k: nat)
    ensures SleptAfter(k + 1) == SleptAfter(k) + 100 * (k + 1)
    ensures k <= MAX_ATTEMPTS ==> SleptAfter(k) <= 1500
  {
    assert SleptAfter(k + 1) == 50 * (k + 1) * (k + 2) == 50 * (k + 1) * k + 100 * (k + 1);
    assert 50 * (k + 1) * k == SleptAfter(k);
    if k <= 5 { assert k in {0, 1, 2, 3, 4, 5}; }
  }

  lemma AcceptOnTime(s: State, p: nat, dst: nat, env: Envelope, stamp: UInt32)
    requires p < |s.eps| && OnTime(s.eps[p], s.log)
    ensures OnTime(AcceptStep(s, p, dst, env, stamp).eps[p], AcceptStep(s, p, dst, env, stamp).log)
  {
    SleptAfterNext(SleepsDone(s.eps[p].sender));
  }

  lemma TakeOnTime(e: Endpoint, log: seq<Message>)
    requires OnTime(e, log) && e.sender.Ready?
    ensures OnTime(TakeStep(e), log)
  {
    var e' := TakeStep(e);
    forall k | 0 <= k < |e'.outQueue|
      ensures e'.outQueue[k].id < |log|
      ensures e'.slept + Backlog(e'.sender) + k * LONGEST_TURN <= Deadline(log[e'.outQueue[k].id])
    {
      assert e'.outQueue[k] == e.outQueue[k + 1];
      assert (k + 1) * LONGEST_TURN == k * LONGEST_TURN + LONGEST_TURN;
    }
  }

  /** Steps that leave the queue alone and do not increase the time left. */
  lemma QuietOnTime(e: Endpoint, e': Endpoint, log: seq<Message>)
    requires OnTime(e, log) && e'.outQueue == e.outQueue && e'.startedAt == e.startedAt
    requires e'.slept + Backlog(e'.sender) <= e.slept + Backlog(e.sender)
    requires Busy(e'.sender) ==>
      && Busy(e.sender) && e'.sender.item == e.sender.item && e'.sender.attempt < MAX_ATTEMPTS
      && e'.slept - SleptAfter(SleepsDone(e'.sender)) == e.slept - SleptAfter(SleepsDone(e.sender))
    ensures OnTime(e', log)
  {
  }

  lemma SenderStepOnTime(s: State, a: Action)
    requires Enabled(s, a) && (a.Sleep? || a.Transmit? || a.Wake? || a.PopAck? || a.RequeueAck?)
    requires OnTime(s.eps[a.p], s.log)
    ensures OnTime(Step(s, a).eps[a.p], s.log)
  {
    SleptAfterNext(SleepsDone(s.eps[a.p].sender));
    QuietOnTime(s.eps[a.p], Step(s, a).eps[a.p], s.log);
  }

  lemma OwnStepOnTime(s: State, a: Action)
    requires Enabled(s, a) && !a.Lose? && OnTime(s.eps[a.p], s.log)
    ensures OnTime(Step(s, a).eps[a.p], Step(s, a).log)
  {
    if a.Accept? {
      AcceptOnTime(s, a.p, a.dst, a.env, a.stamp);
    } else if a.Take? {
      TakeOnTime(s.eps[a.p], s.log);
    } else if a.Sleep? || a.Transmit? || a.Wake? || a.PopAck? || a.RequeueAck? {
      SenderStepOnTime(s, a);
    } else {
      QuietOnTime(s.eps[a.p], Step(s, a).eps[a.p], s.log);
    }
  }

  lemma ForeignStepOnTime(s: State, a: Action, p: nat)
    requires Enabled(s, a) && p < |s.eps| && (a.Lose? || a.p != p) && OnTime(s.eps[p], s.log)
    ensures OnTime(Step(s, a).eps[p], Step(s, a).log)
  {
    assert Step(s, a).eps[p] == s.eps[p];
    assert forall id :: 0 <= id < |s.log| ==> Step(s, a).log[id] == s.log[id];
  }

  lemma {:induction false} RunOnTime(n: nat, acts: seq<Action>, s: State)
    requires Reaches(n, acts, s)
    ensures forall p :: 0 <= p < |s.eps| ==> OnTime(s.eps[p], s.log)
    decreases |acts|
  {
    if acts != [] {
      var before := LastStep(n, acts, s);
      var a := acts[|acts| - 1];
      RunOnTime(n, acts[..|acts| - 1], before);
      forall p | 0 <= p < |s.eps| ensures OnTime(s.eps[p], s.log) {
        if a.Lose? || a.p != p { ForeignStepOnTime(before, a, p); } else { OwnStepOnTime(before, a); }
      }
    }
  }

  /** Sender latency.  In every run, a message occupies the sender for at most 1500 ms, 50 k (k + 1)
      of them slept after k checks.  Its first transmission is due at most 1501 ms per queue position
      after its acceptance, its own position included: no message is still in outQueue after that,
      and one that is about to be transmitted for the first time is not late. */
  lemma SenderLatency(n: nat, acts: seq<Action>, s: State, p: nat)
    requires Reaches(n, acts, s) && p < |s.eps|
    ensures var e := s.eps[p];
            Busy(e.sender) ==>
              var k := SleepsDone(e.sender);
              && k <= MAX_ATTEMPTS && e.slept - e.startedAt == 50 * k * (k + 1) <= 1500
              && e.sender.item.id < |s.log|
              && (e.sender.Transmitting? && e.sender.attempt == 0 ==>
                    e.slept <= s.log[e.sender.item.id].slept + (s.log[e.sender.item.id].index + 1) * 1501)
    ensures var e := s.eps[p];
            forall k :: 0 <= k < |e.outQueue| ==>
              && e.outQueue[k].id < |s.log|
              && e.slept <= s.log[e.outQueue[k].id].slept + (s.log[e.outQueue[k].id].index + 1) * 1501
  {
    RunOnTime(n, acts, s);
    SleptAfterNext(SleepsDone(s.eps[p].sender));
    var e := s.eps[p];
    forall k | 0 <= k < |e.outQueue| ensures e.slept <= Deadline(s.log[e.outQueue[k].id]) {
      assert e.slept + Backlog(e.sender) + k * LONGEST_TURN <= Deadline(s.log[e.outQueue[k].id]);
      assert Backlog(e.sender) >= 0;
    }
  }

  // ------------------------------------------------------------------ sleeps and attempts, counted

  /** How often p's sender has transmitted since it last looked for a message in outQueue. */
  function TransmitsSinceTake(acts: seq<Action>, p: nat): nat {
    if acts == [] then 0
    else
      var most, a := acts[..|acts| - 1], acts[|acts| - 1];
      if a == Take(p) then 0 else TransmitsSinceTake(most, p) + if a == Transmit(p) then 1 else 0
  }

  /** The sleeps that the actions complete: 1 ms before each look into outQueue, and 100 ms for each
      transmission of the message so far after a transmission. */
  function SleepIn(acts: seq<Action>, p: nat): nat {
    if acts == [] then 0
    else
      var most, a := acts[..|acts| - 1], acts[|acts| - 1];
      SleepIn(most, p) + if a == Sleep(p) then 1 else if a == Wake(p) then 100 * TransmitsSinceTake(most, p) else 0
  }

  ghost predicate Counted(acts: seq<Action>, p: nat, e: Endpoint) {
    && e.slept == SleepIn(acts, p)
    && (Busy(e.sender) ==> Transmissions(e.sender) == TransmitsSinceTake(acts, p))
  }

  lemma CountStep(acts: seq<Action>, a: Action, p: nat)
    ensures TransmitsSinceTake(acts + [a], p)
         == if a == Take(p) then 0 else TransmitsSinceTake(acts, p) + if a == Transmit(p) then 1 else 0
    ensures SleepIn(acts + [a], p)
         == SleepIn(acts, p)
            + if a == Sleep(p) then 1 else if a == Wake(p) then 100 * TransmitsSinceTake(acts, p) else 0
  {
    assert (acts + [a])[..|acts|] == acts;
  }

  lemma CountedStep(acts: seq<Action>, s: State, a: Action, p: nat)
    requires Enabled(s, a) && p < |s.eps| && Counted(acts, p, s.eps[p])
    ensures |Step(s, a).eps| == |s.eps| && Counted(acts + [a], p, Step(s, a).eps[p])
  {
    CountStep(acts, a, p);
    if a.Lose? || a.p != p { assert Step(s, a).eps[p] == s.eps[p]; }
  }

  /** In every run, the time that p's sender has slept is the exact sum of its sleeps. */
  lemma {:induction false} SleptExactly(n: nat, acts: seq<Action>, s: State, p: nat)
    requires Reaches(n, acts, s) && p < n
    ensures |s.eps| == n && s.eps[p].slept == SleepIn(acts, p) && Counted(acts, p, s.eps[p])
    decreases |acts|
  {
    if acts != [] {
      var most, a := acts[..|acts| - 1], acts[|acts| - 1];
      var before := LastStep(n, acts, s);
      SleptExactly(n, most, before, p);
      CountedStep(most, before, a, p);
      assert acts == most + [a];
    }
  }

  function Count(acts: seq<Action>, a: Action): nat {
    if acts == [] then 0 else Count(acts[..|acts| - 1], a) + if acts[|acts| - 1] == a then 1 else 0
  }

  /** In every run, p's sender has slept 1 ms before each look into outQueue. */
  lemma {:induction false} OneSleepPerLook(n: nat, acts: seq<Action>, s: State, p: nat)
    requires Reaches(n, acts, s) && p < n
    ensures |s.eps| == n
    ensures Count(acts, Sleep(p)) == Count(acts, Take(p)) + if s.eps[p].sender.Ready? then 1 else 0
    decreases |acts|
  {
    if acts != [] {
      var before := LastStep(n, acts, s);
      OneSleepPerLook(n, acts[..|acts| - 1], before, p);
      LookStep(before, acts[|acts| - 1], p);
    }
  }

  lemma LookStep(s: State, a: Action, p: nat)
    requires Enabled(s, a) && p < |s.eps|
    ensures |Step(s, a).eps| == |s.eps|
    ensures Step(s, a).eps[p].sender.Ready? <==> a == Sleep(p) || (s.eps[p].sender.Ready? && a != Take(p))
    ensures (a == Sleep(p) ==> !s.eps[p].sender.Ready?) && (a == Take(p) ==> s.eps[p].sender.Ready?)
  {
  }

  /** In every run, a step that ends a message ends it after as many transmissions as its attempts: at
      most five, and exactly five if no ACK has ended it. */
  lemma GivesUpAfterFive(n: nat, acts: seq<Action>, s: State, a: Action)
    requires Reaches(n, acts, s) && Enabled(s, a) && Step(s, a).endings != s.endings
    ensures (a.PopAck? || a.RequeueAck?) && a.p < n
    ensures exists end: Ending :: Step(s, a).endings == s.endings + [end] && end.owner == a.p
              && end.attempt + 1 == TransmitsSinceTake(acts, a.p) <= 5
              && (end.ack.None? ==> TransmitsSinceTake(acts, a.p) == 5)
  {
    RunOnTime(n, acts, s);
    RunSize(n, acts, s);
    SleptExactly(n, acts, s, a.p);
    var end := Step(s, a).endings[|s.endings|];
    assert Step(s, a).endings == s.endings + [end];
  }

  lemma {:induction false} RunSize(n: nat, acts: seq<Action>, s: State)
    requires Reaches(n, acts, s)
    ensures |s.eps| == n
    decreases |acts|
  {
    if acts != [] {
      var before := LastStep(n, acts, s);
      RunSize(n, acts[..|acts| - 1], before);
    }
  }

  // ------------------------------------------------------------------ time stamps

  /** The clock reading behind each accepted message: the stamps come from it, and the readings of
      one sender ascend strictly and span less than 2^32 us. */
  ghost predicate StampedBy(log: seq<Message>, clock: seq<nat>) {
    && |clock| == |log|
    && (forall i :: 0 <= i < |log| ==> log[i].env.Timestamp() == CreateTimeStamp(clock[i]))
    && (forall i, j :: 0 <= i < j < |log| && log[i].src == log[j].src
          ==> clock[i] < clock[j] < clock[i] + 0x1_0000_0000)
  }

  /** For such runs the distinctness that ACK safety asks for is a fact about the clock. */
  lemma AckSafetyByClock(n: nat, acts: seq<Action>, s: State, clock: seq<nat>)
    requires Reaches(n, acts, s) && StampedBy(s.log, clock) && NoForgedAcks(s.log)
    ensures DistinctStamps(s.log) && AcksAreRight(s)
  {
    forall i, j | 0 <= i < j < |s.log| && s.log[i].src == s.log[j].src
      ensures s.log[i].env.Timestamp() != s.log[j].env.Timestamp()
    {
      StampsCollideIff(clock[i], clock[j]);
    }
    AckSafety(n, acts, s);
  }
}
