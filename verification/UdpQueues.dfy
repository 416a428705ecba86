/**
  The queues of a UDP endpoint under interleaving: they stay bounded, and the evict-oldest loops
  terminate.
*/
module UdpQueues {
  import opened Envelopes
  import opened UdpProtocol
  import opened UdpRuns

  // ------------------------------------------------------------------ bounded queues and evictions

  /** The entry that the sender holds between popping and re-queueing it. */
  function HeldBySender(e: Endpoint): nat {
    if e.sender.Requeueing? then 1 else 0
  }

  ghost predicate ListenerBounded(e: Endpoint) {
    match e.listener
    case Listening => true
    case StoringAck(ack, n) =>
      ack.counter == ACK_LIFETIME && n <= 2 && |e.ackQueue| + HeldBySender(e) + n <= QUEUE_SIZE + 1
    case EvictingAck(ack, n) =>
      ack.counter == ACK_LIFETIME && n <= 1 && |e.ackQueue| + HeldBySender(e) + n <= QUEUE_SIZE + 1
    case StoringEnv(_, n) => n <= 1 && (n == 1 ==> |e.inQueue| < QUEUE_SIZE)
    case EvictingEnv(_, n) => n == 0
  }

  ghost predicate Bounded(e: Endpoint) {
    && |e.inQueue| <= QUEUE_SIZE && |e.outQueue| <= QUEUE_SIZE && |e.ackQueue| <= QUEUE_SIZE
    && (forall a :: a in e.ackQueue ==> 1 <= a.counter <= ACK_LIFETIME)
    && (e.sender.Requeueing? ==> 1 <= e.sender.ack.counter < ACK_LIFETIME)
    && (Busy(e.sender) ==> e.sender.attempt < MAX_ATTEMPTS)
    && ListenerBounded(e)
  }

  lemma PopAckBounded(s: State, p: nat)
    requires p < |s.eps| && s.eps[p].sender.Checking? && Bounded(s.eps[p])
    ensures Bounded(PopAckStep(s, p).eps[p])
  {
    var e := s.eps[p];
    if e.ackQueue != [] {
      assert e.ackQueue[0] in e.ackQueue;
      assert forall a :: a in e.ackQueue[1..] ==> a in e.ackQueue;
    }
  }

  lemma SenderBounded(s: State, a: Action)
    requires Enabled(s, a) && !a.Lose? && Bounded(s.eps[a.p])
    requires a.Accept? || a.Sleep? || a.Take? || a.Transmit? || a.Wake? || a.RequeueAck?
    ensures Bounded(Step(s, a).eps[a.p])
  {
  }

  lemma ListenerAndAppBounded(s: State, a: Action)
    requires Enabled(s, a) && !a.Lose? && Bounded(s.eps[a.p])
    requires a.Deliver? || a.Store? || a.Evict? || a.Receive? || a.SendAck?
    ensures Bounded(Step(s, a).eps[a.p])
  {
  }

  lemma StepBounded(s: State, a: Action)
    requires Enabled(s, a) && forall p :: 0 <= p < |s.eps| ==> Bounded(s.eps[p])
    ensures forall p :: 0 <= p < |s.eps| ==> Bounded(Step(s, a).eps[p])
  {
    forall p | 0 <= p < |s.eps| ensures Bounded(Step(s, a).eps[p]) {
      if a.Lose? || a.p != p { assert Step(s, a).eps[p] == s.eps[p]; }
      else if a.PopAck? { PopAckBounded(s, p); }
      else if a.Deliver? || a.Store? || a.Evict? || a.Receive? || a.SendAck? { ListenerAndAppBounded(s, a); }
      else { SenderBounded(s, a); }
    }
  }

  lemma {:induction false} RunBounded(n: nat, acts: seq<Action>, s: State)
    requires Reaches(n, acts, s)
    ensures forall p :: 0 <= p < |s.eps| ==> Bounded(s.eps[p])
    decreases |acts|
  {
    if acts != [] {
      var before := LastStep(n, acts, s);
      RunBounded(n, acts[..|acts| - 1], before);
      StepBounded(before, acts[|acts| - 1]);
    }
  }

  /** The loop of storeTstampToAckQueue ends after at most two evictions, although the sender pops
      and re-queues between its steps; that of storeEnvToInQueue after at most one.  When the bound
      is reached there is room, so the next push succeeds. */
  lemma EvictionLoopsEnd(n: nat, acts: seq<Action>, s: State, p: nat)
    requires Reaches(n, acts, s) && p < |s.eps|
    ensures match s.eps[p].listener
            case StoringAck(_, k) => k <= 2 && (k == 2 ==> |s.eps[p].ackQueue| < QUEUE_SIZE)
            case StoringEnv(_, k) => k <= 1 && (k == 1 ==> |s.eps[p].inQueue| < QUEUE_SIZE)
            case EvictingAck(_, k) => k <= 1
            case EvictingEnv(_, k) => k == 0
            case Listening => true
  {
    RunBounded(n, acts, s);
  }

  lemma EndingsGrow(s: State, a: Action)
    requires Enabled(s, a)
    ensures |Step(s, a).endings| >= |s.endings| && Step(s, a).endings[..|s.endings|] == s.endings
    ensures |Step(s, a).eps| == |s.eps|
  {
  }

  /** Duplicates of an ACK fill the ACK queue up to m entries. */
  lemma {:induction false} AcksPileUp(n: nat, acts: seq<Action>, s: State, p: nat, m: nat)
      returns (acts': seq<Action>, s': State)
    requires Reaches(n, acts, s) && p < n == |s.eps| && m <= QUEUE_SIZE
    requires s.net != [] && s.net[0].dst == p && s.net[0].env.MessageType() == ACK_MESSAGE
    requires s.eps[p].listener.Listening? && s.eps[p].ackQueue == []
    ensures Reaches(n, acts', s') && |s'.eps| == n && s'.net == s.net
    ensures s'.eps[p] == s.eps[p].(ackQueue := s'.eps[p].ackQueue) && |s'.eps[p].ackQueue| == m
    ensures forall ack :: ack in s'.eps[p].ackQueue ==>
              ack.tStamp == s.net[0].env.Timestamp() && ack.counter == ACK_LIFETIME
  {
    acts', s' := acts, s;
    if m > 0 {
      acts', s' := AcksPileUp(n, acts, s, p, m - 1);
      acts', s' := DeliverAck(n, acts', s', p, 0, true);
    }
  }

  /** The sender examines the oldest of four ACKs, which does not match, and holds it while the
      listener fills the queue again. */
  lemma MissAndRefill(n: nat, acts: seq<Action>, s: State, p: nat) returns (acts': seq<Action>, s': State)
    requires Reaches(n, acts, s) && p < n == |s.eps|
    requires s.net != [] && s.net[0].dst == p && s.net[0].env.MessageType() == ACK_MESSAGE
    requires s.eps[p].sender.AwaitingAck? && s.eps[p].listener.Listening? && |s.eps[p].ackQueue| == QUEUE_SIZE
    requires s.eps[p].ackQueue[0].tStamp != s.eps[p].sender.item.env.Timestamp()
    requires s.eps[p].ackQueue[0].counter == ACK_LIFETIME
    ensures Reaches(n, acts', s') && |s'.eps| == n && s'.net == s.net
    ensures s'.eps[p].sender.Requeueing? && s'.eps[p].listener.Listening? && |s'.eps[p].ackQueue| == QUEUE_SIZE
  {
    acts', s' := Extend(n, acts, s, Wake(p));
    acts', s' := Extend(n, acts', s', PopAck(p));
    acts', s' := DeliverAck(n, acts', s', p, 0, true);
  }

  lemma EvictTwice(n: nat, acts: seq<Action>, s: State, p: nat) returns (acts': seq<Action>, s': State)
    requires Reaches(n, acts, s) && p < n == |s.eps|
    requires s.net != [] && s.net[0].dst == p && s.net[0].env.MessageType() == ACK_MESSAGE
    requires s.eps[p].sender.Requeueing? && s.eps[p].listener.Listening? && |s.eps[p].ackQueue| == QUEUE_SIZE
    ensures Reaches(n, acts', s') && |s'.eps| == n
    ensures s'.eps[p].listener.StoringAck? && s'.eps[p].listener.evictions == 2
  {
    acts', s' := Extend(n, acts, s, Deliver(p, 0, true));
    acts', s' := Extend(n, acts', s', Store(p));
    acts', s' := Extend(n, acts', s', Evict(p));
    acts', s' := Extend(n, acts', s', RequeueAck(p));
    acts', s' := Extend(n, acts', s', Store(p));
    acts', s' := Extend(n, acts', s', Evict(p));
  }

  /** Two evictions do happen, for any two messages of a sender with different stamps: the sender
      holds an entry, the queue is full, and the entry comes back between the listener's steps. */
  lemma TwoEvictionsHappen(n: nat, first: Offer, second: Offer) returns (acts: seq<Action>, s: State)
    requires first.src == second.src < n && first.dst < n && Sendable(first.env) && Sendable(second.env)
    requires first.env.MessageType() != ACK_MESSAGE && first.env.Timestamp() != second.env.Timestamp()
    ensures Reaches(n, acts, s) && first.src < |s.eps|
    ensures s.eps[first.src].listener.StoringAck? && s.eps[first.src].listener.evictions == 2
  {
    var p := first.src;
    acts, s := FirstAcked(n, first, second);
    acts, s := TransmitQueued(n, acts, s, p);
    acts, s := AcksPileUp(n, acts, s, p, QUEUE_SIZE);
    assert s.eps[p].ackQueue[0] in s.eps[p].ackQueue;
    acts, s := MissAndRefill(n, acts, s, p);
    acts, s := EvictTwice(n, acts, s, p);
  }
}
