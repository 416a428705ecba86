/**
  Pieces of runs of the UDP protocol, from which the runs that show what can happen are built: an
  application offers a message, a sender transmits it, its addressee acknowledges it, and an ACK
  stops a sender.
*/
module UdpRuns {
  import opened Wrappers
  import opened Envelopes
  import opened UdpProtocol

  /** A message that an application hands to sendEnvelope. */
  datatype Offer = Offer(src: nat, dst: nat, env: Envelope)

  predicate Sendable(env: Envelope) {
    NulTerminated(env) && EnumsInRange(env)
  }

  predicate Makes(o: Offer, m: Message) {
    m.src == o.src && m.dst == o.dst && m.env == o.env
  }

  lemma Extend(n: nat, acts: seq<Action>, s: State, a: Action) returns (acts': seq<Action>, s': State)
    requires Reaches(n, acts, s) && Enabled(s, a)
    ensures Reaches(n, acts', s') && s' == Step(s, a) && acts' == acts + [a]
  {
    acts', s' := acts + [a], Step(s, a);
    assert acts'[..|acts'| - 1] == acts;
  }

  /** A queue with room accepts a message. */
  lemma AcceptOffer(n: nat, acts: seq<Action>, s: State, o: Offer) returns (acts': seq<Action>, s': State)
    requires Reaches(n, acts, s) && |s.eps| == n && o.src < n && Sendable(o.env)
    requires |s.eps[o.src].outQueue| < QUEUE_SIZE
    ensures Reaches(n, acts', s') && |s'.eps| == n
    ensures |s'.log| == |s.log| + 1 && s'.log[..|s.log|] == s.log && Makes(o, s'.log[|s.log|])
    ensures s'.net == s.net && s'.received == s.received && s'.endings == s.endings
    ensures forall q :: 0 <= q < n && q != o.src ==> s'.eps[q] == s.eps[q]
    ensures s'.eps[o.src]
         == s.eps[o.src].(outQueue := s.eps[o.src].outQueue + [AddressedEnvelope(o.dst, o.env, |s.log|)])
  {
    acts', s' := Extend(n, acts, s, Accept(o.src, o.dst, o.env, o.env.Timestamp()));
    assert o.env.WithTimestamp(o.env.Timestamp()) == o.env;
  }

  function Sent(p: nat, item: AddressedEnvelope): Datagram {
    Datagram(p, item.sockInfo, NormalForm(item.env), item.id)
  }

  /** An endpoint whose sender sleeps and that has a message queued takes and transmits it. */
  lemma TransmitQueued(n: nat, acts: seq<Action>, s: State, p: nat) returns (acts': seq<Action>, s': State)
    requires Reaches(n, acts, s) && p < n == |s.eps| && s.eps[p].sender.Asleep? && s.eps[p].outQueue != []
    ensures Reaches(n, acts', s')
    ensures s'.log == s.log && s'.received == s.received && s'.endings == s.endings
    ensures s'.net == s.net + [Sent(p, s.eps[p].outQueue[0])]
    ensures |s'.eps| == n && forall q :: 0 <= q < n && q != p ==> s'.eps[q] == s.eps[q]
    ensures s'.eps[p] == s.eps[p].(outQueue := s.eps[p].outQueue[1..],
                                   sender := AwaitingAck(s.eps[p].outQueue[0], 0),
                                   slept := s'.eps[p].slept, startedAt := s'.eps[p].startedAt)
  {
    acts', s' := Extend(n, acts, s, Sleep(p));
    acts', s' := Extend(n, acts', s', Take(p));
    acts', s' := Extend(n, acts', s', Transmit(p));
  }

  /** A fresh endpoint accepts a message and transmits it. */
  lemma SendFirst(n: nat, acts: seq<Action>, s: State, o: Offer) returns (acts': seq<Action>, s': State)
    requires Reaches(n, acts, s) && |s.eps| == n && o.src < n && Sendable(o.env) && s.eps[o.src] == NewEndpoint()
    ensures Reaches(n, acts', s') && |s'.eps| == n
    ensures |s'.log| == |s.log| + 1 && s'.log[..|s.log|] == s.log && Makes(o, s'.log[|s.log|])
    ensures s'.received == s.received && s'.endings == s.endings
    ensures s'.net == s.net + [Sent(o.src, AddressedEnvelope(o.dst, o.env, |s.log|))]
    ensures forall q :: 0 <= q < n && q != o.src ==> s'.eps[q] == s.eps[q]
    ensures s'.eps[o.src] == NewEndpoint().(sender := AwaitingAck(AddressedEnvelope(o.dst, o.env, |s.log|), 0),
                                            slept := s'.eps[o.src].slept, startedAt := s'.eps[o.src].startedAt)
  {
    acts', s' := AcceptOffer(n, acts, s, o);
    acts', s' := TransmitQueued(n, acts', s', o.src);
  }

  /** An ACK datagram reaches the ACK queue while there is room. */
  lemma DeliverAck(n: nat, acts: seq<Action>, s: State, p: nat, i: nat, keep: bool)
      returns (acts': seq<Action>, s': State)
    requires Reaches(n, acts, s) && p < n == |s.eps| && i < |s.net| && s.net[i].dst == p
    requires s.net[i].env.MessageType() == ACK_MESSAGE
    requires s.eps[p].listener.Listening? && |s.eps[p].ackQueue| < QUEUE_SIZE
    ensures Reaches(n, acts', s')
    ensures s'.log == s.log && s'.received == s.received && s'.endings == s.endings
    ensures s'.net == if keep then s.net else RemoveAt(s.net, i)
    ensures |s'.eps| == n && forall q :: 0 <= q < n && q != p ==> s'.eps[q] == s.eps[q]
    ensures s'.eps[p] == s.eps[p].(ackQueue := s.eps[p].ackQueue
                                   + [ExpiringAck(ACK_LIFETIME, s.net[i].env.Timestamp(), s.net[i].id)])
  {
    acts', s' := Extend(n, acts, s, Deliver(p, i, keep));
    acts', s' := Extend(n, acts', s', Store(p));
  }

  /** An ACK datagram that carries the stamp an endpoint waits for makes it stop. */
  lemma StopOnAck(n: nat, acts: seq<Action>, s: State, p: nat, i: nat, keep: bool)
      returns (acts': seq<Action>, s': State)
    requires Reaches(n, acts, s) && p < n == |s.eps| && i < |s.net| && s.net[i].dst == p
    requires s.net[i].env.MessageType() == ACK_MESSAGE
    requires s.eps[p].sender.AwaitingAck? && s.eps[p].listener.Listening? && s.eps[p].ackQueue == []
    requires s.net[i].env.Timestamp() == s.eps[p].sender.item.env.Timestamp()
    ensures Reaches(n, acts', s')
    ensures s'.log == s.log && s'.received == s.received
    ensures s'.net == if keep then s.net else RemoveAt(s.net, i)
    ensures exists ending: Ending :: ending.item == s.eps[p].sender.item && ending.ack.Some?
                                     && s'.endings == s.endings + [ending]
    ensures |s'.eps| == n && forall q :: 0 <= q < n && q != p ==> s'.eps[q] == s.eps[q]
    ensures s'.eps[p] == s.eps[p].(sender := Asleep, slept := s'.eps[p].slept)
  {
    acts', s' := DeliverAck(n, acts, s, p, i, keep);
    acts', s' := Extend(n, acts', s', Wake(p));
    acts', s' := Extend(n, acts', s', PopAck(p));
  }

  /** Endpoint q gets the datagram at i, hands it to its application and sends the ACK. */
  lemma DeliverAndAck(n: nat, acts: seq<Action>, s: State, q: nat, i: nat) returns (acts': seq<Action>, s': State)
    requires Reaches(n, acts, s) && q < n == |s.eps| && i < |s.net| && s.net[i].dst == q
    requires s.net[i].env.MessageType() != ACK_MESSAGE
    requires s.eps[q].listener.Listening? && s.eps[q].inQueue == [] && s.eps[q].app.Idle?
    ensures Reaches(n, acts', s') && s'.eps == s.eps && s'.log == s.log && s'.endings == s.endings
    ensures s'.net == RemoveAt(s.net, i)
                    + [Datagram(q, s.net[i].src, AckEnvelope(s.net[i].env.Timestamp()), s.net[i].id)]
    ensures s'.received == s.received + [Reception(q, AddressedEnvelope(s.net[i].src, s.net[i].env, s.net[i].id))]
  {
    acts', s' := Extend(n, acts, s, Deliver(q, i, false));
    acts', s' := Extend(n, acts', s', Store(q));
    acts', s' := Extend(n, acts', s', Receive(q));
    assert s'.eps[q].inQueue == [] == s.eps[q].inQueue;
    acts', s' := Extend(n, acts', s', SendAck(q));
    assert s'.eps[q] == s.eps[q];
  }

  /** The first of two messages reaches its addressee, and its ACK stops the sender while a duplicate
      of the ACK stays in the network. */
  lemma FirstAcked(n: nat, first: Offer, second: Offer) returns (acts: seq<Action>, s: State)
    requires first.src == second.src < n && first.dst < n && Sendable(first.env) && Sendable(second.env)
    requires first.env.MessageType() != ACK_MESSAGE
    ensures Reaches(n, acts, s) && |s.log| == 2 && Makes(first, s.log[0]) && Makes(second, s.log[1]) && |s.eps| == n
    ensures s.net == [Datagram(first.dst, first.src, AckEnvelope(first.env.Timestamp()), 0)]
    ensures forall r :: r in s.received ==> r.item.id == 0
    ensures s.eps[first.src] == NewEndpoint().(outQueue := [AddressedEnvelope(second.dst, second.env, 1)],
                                slept := s.eps[first.src].slept, startedAt := s.eps[first.src].startedAt)
  {
    var p := first.src;
    acts, s := [], Init(n);
    acts, s := AcceptOffer(n, acts, s, first);
    acts, s := AcceptOffer(n, acts, s, second);
    acts, s := TransmitQueued(n, acts, s, p);
    acts, s := DeliverAndAck(n, acts, s, first.dst, 0);
    acts, s := StopOnAck(n, acts, s, p, 0, true);
  }

  /** A sender whose only datagram gets lost hears nothing and, before the last attempt, tries again. */
  lemma LoseAndMiss(n: nat, acts: seq<Action>, s: State, p: nat) returns (acts': seq<Action>, s': State)
    requires Reaches(n, acts, s) && p < n == |s.eps| && |s.net| == 1
    requires s.eps[p].sender.AwaitingAck? && s.eps[p].ackQueue == []
    ensures Reaches(n, acts', s') && |s'.eps| == n && s'.net == [] && s'.received == s.received
    ensures var item, attempt := s.eps[p].sender.item, s.eps[p].sender.attempt;
            s'.eps[p].ackQueue == [] && s'.eps[p].sender == AfterMiss(item, attempt)
            && s'.endings == s.endings + GaveUp(p, item, attempt)
  {
    acts', s' := Extend(n, acts, s, Lose(0));
    acts', s' := Extend(n, acts', s', Wake(p));
    acts', s' := Extend(n, acts', s', PopAck(p));
  }

  lemma {:induction false} LoseTheRest(n: nat, acts: seq<Action>, s: State, p: nat)
      returns (acts': seq<Action>, s': State)
    requires Reaches(n, acts, s) && p < n == |s.eps| && |s.net| == 1 && s.received == [] && s.endings == []
    requires s.eps[p].sender.AwaitingAck? && s.eps[p].sender.attempt < 5 && s.eps[p].ackQueue == []
    ensures Reaches(n, acts', s') && s'.received == [] && s'.endings == [Ending(p, s.eps[p].sender.item, 4, None)]
    decreases 5 - s.eps[p].sender.attempt
  {
    acts', s' := LoseAndMiss(n, acts, s, p);
    if s.eps[p].sender.attempt < 4 {
      acts', s' := Extend(n, acts', s', Transmit(p));
      acts', s' := LoseTheRest(n, acts', s', p);
    }
  }

  /** A network can lose all five transmissions of any message, which is then given up undelivered. */
  lemma LostMessageIsGivenUp(n: nat, o: Offer) returns (acts: seq<Action>, s: State)
    requires o.src < n && Sendable(o.env)
    ensures Reaches(n, acts, s) && s.received == []
    ensures s.endings == [Ending(o.src, AddressedEnvelope(o.dst, o.env, 0), 4, None)]
  {
    acts, s := [], Init(n);
    acts, s := SendFirst(n, acts, s, o);
    acts, s := LoseTheRest(n, acts, s, o.src);
  }
}
