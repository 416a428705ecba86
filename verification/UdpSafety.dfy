/**
  End-to-end safety of the acknowledgements, over a network that loses, duplicates and reorders.
  The invariant holds in every run.  It makes a sender that stops because of an ACK right under two
  conditions on what the applications send, and `AcksAreRightIff` says exactly when it is right.
*/
module UdpSafety {
  import opened Envelopes
  import opened UdpProtocol
  import opened UdpRuns

  // ------------------------------------------------------------------ the invariant

  /** What the application at the destination of message `id` gets from tryReceiveEnvelope. */
  ghost function ReceptionOf(log: seq<Message>, id: nat): Reception
    requires id < |log|
  {
    Reception(log[id].dst, AddressedEnvelope(log[id].src, NormalForm(log[id].env), id))
  }

  /** The addressee's application has popped this very message. */
  ghost predicate Delivered(log: seq<Message>, received: seq<Reception>, id: nat) {
    id < |log| && ReceptionOf(log, id) in received
  }

  /** An entry of p's outQueue, or the message that p's sender is busy with. */
  ghost predicate IsOutgoing(log: seq<Message>, p: nat, item: AddressedEnvelope) {
    item.id < |log| && log[item.id].src == p && log[item.id].dst == item.sockInfo && log[item.id].env == item.env
  }

  /** An envelope at q that came from item.sockInfo: the normal form of an accepted message that is
      no ACK. */
  ghost predicate IsIncoming(log: seq<Message>, q: nat, item: AddressedEnvelope) {
    && item.id < |log| && log[item.id].src == item.sockInfo && log[item.id].dst == q
    && item.env == NormalForm(log[item.id].env) && item.env.MessageType() != ACK_MESSAGE
  }

  /** A time stamp held by p as an ACK: it belongs to a message of p that was delivered, or to an
      ACK-typed envelope that some application sent to p. */
  ghost predicate IsAck(log: seq<Message>, received: seq<Reception>, p: nat, t: UInt32, id: nat) {
    && id < |log| && log[id].env.Timestamp() == t
    && ((log[id].src == p && Delivered(log, received, id)) || IsForgery(log[id], p))
  }

  ghost predicate IsForgery(m: Message, p: nat) {
    m.dst == p && m.env.MessageType() == ACK_MESSAGE
  }

  ghost predicate DatagramOk(log: seq<Message>, received: seq<Reception>, d: Datagram) {
    if d.env.MessageType() == ACK_MESSAGE then IsAck(log, received, d.dst, d.env.Timestamp(), d.id)
    else IsIncoming(log, d.dst, AddressedEnvelope(d.src, d.env, d.id))
  }

  ghost predicate SenderOk(log: seq<Message>, received: seq<Reception>, p: nat, snd: Sender) {
    && (Busy(snd) ==> IsOutgoing(log, p, snd.item))
    && (snd.Requeueing? ==> IsAck(log, received, p, snd.ack.tStamp, snd.ack.id))
  }

  ghost predicate ListenerOk(log: seq<Message>, received: seq<Reception>, p: nat, l: Listener) {
    match l
    case Listening => true
    case StoringAck(ack, _) => IsAck(log, received, p, ack.tStamp, ack.id)
    case EvictingAck(ack, _) => IsAck(log, received, p, ack.tStamp, ack.id)
    case StoringEnv(item, _) => IsIncoming(log, p, item)
    case EvictingEnv(item, _) => IsIncoming(log, p, item)
  }

  ghost predicate EndpointOk(log: seq<Message>, received: seq<Reception>, p: nat, e: Endpoint) {
    && (forall x :: x in e.inQueue ==> IsIncoming(log, p, x))
    && (forall x :: x in e.outQueue ==> IsOutgoing(log, p, x))
    && (forall x :: x in e.ackQueue ==> IsAck(log, received, p, x.tStamp, x.id))
    && SenderOk(log, received, p, e.sender)
    && ListenerOk(log, received, p, e.listener)
    && (e.app.Acking? ==> IsIncoming(log, p, e.app.item) && Delivered(log, received, e.app.item.id))
  }

  ghost predicate EndingOk(log: seq<Message>, received: seq<Reception>, end: Ending) {
    && IsOutgoing(log, end.owner, end.item)
    && (end.ack.Some? ==>
          && end.ack.value.tStamp == end.item.env.Timestamp()
          && IsAck(log, received, end.owner, end.ack.value.tStamp, end.ack.value.id))
  }

  ghost predicate Inv(s: State) {
    && (forall p :: 0 <= p < |s.eps| ==> EndpointOk(s.log, s.received, p, s.eps[p]))
    && (forall d :: d in s.net ==> DatagramOk(s.log, s.received, d))
    && (forall end :: end in s.endings ==> EndingOk(s.log, s.received, end))
    && (forall m :: m in s.log ==> m.src < |s.eps|)
    && (forall r :: r in s.received ==> r.owner < |s.eps| && IsIncoming(s.log, r.owner, r.item))
  }

  // ------------------------------------------------------------------ facts survive growth

  ghost predicate Grows(s: State, s': State) {
    && |s.log| <= |s'.log| && s'.log[..|s.log|] == s.log
    && (forall r :: r in s.received ==> r in s'.received)
  }

  lemma LogEntryStays(s: State, s': State, id: nat)
    requires Grows(s, s') && id < |s.log|
    ensures s'.log[id] == s.log[id]
  {
    assert s'.log[id] == s'.log[..|s.log|][id];
  }

  lemma EndpointStaysOk(s: State, s': State, p: nat, e: Endpoint)
    requires Grows(s, s') && EndpointOk(s.log, s.received, p, e)
    ensures EndpointOk(s'.log, s'.received, p, e)
  {
    forall id: nat | id < |s.log| ensures s'.log[id] == s.log[id] { LogEntryStays(s, s', id); }
  }

  lemma RestStaysOk(s: State, s': State)
    requires Grows(s, s') && Inv(s)
    ensures forall p :: 0 <= p < |s.eps| ==> EndpointOk(s'.log, s'.received, p, s.eps[p])
    ensures forall d :: d in s.net ==> DatagramOk(s'.log, s'.received, d)
    ensures forall end :: end in s.endings ==> EndingOk(s'.log, s'.received, end)
    ensures forall r :: r in s.received ==> IsIncoming(s'.log, r.owner, r.item)
  {
    forall p | 0 <= p < |s.eps| ensures EndpointOk(s'.log, s'.received, p, s.eps[p]) {
      EndpointStaysOk(s, s', p, s.eps[p]);
    }
    forall id: nat | id < |s.log| ensures s'.log[id] == s.log[id] { LogEntryStays(s, s', id); }
  }

  // ------------------------------------------------------------------ every step keeps it

  lemma AcceptKeeps(s: State, p: nat, dst: nat, env: Envelope, stamp: UInt32)
    requires Inv(s) && p < |s.eps|
    ensures Inv(AcceptStep(s, p, dst, env, stamp))
  {
    var s' := AcceptStep(s, p, dst, env, stamp);
    if |s.eps[p].outQueue| < QUEUE_SIZE {
      RestStaysOk(s, s');
    }
  }

  /** What the pop step of a check may change. */
  lemma PopAckFrame(s: State, p: nat)
    requires p < |s.eps| && s.eps[p].sender.Checking?
    ensures var s' := PopAckStep(s, p);
            && s' == s.(eps := s.eps[p := s'.eps[p]], endings := s'.endings)
            && s'.eps[p] == s.eps[p].(ackQueue := s'.eps[p].ackQueue, sender := s'.eps[p].sender)
            && (forall x :: x in s'.eps[p].ackQueue ==> x in s.eps[p].ackQueue)
  {
  }

  lemma PopAckKeeps(s: State, p: nat)
    requires Inv(s) && p < |s.eps| && s.eps[p].sender.Checking?
    ensures Inv(PopAckStep(s, p))
  {
    var e, s' := s.eps[p], PopAckStep(s, p);
    assert EndpointOk(s.log, s.received, p, e);
    PopAckFrame(s, p);
    if e.ackQueue != [] { assert e.ackQueue[0] in e.ackQueue; }
    assert SenderOk(s.log, s.received, p, s'.eps[p].sender);
    assert forall end :: end in s'.endings ==> EndingOk(s.log, s.received, end);
  }

  lemma TransmitKeeps(s: State, p: nat)
    requires Inv(s) && p < |s.eps| && s.eps[p].sender.Transmitting?
    ensures Inv(TransmitStep(s, p))
  {
    var item := s.eps[p].sender.item;
    assert IsOutgoing(s.log, p, item);
    assert s.log[item.id] in s.log;
  }

  lemma ReceiveKeeps(s: State, p: nat)
    requires Inv(s) && p < |s.eps|
    ensures Inv(ReceiveStep(s, p))
  {
    var e := s.eps[p];
    if e.inQueue != [] {
      var s' := ReceiveStep(s, p);
      RestStaysOk(s, s');
      var item := e.inQueue[0];
      assert IsIncoming(s.log, p, item);
      assert s'.received[|s.received|] == Reception(p, item) == ReceptionOf(s'.log, item.id);
      assert forall x :: x in e.inQueue[1..] ==> x in e.inQueue;
    }
  }

  lemma SendAckKeeps(s: State, p: nat)
    requires Inv(s) && p < |s.eps| && s.eps[p].app.Acking?
    ensures Inv(SendAckStep(s, p))
  {
    var item := s.eps[p].app.item;
    assert IsIncoming(s.log, p, item);
    assert DatagramOk(s.log, s.received, Datagram(p, item.sockInfo, AckEnvelope(item.env.Timestamp()), item.id));
  }

  lemma DeliverKeeps(s: State, p: nat, i: nat, keep: bool)
    requires Inv(s) && Enabled(s, Deliver(p, i, keep))
    ensures Inv(Step(s, Deliver(p, i, keep)))
  {
    var d := s.net[i];
    assert DatagramOk(s.log, s.received, d);
    assert forall x :: x in RemoveAt(s.net, i) ==> x in s.net;
  }

  lemma LocalKeeps(s: State, p: nat, e': Endpoint)
    requires Inv(s) && p < |s.eps| && EndpointOk(s.log, s.received, p, e')
    ensures Inv(s.(eps := s.eps[p := e']))
  {
  }

  lemma SenderStepsKeep(s: State, a: Action)
    requires Inv(s) && Enabled(s, a) && (a.Sleep? || a.Take? || a.Wake? || a.RequeueAck?)
    ensures Inv(Step(s, a))
  {
    var e := s.eps[a.p];
    assert EndpointOk(s.log, s.received, a.p, e);
    var e' := Step(s, a).eps[a.p];
    assert EndpointOk(s.log, s.received, a.p, e');
    LocalKeeps(s, a.p, e');
  }

  lemma ListenerStepsKeep(s: State, a: Action)
    requires Inv(s) && Enabled(s, a) && (a.Store? || a.Evict?)
    ensures Inv(Step(s, a))
  {
    var e := s.eps[a.p];
    assert EndpointOk(s.log, s.received, a.p, e);
    var e' := if a.Store? then StoreStep(e) else EvictStep(e);
    assert EndpointOk(s.log, s.received, a.p, e');
    LocalKeeps(s, a.p, e');
  }

  lemma StepKeeps(s: State, a: Action)
    requires Inv(s) && Enabled(s, a)
    ensures Inv(Step(s, a))
  {
    match a {
      case Accept(p, dst, env, stamp) => AcceptKeeps(s, p, dst, env, stamp);
      case Transmit(p) => TransmitKeeps(s, p);
      case PopAck(p) => PopAckKeeps(s, p);
      case Deliver(p, i, keep) => DeliverKeeps(s, p, i, keep);
      case Lose(i) => assert forall x :: x in RemoveAt(s.net, i) ==> x in s.net;
      case Receive(p) => ReceiveKeeps(s, p);
      case SendAck(p) => SendAckKeeps(s, p);
      case Store(p) => ListenerStepsKeep(s, a);
      case Evict(p) => ListenerStepsKeep(s, a);
      case _ => SenderStepsKeep(s, a);
    }
  }

  lemma {:induction false} RunKeeps(n: nat, acts: seq<Action>, s: State)
    requires Reaches(n, acts, s)
    ensures Inv(s) && |s.eps| == n
    decreases |acts|
  {
    if acts != [] {
      var before := LastStep(n, acts, s);
      RunKeeps(n, acts[..|acts| - 1], before);
      StepKeeps(before, acts[|acts| - 1]);
    }
  }

  // ------------------------------------------------------------------ the theorem

  /** Every message that an ACK ended was popped by its addressee's application, in full. */
  ghost predicate AcksAreRight(s: State) {
    forall end :: end in s.endings && end.ack.Some? ==> Delivered(s.log, s.received, end.item.id)
  }

  /** No sender gives one time stamp to two messages. */
  ghost predicate DistinctStamps(log: seq<Message>) {
    forall i, j :: 0 <= i < |log| && 0 <= j < |log| && i != j && log[i].src == log[j].src
                   ==> log[i].env.Timestamp() != log[j].env.Timestamp()
  }

  /** No application sends an ACK-typed envelope that carries the stamp of a message of its
      addressee.  In particular this holds when applications send no ACK-typed envelopes. */
  ghost predicate NoForgedAcks(log: seq<Message>) {
    forall i, j :: 0 <= i < |log| && 0 <= j < |log| && IsForgery(log[i], log[j].src)
                   ==> log[i].env.Timestamp() != log[j].env.Timestamp()
  }

  /** In every run, a message that was ended by an ACK has a namesake, of the same sender and with
      the same stamp, that its addressee has popped, unless an application forged the ACK. */
  lemma AckMeansNamesakeDelivered(n: nat, acts: seq<Action>, s: State, end: Ending)
    requires Reaches(n, acts, s) && end in s.endings && end.ack.Some?
    ensures IsOutgoing(s.log, end.owner, end.item)
    ensures IsAck(s.log, s.received, end.owner, end.item.env.Timestamp(), end.ack.value.id)
  {
    RunKeeps(n, acts, s);
  }

  /** With distinct stamps and no forged ACKs, it is the very message that was delivered. */
  lemma AckSafety(n: nat, acts: seq<Action>, s: State)
    requires Reaches(n, acts, s) && DistinctStamps(s.log) && NoForgedAcks(s.log)
    ensures AcksAreRight(s)
  {
    forall end | end in s.endings && end.ack.Some?
      ensures Delivered(s.log, s.received, end.item.id)
    {
      AckMeansNamesakeDelivered(n, acts, s, end);
      var i, j := end.item.id, end.ack.value.id;
      assert i == j;
    }
  }

  // ------------------------------------------------------------------ exactly when ACKs are right

  /** The run accepted some of these messages, each at most once, in any order. */
  ghost predicate Chosen(log: seq<Message>, offers: seq<Offer>, choice: seq<nat>) {
    && |choice| == |log|
    && (forall i, j :: 0 <= i < j < |log| ==> choice[i] != choice[j])
    && (forall i :: 0 <= i < |log| ==> choice[i] < |offers| && Makes(offers[choice[i]], log[i]))
  }

  /** Every run on n endpoints whose messages are among these has right ACKs. */
  ghost predicate AlwaysRight(n: nat, offers: seq<Offer>) {
    forall acts, s, choice :: Reaches(n, acts, s) && Chosen(s.log, offers, choice) ==> AcksAreRight(s)
  }

  /** Something that the messages `a` and `b` share lets an ACK for a end b: one sender used a stamp
      twice, and a's addressee can acknowledge it; or a looks like an ACK to b's sender. */
  predicate Confusable(n: nat, a: Offer, b: Offer, same: bool) {
    && a.src < n && b.src < n && a.env.Timestamp() == b.env.Timestamp()
    && if a.env.MessageType() == ACK_MESSAGE then a.dst == b.src
       else !same && a.src == b.src && a.dst < n
  }

  ghost predicate Clash(n: nat, offers: seq<Offer>) {
    exists i, j :: 0 <= i < |offers| && 0 <= j < |offers| && Confusable(n, offers[i], offers[j], i == j)
  }

  lemma RightWithoutClash(n: nat, offers: seq<Offer>, acts: seq<Action>, s: State, choice: seq<nat>)
    requires !Clash(n, offers) && Reaches(n, acts, s) && Chosen(s.log, offers, choice)
    ensures AcksAreRight(s)
  {
    RunKeeps(n, acts, s);
    forall end | end in s.endings && end.ack.Some? ensures Delivered(s.log, s.received, end.item.id) {
      assert EndingOk(s.log, s.received, end);
      var i, j := end.ack.value.id, end.item.id;
      assert s.log[i] in s.log && s.log[j] in s.log;
      assert !Confusable(n, offers[choice[i]], offers[choice[j]], choice[i] == choice[j]);
      assert Delivered(s.log, s.received, i) ==> IsIncoming(s.log, s.log[i].dst, ReceptionOf(s.log, i).item);
    }
  }

  /** An ACK that fits stops the sender of a message that was not delivered. */
  lemma StopWrongly(n: nat, acts: seq<Action>, s: State, p: nat) returns (acts': seq<Action>, s': State)
    requires Reaches(n, acts, s) && p < n == |s.eps| && s.net != [] && s.net[0].dst == p
    requires s.net[0].env.MessageType() == ACK_MESSAGE
    requires s.eps[p].sender.AwaitingAck? && s.eps[p].listener.Listening? && s.eps[p].ackQueue == []
    requires s.net[0].env.Timestamp() == s.eps[p].sender.item.env.Timestamp()
    requires !Delivered(s.log, s.received, s.eps[p].sender.item.id)
    ensures Reaches(n, acts', s') && s'.log == s.log && !AcksAreRight(s')
  {
    acts', s' := StopOnAck(n, acts, s, p, 0, false);
    assert s'.endings[|s.endings|] in s'.endings;
  }

  /** An ACK-typed envelope from an endpoint to itself stops that endpoint's sender. */
  lemma OwnAckRun(n: nat, o: Offer) returns (acts: seq<Action>, s: State)
    requires o.src == o.dst < n && Sendable(o.env) && o.env.MessageType() == ACK_MESSAGE
    ensures Reaches(n, acts, s) && |s.log| == 1 && Makes(o, s.log[0]) && !AcksAreRight(s)
  {
    acts, s := [], Init(n);
    acts, s := SendFirst(n, acts, s, o);
    acts, s := StopWrongly(n, acts, s, o.src);
  }

  /** One from another endpoint stops a sender that nobody has answered. */
  lemma ForgedAckRun(n: nat, forged: Offer, o: Offer) returns (acts: seq<Action>, s: State)
    requires forged.src < n && forged.src != o.src == forged.dst < n && Sendable(forged.env) && Sendable(o.env)
    requires forged.env.MessageType() == ACK_MESSAGE && forged.env.Timestamp() == o.env.Timestamp()
    ensures Reaches(n, acts, s) && |s.log| == 2 && Makes(forged, s.log[0]) && Makes(o, s.log[1]) && !AcksAreRight(s)
  {
    acts, s := [], Init(n);
    acts, s := SendFirst(n, acts, s, forged);
    acts, s := SendFirst(n, acts, s, o);
    assert s.received == [];
    acts, s := StopWrongly(n, acts, s, o.src);
  }

  /** If a sender uses a stamp twice, a duplicate of the first message's ACK stops the second. */
  lemma ReusedStampRun(n: nat, first: Offer, second: Offer) returns (acts: seq<Action>, s: State)
    requires first.src == second.src < n && first.dst < n && Sendable(first.env) && Sendable(second.env)
    requires first.env.MessageType() != ACK_MESSAGE && first.env.Timestamp() == second.env.Timestamp()
    ensures Reaches(n, acts, s) && |s.log| == 2 && Makes(first, s.log[0]) && Makes(second, s.log[1]) && !AcksAreRight(s)
  {
    acts, s := FirstAcked(n, first, second);
    acts, s := TransmitQueued(n, acts, s, first.src);
    acts, s := StopWrongly(n, acts, s, first.src);
  }

  lemma ClashGoesWrong(n: nat, offers: seq<Offer>, i: nat, j: nat)
      returns (acts: seq<Action>, s: State, choice: seq<nat>)
    requires i < |offers| && j < |offers| && Confusable(n, offers[i], offers[j], i == j)
    requires forall o :: o in offers ==> Sendable(o.env)
    ensures Reaches(n, acts, s) && Chosen(s.log, offers, choice) && !AcksAreRight(s)
  {
    var a, b := offers[i], offers[j];
    if a.env.MessageType() != ACK_MESSAGE {
      acts, s := ReusedStampRun(n, a, b);
      choice := [i, j];
    } else if a.src == b.src {
      acts, s := OwnAckRun(n, a);
      choice := [i];
    } else {
      acts, s := ForgedAckRun(n, a, b);
      choice := [i, j];
    }
  }

  /** Exactly when ACKs are right: for any number of endpoints and any messages that applications may
      send, in any order, every run ends messages rightly if and only if no two of them clash. */
  lemma AcksAreRightIff(n: nat, offers: seq<Offer>)
    requires forall o :: o in offers ==> Sendable(o.env)
    ensures AlwaysRight(n, offers) <==> !Clash(n, offers)
  {
    if i, j :| 0 <= i < |offers| && 0 <= j < |offers| && Confusable(n, offers[i], offers[j], i == j) {
      var acts, s, choice := ClashGoesWrong(n, offers, i, j);
    } else {
      forall acts, s, choice | Reaches(n, acts, s) && Chosen(s.log, offers, choice)
        ensures AcksAreRight(s)
      {
        RightWithoutClash(n, offers, acts, s, choice);
      }
    }
  }

  // ------------------------------------------------------------------ what is accepted

  /** The positions of the actions whose envelope outQueue accepted: those that found fewer than four
      messages in it. */
  function Accepted(n: nat, acts: seq<Action>): seq<nat>
    requires Run(Init(n), acts).Some?
  {
    if acts == [] then []
    else
      var most, a := acts[..|acts| - 1], acts[|acts| - 1];
      var t := Run(Init(n), most).value;
      Accepted(n, most) + if a.Accept? && |t.eps[a.p].outQueue| < 4 then [|most|] else []
  }

  /** The envelope that was offered, but for its time stamp. */
  predicate SameButStamp(a: Envelope, b: Envelope) {
    && a.payload == b.payload && a.metaData.dataType == b.metaData.dataType
    && a.metaData.senderId == b.metaData.senderId && a.metaData.recepientId == b.metaData.recepientId
    && a.metaData.header.messageType == b.metaData.header.messageType
    && a.metaData.header.payloadSize == b.metaData.header.payloadSize
    && a.metaData.header.totalSize == b.metaData.header.totalSize
  }

  ghost predicate StampedOffer(a: Action, m: Message) {
    && a.Accept? && m.src == a.p && m.dst == a.dst
    && m.env.metaData.header.timestamp == a.stamp && SameButStamp(m.env, a.env)
  }

  /** In every run, the messages that endpoints have accepted are, in order, those that were offered
      while there was room, each as it was offered and with the stamp of that moment. */
  lemma {:induction false} AcceptedAsOffered(n: nat, acts: seq<Action>, s: State)
    requires Reaches(n, acts, s)
    ensures |Accepted(n, acts)| == |s.log|
    ensures forall i :: 0 <= i < |s.log| ==>
              Accepted(n, acts)[i] < |acts| && StampedOffer(acts[Accepted(n, acts)[i]], s.log[i])
    decreases |acts|
  {
    if acts != [] {
      var most, a := acts[..|acts| - 1], acts[|acts| - 1];
      var before := LastStep(n, acts, s);
      AcceptedAsOffered(n, most, before);
      LogOnlyGrowsByAccepting(before, a);
    }
  }

  lemma LogOnlyGrowsByAccepting(s: State, a: Action)
    requires Enabled(s, a)
    ensures if a.Accept? && |s.eps[a.p].outQueue| < 4
            then |Step(s, a).log| == |s.log| + 1 && Step(s, a).log[..|s.log|] == s.log
                 && StampedOffer(a, Step(s, a).log[|s.log|])
            else Step(s, a).log == s.log
  {
  }
}
