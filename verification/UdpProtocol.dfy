/**
  The reliable-UDP protocol of common/endpoint/UdpEndpointBase.cpp as a transition system.

  Any number of endpoints, each with a sender thread, a listener thread and an application, share
  a network that may lose, duplicate and reorder datagrams.  One step is one queue operation (they
  hold a mutex), one datagram sent or received, or one completed sleep, so that the threads of an
  endpoint interleave everywhere the source lets them.

  Entries carry an `id`: the position in `log` of the accepted message that they go back to.  The
  source has no such field; no step depends on it.  The same holds for `slept` and `startedAt`,
  which count requested sleeps.
*/
module UdpProtocol {
  import opened Wrappers
  import opened Envelopes
  import opened Fifo

  const QUEUE_SIZE: nat := 4
  const MAX_ATTEMPTS: nat := 5
  const ACK_LIFETIME: Byte := 3

  /** An envelope with the address of its peer; an endpoint's address is its index. */
  datatype AddressedEnvelope = AddressedEnvelope(sockInfo: nat, env: Envelope, id: nat)

  datatype ExpiringAck = ExpiringAck(counter: Byte, tStamp: UInt32, id: nat)

  // ------------------------------------------------------------------ the ACK queue

  /** `counter--` on a uint8_t. */
  function Decrement(c: Byte): Byte {
    (c + 0xFF) % 0x100
  }

  /** An examined entry that did not match, when it stays alive. */
  function Survivor(ack: ExpiringAck): Option<ExpiringAck> {
    var c := Decrement(ack.counter);
    if c > 0 then Some(ack.(counter := c)) else None
  }

  /** checkAckQueue without interference: the queue afterwards and the answer. */
  function CheckAck(q: seq<ExpiringAck>, t: UInt32): (seq<ExpiringAck>, bool) {
    if q == [] then ([], false)
    else if q[0].tStamp == t then (q[1..], true)
    else match Survivor(q[0])
         case None => (q[1..], false)
         case Some(ack) => (Push(q[1..], QUEUE_SIZE, ack), false)
  }

  // ------------------------------------------------------------------ states

  datatype Sender =
    | Asleep                                                  // before the 1 ms sleep of repeatingSend
    | Ready                                                   // before outQueue.pop
    | Transmitting(item: AddressedEnvelope, attempt: nat)     // before sendDataGram
    | AwaitingAck(item: AddressedEnvelope, attempt: nat)      // in the back-off sleep
    | Checking(item: AddressedEnvelope, attempt: nat)         // before ackQueue.pop
    | Requeueing(item: AddressedEnvelope, attempt: nat, ack: ExpiringAck)  // before ackQueue.push

  /** The sender has a message in its hands. */
  predicate Busy(snd: Sender) {
    !snd.Asleep? && !snd.Ready?
  }

  /** How often the sender has transmitted the message in its hands. */
  function Transmissions(snd: Sender): nat
    requires Busy(snd)
  {
    if snd.Transmitting? then snd.attempt else snd.attempt + 1
  }

  datatype Listener =
    | Listening
    | StoringAck(ack: ExpiringAck, evictions: nat)            // before ackQueue.push
    | EvictingAck(ack: ExpiringAck, evictions: nat)           // push failed, before ackQueue.pop
    | StoringEnv(item: AddressedEnvelope, evictions: nat)     // before inQueue.push
    | EvictingEnv(item: AddressedEnvelope, evictions: nat)    // push failed, before inQueue.pop

  datatype Application = Idle | Acking(item: AddressedEnvelope)

  datatype Endpoint = Endpoint(
    inQueue: seq<AddressedEnvelope>,
    outQueue: seq<AddressedEnvelope>,
    ackQueue: seq<ExpiringAck>,
    sender: Sender,
    listener: Listener,
    app: Application,
    slept: nat,
    startedAt: nat)

  datatype Datagram = Datagram(src: nat, dst: nat, env: Envelope, id: nat)

  /** A message that outQueue accepted: the stamped envelope, and the sender's sleep count and the
      queue index at that moment. */
  datatype Message = Message(src: nat, dst: nat, env: Envelope, slept: nat, index: nat)

  /** An envelope that an application got from tryReceiveEnvelope. */
  datatype Reception = Reception(owner: nat, item: AddressedEnvelope)

  /** The end of a message at its sender: with the matching ACK, or after the last attempt. */
  datatype Ending = Ending(owner: nat, item: AddressedEnvelope, attempt: nat, ack: Option<ExpiringAck>)

  datatype State = State(
    eps: seq<Endpoint>,
    net: seq<Datagram>,
    log: seq<Message>,
    received: seq<Reception>,
    endings: seq<Ending>)

  datatype Action =
    | Accept(p: nat, dst: nat, env: Envelope, stamp: UInt32)
    | Sleep(p: nat)
    | Take(p: nat)
    | Transmit(p: nat)
    | Wake(p: nat)
    | PopAck(p: nat)
    | RequeueAck(p: nat)
    | Deliver(p: nat, i: nat, keep: bool)
    | Lose(i: nat)
    | Store(p: nat)
    | Evict(p: nat)
    | Receive(p: nat)
    | SendAck(p: nat)

  // ------------------------------------------------------------------ steps

  function NewEndpoint(): Endpoint {
    Endpoint([], [], [], Asleep, Listening, Idle, 0, 0)
  }

  function Init(n: nat): State {
    State(seq(n, _ => NewEndpoint()), [], [], [], [])
  }

  function RemoveAt<T>(s: seq<T>, i: nat): seq<T>
    requires i < |s|
  {
    s[..i] + s[i + 1..]
  }

  predicate Enabled(s: State, a: Action) {
    match a
    case Accept(p, _, env, _) => p < |s.eps| && NulTerminated(env) && EnumsInRange(env)
    case Sleep(p) => p < |s.eps| && s.eps[p].sender.Asleep?
    case Take(p) => p < |s.eps| && s.eps[p].sender.Ready?
    case Transmit(p) => p < |s.eps| && s.eps[p].sender.Transmitting?
    case Wake(p) => p < |s.eps| && s.eps[p].sender.AwaitingAck?
    case PopAck(p) => p < |s.eps| && s.eps[p].sender.Checking?
    case RequeueAck(p) => p < |s.eps| && s.eps[p].sender.Requeueing?
    case Deliver(p, i, _) => p < |s.eps| && s.eps[p].listener.Listening? && i < |s.net| && s.net[i].dst == p
    case Lose(i) => i < |s.net|
    case Store(p) => p < |s.eps| && (s.eps[p].listener.StoringAck? || s.eps[p].listener.StoringEnv?)
    case Evict(p) => p < |s.eps| && (s.eps[p].listener.EvictingAck? || s.eps[p].listener.EvictingEnv?)
    case Receive(p) => p < |s.eps| && s.eps[p].app.Idle?
    case SendAck(p) => p < |s.eps| && s.eps[p].app.Acking?
  }

  /** The sender after a failed check. */
  function AfterMiss(item: AddressedEnvelope, attempt: nat): Sender {
    if attempt + 1 < MAX_ATTEMPTS then Transmitting(item, attempt + 1) else Asleep
  }

  function GaveUp(p: nat, item: AddressedEnvelope, attempt: nat): seq<Ending> {
    if attempt + 1 < MAX_ATTEMPTS then [] else [Ending(p, item, attempt, None)]
  }

  /** dispatchIncomingEnv: ACKs go to the ACK queue, everything else to the application. */
  function Dispatch(d: Datagram): Listener {
    if d.env.MessageType() == ACK_MESSAGE
    then StoringAck(ExpiringAck(ACK_LIFETIME, d.env.Timestamp(), d.id), 0)
    else StoringEnv(AddressedEnvelope(d.src, d.env, d.id), 0)
  }

  function StoreStep(e: Endpoint): Endpoint
    requires e.listener.StoringAck? || e.listener.StoringEnv?
  {
    match e.listener
    case StoringAck(ack, n) =>
      if |e.ackQueue| < QUEUE_SIZE then e.(ackQueue := e.ackQueue + [ack], listener := Listening)
      else e.(listener := EvictingAck(ack, n))
    case StoringEnv(item, n) =>
      if |e.inQueue| < QUEUE_SIZE then e.(inQueue := e.inQueue + [item], listener := Listening)
      else e.(listener := EvictingEnv(item, n))
  }

  function EvictStep(e: Endpoint): Endpoint
    requires e.listener.EvictingAck? || e.listener.EvictingEnv?
  {
    match e.listener
    case EvictingAck(ack, n) => e.(ackQueue := Pop(e.ackQueue), listener := StoringAck(ack, n + 1))
    case EvictingEnv(item, n) => e.(inQueue := Pop(e.inQueue), listener := StoringEnv(item, n + 1))
  }

  function AcceptStep(s: State, p: nat, dst: nat, env: Envelope, stamp: UInt32): State
    requires p < |s.eps|
  {
    var e := s.eps[p];
    var stamped := env.WithTimestamp(stamp);
    if |e.outQueue| < QUEUE_SIZE then
      s.(eps := s.eps[p := e.(outQueue := e.outQueue + [AddressedEnvelope(dst, stamped, |s.log|)])],
         log := s.log + [Message(p, dst, stamped, e.slept, |e.outQueue|)])
    else s
  }

  function TakeStep(e: Endpoint): Endpoint {
    match Oldest(e.outQueue)
    case None => e.(sender := Asleep)
    case Some(item) => e.(sender := Transmitting(item, 0), outQueue := Pop(e.outQueue), startedAt := e.slept)
  }

  function PopAckStep(s: State, p: nat): State
    requires p < |s.eps| && s.eps[p].sender.Checking?
  {
    var e := s.eps[p];
    var item, attempt := e.sender.item, e.sender.attempt;
    if e.ackQueue == [] then
      s.(eps := s.eps[p := e.(sender := AfterMiss(item, attempt))],
         endings := s.endings + GaveUp(p, item, attempt))
    else if e.ackQueue[0].tStamp == item.env.Timestamp() then
      s.(eps := s.eps[p := e.(ackQueue := e.ackQueue[1..], sender := Asleep)],
         endings := s.endings + [Ending(p, item, attempt, Some(e.ackQueue[0]))])
    else match Survivor(e.ackQueue[0])
         case Some(ack) =>
           s.(eps := s.eps[p := e.(ackQueue := e.ackQueue[1..], sender := Requeueing(item, attempt, ack))])
         case None =>
           s.(eps := s.eps[p := e.(ackQueue := e.ackQueue[1..], sender := AfterMiss(item, attempt))],
              endings := s.endings + GaveUp(p, item, attempt))
  }

  function RequeueStep(s: State, p: nat): State
    requires p < |s.eps| && s.eps[p].sender.Requeueing?
  {
    var e := s.eps[p];
    var item, attempt := e.sender.item, e.sender.attempt;
    s.(eps := s.eps[p := e.(ackQueue := Push(e.ackQueue, QUEUE_SIZE, e.sender.ack),
                            sender := AfterMiss(item, attempt))],
       endings := s.endings + GaveUp(p, item, attempt))
  }

  /** What a datagram carries is the normal form of what was put in (see `WireRoundTripIff`). */
  function TransmitStep(s: State, p: nat): State
    requires p < |s.eps| && s.eps[p].sender.Transmitting?
  {
    var e := s.eps[p];
    var item, attempt := e.sender.item, e.sender.attempt;
    s.(eps := s.eps[p := e.(sender := AwaitingAck(item, attempt))],
       net := s.net + [Datagram(p, item.sockInfo, NormalForm(item.env), item.id)])
  }

  function ReceiveStep(s: State, p: nat): State
    requires p < |s.eps|
  {
    var e := s.eps[p];
    match Oldest(e.inQueue)
    case None => s
    case Some(item) =>
      s.(eps := s.eps[p := e.(inQueue := Pop(e.inQueue), app := Acking(item))],
         received := s.received + [Reception(p, item)])
  }

  function SendAckStep(s: State, p: nat): State
    requires p < |s.eps| && s.eps[p].app.Acking?
  {
    var e := s.eps[p];
    var item := e.app.item;
    s.(eps := s.eps[p := e.(app := Idle)],
       net := s.net + [Datagram(p, item.sockInfo, AckEnvelope(item.env.Timestamp()), item.id)])
  }

  function Step(s: State, a: Action): State
    requires Enabled(s, a)
  {
    match a
    case Accept(p, dst, env, stamp) => AcceptStep(s, p, dst, env, stamp)
    case Sleep(p) => s.(eps := s.eps[p := s.eps[p].(sender := Ready, slept := s.eps[p].slept + 1)])
    case Take(p) => s.(eps := s.eps[p := TakeStep(s.eps[p])])
    case Transmit(p) => TransmitStep(s, p)
    case Wake(p) =>
      var e := s.eps[p];
      s.(eps := s.eps[p := e.(sender := Checking(e.sender.item, e.sender.attempt),
                              slept := e.slept + 100 * (e.sender.attempt + 1))])
    case PopAck(p) => PopAckStep(s, p)
    case RequeueAck(p) => RequeueStep(s, p)
    case Deliver(p, i, keep) =>
      s.(eps := s.eps[p := s.eps[p].(listener := Dispatch(s.net[i]))],
         net := if keep then s.net else RemoveAt(s.net, i))
    case Lose(i) => s.(net := RemoveAt(s.net, i))
    case Store(p) => s.(eps := s.eps[p := StoreStep(s.eps[p])])
    case Evict(p) => s.(eps := s.eps[p := EvictStep(s.eps[p])])
    case Receive(p) => ReceiveStep(s, p)
    case SendAck(p) => SendAckStep(s, p)
  }

  // ------------------------------------------------------------------ runs

  /** The state after a sequence of actions, when each is enabled in its turn. */
  function Run(s: State, acts: seq<Action>): Option<State> {
    if acts == [] then Some(s)
    else match Run(s, acts[..|acts| - 1])
         case None => None
         case Some(t) =>
           var a := acts[|acts| - 1];
           if Enabled(t, a) then Some(Step(t, a)) else None
  }

  /** s is the outcome of these actions on n fresh endpoints. */
  ghost predicate Reaches(n: nat, acts: seq<Action>, s: State) {
    Run(Init(n), acts) == Some(s)
  }

  /** The state before the last action of a run. */
  lemma LastStep(n: nat, acts: seq<Action>, s: State) returns (before: State)
    requires Reaches(n, acts, s) && acts != []
    ensures Reaches(n, acts[..|acts| - 1], before)
    ensures Enabled(before, acts[|acts| - 1]) && s == Step(before, acts[|acts| - 1])
  {
    before := Run(Init(n), acts[..|acts| - 1]).value;
  }

  // ------------------------------------------------------------------ uninterrupted operations

  /** Popping and re-queueing with nothing in between is checkAckQueue. */
  lemma UninterruptedCheck(s: State, p: nat)
    requires p < |s.eps| && s.eps[p].sender.Checking?
    ensures var e := s.eps[p];
            var (q, found) := CheckAck(e.ackQueue, e.sender.item.env.Timestamp());
            var s1 := PopAckStep(s, p);
            var s2 := if s1.eps[p].sender.Requeueing? then RequeueStep(s1, p) else s1;
            s2.eps[p].ackQueue == q
            && s2.eps[p].sender == if found then Asleep else AfterMiss(e.sender.item, e.sender.attempt)
  {
  }

  /** What a datagram does to its receiver, with nothing in between: an ACK joins the ACK queue with
      three lives, anything else the incoming queue with its sender's address, and each of the two
      queues holds four and drops its oldest entry for a fifth. */
  lemma UninterruptedArrival(s: State, p: nat, i: nat, keep: bool)
    requires Enabled(s, Deliver(p, i, keep)) && |s.eps[p].ackQueue| <= 4 && |s.eps[p].inQueue| <= 4
    ensures var d, e := s.net[i], s.eps[p];
            var e1 := StoreStep(Step(s, Deliver(p, i, keep)).eps[p]);
            var e2 := if e1.listener.Listening? then e1 else StoreStep(EvictStep(e1));
            e2 == if d.env.metaData.header.messageType == 2
                  then e.(ackQueue := (if |e.ackQueue| < 4 then e.ackQueue else e.ackQueue[1..])
                                      + [ExpiringAck(3, d.env.metaData.header.timestamp, d.id)])
                  else e.(inQueue := (if |e.inQueue| < 4 then e.inQueue else e.inQueue[1..])
                                     + [AddressedEnvelope(d.src, d.env, d.id)])
  {
  }

  /** Storing with nothing in between is the evict-oldest push, with at most one eviction. */
  lemma UninterruptedStoreAck(e: Endpoint)
    requires e.listener.StoringAck? && |e.ackQueue| <= QUEUE_SIZE
    ensures var e1 := StoreStep(e);
            var e2 := if e1.listener.EvictingAck? then StoreStep(EvictStep(e1)) else e1;
            e2.ackQueue == EvictPush(e.ackQueue, QUEUE_SIZE, e.listener.ack) && e2.listener == Listening
  {
  }

  lemma UninterruptedStoreEnv(e: Endpoint)
    requires e.listener.StoringEnv? && |e.inQueue| <= QUEUE_SIZE
    ensures var e1 := StoreStep(e);
            var e2 := if e1.listener.EvictingEnv? then StoreStep(EvictStep(e1)) else e1;
            e2.inQueue == EvictPush(e.inQueue, QUEUE_SIZE, e.listener.item) && e2.listener == Listening
  {
  }
}
