/**
  The endpoint of common/endpoint/UdpEndpointBase.cpp with its three ring buffers and its reused
  codec buffers.  Each method is one of the source's, run without interference, and is proved
  against the queue functions that the transition system of `UdpProtocol` is made of.
*/
module UdpEndpoints {
  import opened Wrappers
  import opened Envelopes
  import opened Fifo
  import opened CircularBuffers
  import opened MessageProcessing
  import opened EndpointBases
  import opened UdpProtocol
  import opened UdpTiming

  ghost predicate AllFresh(acks: seq<ExpiringAck>) {
    forall a :: a in acks ==> a.counter == ACK_LIFETIME
  }

  /** The ACK queue after the listener has stored a series of ACKs. */
  function StoreAll(q: seq<ExpiringAck>, acks: seq<ExpiringAck>): seq<ExpiringAck> {
    if acks == [] then q
    else EvictPush(StoreAll(q, acks[..|acks| - 1]), QUEUE_SIZE, acks[|acks| - 1])
  }

  /** The attempts of one message: the ACK queue at the end, how often the message was sent, and
      whether an ACK ended it.  arrivals[k] are the ACKs that the listener stores in the k-th back-off. */
  function Attempts(q: seq<ExpiringAck>, t: UInt32, arrivals: seq<seq<ExpiringAck>>, attempt: nat)
    : (seq<ExpiringAck>, nat, bool)
    requires |arrivals| == MAX_ATTEMPTS && attempt <= MAX_ATTEMPTS
    decreases MAX_ATTEMPTS - attempt
  {
    if attempt == MAX_ATTEMPTS then (q, attempt, false)
    else
      var (q', found) := CheckAck(StoreAll(q, arrivals[attempt]), t);
      if found then (q', attempt + 1, true) else Attempts(q', t, arrivals, attempt + 1)
  }

  /** A check takes the oldest ACK out and matches it or puts it back, at the end, with one life less,
      if it has one. */
  ghost predicate Checked(q: seq<ExpiringAck>, t: UInt32, q': seq<ExpiringAck>, found: bool) {
    && found == (q != [] && q[0].tStamp == t)
    && (q == [] ==> q' == [])
    && (q != [] && q[0].counter > 0 ==>
          q' == q[1..] + if found || q[0].counter == 1 then [] else [q[0].(counter := q[0].counter - 1)])
  }

  lemma CheckAckResult(q: seq<ExpiringAck>, t: UInt32)
    requires |q| <= QUEUE_SIZE
    ensures var (q', found) := CheckAck(q, t); Checked(q, t, q', found)
  {
  }

  ghost predicate Absent(acks: seq<ExpiringAck>, t: UInt32) {
    forall a :: a in acks ==> a.tStamp != t
  }

  /** The oldest ACK with this stamp stands at index i. */
  ghost predicate FirstMatch(q: seq<ExpiringAck>, t: UInt32, i: nat) {
    i < |q| && q[i].tStamp == t && forall j :: 0 <= j < i ==> q[j].tStamp != t
  }

  /** How the attempts of a message end: without an ACK it is sent five times, with an ACK one to five
      times.  No ACK ends it that was not there, and one at index i that was there from the beginning
      ends it with attempt i if no other ACK arrives. */
  ghost predicate RightlyEnded(q: seq<ExpiringAck>, t: UInt32, arrivals: seq<seq<ExpiringAck>>,
                               sent: nat, acked: bool)
  {
    && (if acked then 1 <= sent <= 5 else sent == 5)
    && (Absent(q, t) && (forall k :: 0 <= k < |arrivals| ==> Absent(arrivals[k], t)) ==> !acked)
    && (forall i :: 0 <= i < |q| && FirstMatch(q, t, i) && (forall k :: 0 <= k < |arrivals| ==> arrivals[k] == [])
          ==> acked && sent == i + 1)
  }

  lemma {:induction false} StoreAllAbsent(q: seq<ExpiringAck>, acks: seq<ExpiringAck>, t: UInt32)
    requires Absent(q, t) && Absent(acks, t)
    ensures Absent(StoreAll(q, acks), t)
  {
    if acks != [] {
      assert acks[|acks| - 1] in acks;
      StoreAllAbsent(q, acks[..|acks| - 1], t);
    }
  }

  lemma {:induction false} AttemptsCount(q: seq<ExpiringAck>, t: UInt32, arrivals: seq<seq<ExpiringAck>>, attempt: nat)
    requires |arrivals| == MAX_ATTEMPTS && attempt <= MAX_ATTEMPTS
    ensures var (_, sent, acked) := Attempts(q, t, arrivals, attempt);
            if acked then attempt < sent <= 5 else sent == 5
    decreases MAX_ATTEMPTS - attempt
  {
    if attempt < MAX_ATTEMPTS {
      AttemptsCount(CheckAck(StoreAll(q, arrivals[attempt]), t).0, t, arrivals, attempt + 1);
    }
  }

  lemma {:induction false} AttemptsInVain(q: seq<ExpiringAck>, t: UInt32, arrivals: seq<seq<ExpiringAck>>, attempt: nat)
    requires |arrivals| == MAX_ATTEMPTS && attempt <= MAX_ATTEMPTS
    requires Absent(q, t) && forall k :: 0 <= k < |arrivals| ==> Absent(arrivals[k], t)
    ensures !Attempts(q, t, arrivals, attempt).2
    decreases MAX_ATTEMPTS - attempt
  {
    if attempt < MAX_ATTEMPTS {
      var stored := StoreAll(q, arrivals[attempt]);
      StoreAllAbsent(q, arrivals[attempt], t);
      assert Absent(CheckAck(stored, t).0, t) && !CheckAck(stored, t).1;
      AttemptsInVain(CheckAck(stored, t).0, t, arrivals, attempt + 1);
    }
  }

  lemma {:induction false} AttemptsFind(q: seq<ExpiringAck>, t: UInt32, arrivals: seq<seq<ExpiringAck>>,
                                        attempt: nat, i: nat)
    requires |arrivals| == MAX_ATTEMPTS && attempt + i < MAX_ATTEMPTS && FirstMatch(q, t, i)
    requires forall k :: 0 <= k < |arrivals| ==> arrivals[k] == []
    ensures var (_, sent, acked) := Attempts(q, t, arrivals, attempt); acked && sent == attempt + i + 1
    decreases i
  {
    assert StoreAll(q, arrivals[attempt]) == q;
    if i > 0 {
      var q' := CheckAck(q, t).0;
      assert forall j :: 0 <= j < i ==> q'[j] == q[j + 1];
      AttemptsFind(q', t, arrivals, attempt + 1, i - 1);
    }
  }

  lemma AttemptsEndRightly(q: seq<ExpiringAck>, t: UInt32, arrivals: seq<seq<ExpiringAck>>)
    requires |arrivals| == MAX_ATTEMPTS && |q| <= QUEUE_SIZE
    ensures var (_, sent, acked) := Attempts(q, t, arrivals, 0); RightlyEnded(q, t, arrivals, sent, acked)
  {
    AttemptsCount(q, t, arrivals, 0);
    if Absent(q, t) && forall k :: 0 <= k < |arrivals| ==> Absent(arrivals[k], t) {
      AttemptsInVain(q, t, arrivals, 0);
    }
    forall i | 0 <= i < |q| && FirstMatch(q, t, i) && forall k :: 0 <= k < |arrivals| ==> arrivals[k] == []
      ensures var (_, sent, acked) := Attempts(q, t, arrivals, 0); acked && sent == i + 1
    {
      AttemptsFind(q, t, arrivals, 0, i);
    }
  }

  /** A datagram handed to sendto for this item: addressed to its peer, and decoded there as the
      normal form of its envelope exactly when the envelope's enumerations are in range. */
  ghost predicate Carries(x: (RawDatagram, nat), item: AddressedEnvelope) {
    && x.1 == item.sockInfo && WellFramed(x.0) && PayloadFits(Received(x.0))
    && (EnvFromProto(Received(x.0)) == NormalForm(item.env) <==> EnumsInRange(item.env))
  }

  /** The wire has grown by n datagrams for this item. */
  ghost predicate SentTimes(before: seq<(RawDatagram, nat)>, after: seq<(RawDatagram, nat)>,
                            item: AddressedEnvelope, n: nat)
  {
    && |after| == |before| + n && after[..|before|] == before
    && forall k :: |before| <= k < |after| ==> Carries(after[k], item)
  }

  lemma SentOnceMore(before: seq<(RawDatagram, nat)>, mid: seq<(RawDatagram, nat)>, after: seq<(RawDatagram, nat)>,
                     item: AddressedEnvelope, n: nat)
    requires SentTimes(before, mid, item, n) && SentTimes(mid, after, item, 1)
    ensures SentTimes(before, after, item, n + 1)
  {
    assert after[..|before|] == after[..|mid|][..|before|];
    forall k | |before| <= k < |after| ensures Carries(after[k], item) {
      if k < |mid| { assert after[k] == after[..|mid|][k]; }
    }
  }

  class UdpEndpoint {
    const base: EndpointBase
    const inQueue: CircularBuffer<AddressedEnvelope>
    const outQueue: CircularBuffer<AddressedEnvelope>
    const ackQueue: CircularBuffer<ExpiringAck>
    /** What was handed to sendto, with the addresses. */
    var wire: seq<(RawDatagram, nat)>

    ghost predicate Valid()
      reads this, base, base.protoOut, inQueue, outQueue, ackQueue
    {
      && base.Valid() && inQueue.Valid() && outQueue.Valid() && ackQueue.Valid()
      && inQueue.length == outQueue.length == ackQueue.length == QUEUE_SIZE
      && inQueue != outQueue && inQueue.circBuffer != outQueue.circBuffer
    }

    constructor ()
      ensures Valid()
      ensures inQueue.Contents() == [] && outQueue.Contents() == [] && ackQueue.Contents() == [] && wire == []
    {
      base := new EndpointBase();
      inQueue := new CircularBuffer<AddressedEnvelope>(QUEUE_SIZE);
      outQueue := new CircularBuffer<AddressedEnvelope>(QUEUE_SIZE);
      ackQueue := new CircularBuffer<ExpiringAck>(QUEUE_SIZE);
      wire := [];
    }

    method SendEnvelope(env: Envelope, receiver: nat, microseconds: nat, id: nat) returns (success: bool)
      requires Valid()
      modifies outQueue, outQueue.circBuffer
      ensures Valid()
      ensures success == (|old(outQueue.Contents())| < 4)
      ensures var stamped := env.WithTimestamp(CreateTimeStamp(microseconds));
              outQueue.Contents() == old(outQueue.Contents())
                                     + if success then [AddressedEnvelope(receiver, stamped, id)] else []
    {
      var stampedEnv := env.WithTimestamp(CreateTimeStamp(microseconds));
      success := outQueue.Push(AddressedEnvelope(receiver, stampedEnv, id));
    }

    method StoreEnvToInQueue(aEnv: AddressedEnvelope)
      requires Valid()
      modifies inQueue, inQueue.circBuffer
      ensures Valid()
      ensures inQueue.Contents() == EvictPush(old(inQueue.Contents()), QUEUE_SIZE, aEnv)
      ensures var q := old(inQueue.Contents());
              inQueue.Contents() == (if |q| < 4 then q else q[1..]) + [aEnv]
    {
      var pushed := inQueue.Push(aEnv);
      while !pushed
        invariant Valid()
        invariant if pushed then inQueue.Contents() == EvictPush(old(inQueue.Contents()), QUEUE_SIZE, aEnv)
                  else inQueue.Contents() == old(inQueue.Contents()) && |inQueue.Contents()| == QUEUE_SIZE
        decreases if pushed then 0 else 1
      {
        var _ := inQueue.Pop();
        pushed := inQueue.Push(aEnv);
      }
    }

    method StoreTstampToAckQueue(tStamp: UInt32, id: nat)
      requires Valid()
      modifies ackQueue, ackQueue.circBuffer
      ensures Valid()
      ensures ackQueue.Contents()
           == EvictPush(old(ackQueue.Contents()), QUEUE_SIZE, ExpiringAck(ACK_LIFETIME, tStamp, id))
      ensures var q := old(ackQueue.Contents());
              ackQueue.Contents() == (if |q| < 4 then q else q[1..]) + [ExpiringAck(3, tStamp, id)]
    {
      var eAck := ExpiringAck(ACK_LIFETIME, tStamp, id);
      var pushed := ackQueue.Push(eAck);
      while !pushed
        invariant Valid()
        invariant if pushed then ackQueue.Contents() == EvictPush(old(ackQueue.Contents()), QUEUE_SIZE, eAck)
                  else ackQueue.Contents() == old(ackQueue.Contents()) && |ackQueue.Contents()| == QUEUE_SIZE
        decreases if pushed then 0 else 1
      {
        var _ := ackQueue.Pop();
        pushed := ackQueue.Push(eAck);
      }
    }

    method SendDataGram(aEnv: AddressedEnvelope)
      requires Valid() && NulTerminated(aEnv.env)
      modifies this, base.protoOut, base.bufferOut, base.bufferOut.payload
      ensures Valid()
      ensures SentTimes(old(wire), wire, aEnv, 1)
    {
      WireRoundTripIff(aEnv.env, base.protoOut.record, base.bufferOut.payload[..]);
      base.PutEnvToProtoBufferOut(aEnv.env);
      var d := RawDatagram(base.bufferOut.messageSize, base.bufferOut.payload[..]);
      wire := wire + [(d, aEnv.sockInfo)];
    }

    method CheckAckQueue(tStamp: UInt32) returns (found: bool)
      requires Valid()
      modifies ackQueue, ackQueue.circBuffer
      ensures Valid()
      ensures (ackQueue.Contents(), found) == CheckAck(old(ackQueue.Contents()), tStamp)
      ensures Checked(old(ackQueue.Contents()), tStamp, ackQueue.Contents(), found)
    {
      CheckAckResult(ackQueue.Contents(), tStamp);
      var pendingAck := ackQueue.Pop();
      if pendingAck.None? {
        return false;
      }
      if pendingAck.value.tStamp == tStamp {
        return true;
      }
      var ack := pendingAck.value.(counter := Decrement(pendingAck.value.counter));
      if ack.counter > 0 {
        var _ := ackQueue.Push(ack);
      }
      return false;
    }

    /** The ACKs that the listener stores while the sender sleeps. */
    method StoreArrivals(acks: seq<ExpiringAck>)
      requires Valid() && AllFresh(acks)
      modifies ackQueue, ackQueue.circBuffer
      ensures Valid()
      ensures ackQueue.Contents() == StoreAll(old(ackQueue.Contents()), acks)
    {
      for k := 0 to |acks|
        invariant Valid()
        invariant ackQueue.Contents() == StoreAll(old(ackQueue.Contents()), acks[..k])
      {
        assert acks[..k + 1][..k] == acks[..k];
        assert acks[k] in acks;
        StoreTstampToAckQueue(acks[k].tStamp, acks[k].id);
      }
      assert acks[..|acks|] == acks;
    }

    /** One round of the attempt loop: send, sleep while ACKs arrive, check. */
    method Attempt(item: AddressedEnvelope, arrivals: seq<ExpiringAck>) returns (acked: bool)
      requires Valid() && NulTerminated(item.env)
      requires AllFresh(arrivals)
      modifies this, base.protoOut, base.bufferOut, base.bufferOut.payload, ackQueue, ackQueue.circBuffer
      ensures Valid() && SentTimes(old(wire), wire, item, 1)
      ensures (ackQueue.Contents(), acked)
           == CheckAck(StoreAll(old(ackQueue.Contents()), arrivals), item.env.Timestamp())
    {
      SendDataGram(item);
      StoreArrivals(arrivals);
      acked := CheckAckQueue(item.env.Timestamp());
    }

    /** The back-off of an attempt: 100 ms per attempt made so far, this one included. */
    static method BackOff(slept: nat, attempt: nat) returns (total: nat)
      requires attempt < MAX_ATTEMPTS && slept == SleptAfter(attempt)
      ensures total == SleptAfter(attempt + 1) <= 1500
    {
      SleptAfterNext(attempt);
      SleptAfterNext(attempt + 1);
      total := slept + 100 * (attempt + 1);
    }

    /** Tries a message until an ACK matches, five times at most: the loop of sendEnvFromOutQueue.
        It returns how often the message was sent, whether an ACK ended it, and the ms slept. */
    method TryUntilAcked(item: AddressedEnvelope, arrivals: seq<seq<ExpiringAck>>)
        returns (sent: nat, acked: bool, slept: nat)
      requires Valid() && |arrivals| == MAX_ATTEMPTS && NulTerminated(item.env)
      requires forall k :: 0 <= k < |arrivals| ==> AllFresh(arrivals[k])
      modifies this, base.protoOut, base.bufferOut, base.bufferOut.payload, ackQueue, ackQueue.circBuffer
      ensures Valid() && slept == SleptAfter(sent) <= 1500
      ensures (ackQueue.Contents(), sent, acked)
           == Attempts(old(ackQueue.Contents()), item.env.Timestamp(), arrivals, 0)
      ensures SentTimes(old(wire), wire, item, sent)
      ensures RightlyEnded(old(ackQueue.Contents()), item.env.Timestamp(), arrivals, sent, acked)
    {
      sent, acked, slept := 0, false, 0;
      ghost var t := item.env.Timestamp();
      while sent < MAX_ATTEMPTS && !acked
        invariant Valid() && sent <= MAX_ATTEMPTS && slept == SleptAfter(sent) <= 1500
        invariant SentTimes(old(wire), wire, item, sent)
        invariant Attempts(old(ackQueue.Contents()), t, arrivals, 0)
               == if acked then (ackQueue.Contents(), sent, true) else Attempts(ackQueue.Contents(), t, arrivals, sent)
      {
        ghost var mid := wire;
        acked := Attempt(item, arrivals[sent]);
        SentOnceMore(old(wire), mid, wire, item, sent);
        slept := BackOff(slept, sent);
        sent := sent + 1;
      }
      AttemptsEndRightly(old(ackQueue.Contents()), t, arrivals);
    }

    method SendEnvFromOutQueue(arrivals: seq<seq<ExpiringAck>>) returns (sent: nat, acked: bool, slept: nat)
      requires Valid() && |arrivals| == MAX_ATTEMPTS
      requires forall k :: 0 <= k < |arrivals| ==> AllFresh(arrivals[k])
      requires forall x :: x in outQueue.Contents() ==> NulTerminated(x.env)
      modifies this, base.protoOut, base.bufferOut, base.bufferOut.payload, outQueue, ackQueue, ackQueue.circBuffer
      ensures Valid() && inQueue.Contents() == old(inQueue.Contents())
      ensures outQueue.Contents() == Pop(old(outQueue.Contents()))
      ensures slept == SleptAfter(sent) <= 1500
      ensures old(outQueue.Contents()) == [] ==>
                sent == 0 && !acked && wire == old(wire) && ackQueue.Contents() == old(ackQueue.Contents())
      ensures old(outQueue.Contents()) != [] ==>
                var item := old(outQueue.Contents())[0];
                && (ackQueue.Contents(), sent, acked)
                   == Attempts(old(ackQueue.Contents()), item.env.Timestamp(), arrivals, 0)
                && SentTimes(old(wire), wire, item, sent)
                && RightlyEnded(old(ackQueue.Contents()), item.env.Timestamp(), arrivals, sent, acked)
    {
      sent, acked, slept := 0, false, 0;
      var addrEnvOpt := outQueue.Pop();
      if addrEnvOpt.Some? {
        assert addrEnvOpt.value in old(outQueue.Contents());
        sent, acked, slept := TryUntilAcked(addrEnvOpt.value, arrivals);
      }
    }

    method DispatchIncomingEnv(aEnv: AddressedEnvelope)
      requires Valid()
      modifies inQueue, inQueue.circBuffer, ackQueue, ackQueue.circBuffer
      ensures Valid()
      ensures var acks, envs := old(ackQueue.Contents()), old(inQueue.Contents());
              if aEnv.env.MessageType() == 2
              then ackQueue.Contents() == (if |acks| < 4 then acks else acks[1..])
                                          + [ExpiringAck(3, aEnv.env.Timestamp(), aEnv.id)]
                   && inQueue.Contents() == envs
              else inQueue.Contents() == (if |envs| < 4 then envs else envs[1..]) + [aEnv]
                   && ackQueue.Contents() == acks
    {
      if aEnv.env.MessageType() == ACK_MESSAGE {
        StoreTstampToAckQueue(aEnv.env.Timestamp(), aEnv.id);
      } else {
        StoreEnvToInQueue(aEnv);
      }
    }

    method RecvDataGram(d: RawDatagram, sender: nat, id: nat) returns (aEnv: AddressedEnvelope)
      requires Valid() && WellFramed(d) && PayloadFits(Received(d))
      modifies base.protoIn, base.bufferIn, base.bufferIn.payload
      ensures Valid()
      ensures aEnv == AddressedEnvelope(sender, EnvFromProto(Received(d)), id)
    {
      base.FillBufferIn(d);
      var res := base.GetEnvFromProtoBufferIn();
      aEnv := AddressedEnvelope(sender, res.value, id);
    }

    /** Hands out the oldest envelope, and sends its peer an ACK that carries its time stamp. */
    method TryReceiveEnvelope() returns (r: Option<Envelope>)
      requires Valid()
      modifies this, base.protoOut, base.bufferOut, base.bufferOut.payload, inQueue
      ensures Valid()
      ensures outQueue.Contents() == old(outQueue.Contents()) && ackQueue.Contents() == old(ackQueue.Contents())
      ensures inQueue.Contents() == Pop(old(inQueue.Contents()))
      ensures old(inQueue.Contents()) == [] ==> r == None && wire == old(wire)
      ensures old(inQueue.Contents()) != [] ==>
                var item := old(inQueue.Contents())[0];
                && r == Some(item.env)
                && SentTimes(old(wire), wire, item.(env := AckEnvelope(item.env.Timestamp())), 1)
                && Faithful(wire[|old(wire)|].0, AckEnvelope(item.env.Timestamp()))
    {
      var aEnv := inQueue.Pop();
      if aEnv.None? {
        return None;
      }
      var ackEnv := EmptyEnvelope().WithMessageType(ACK_MESSAGE);
      ackEnv := ackEnv.WithTimestamp(aEnv.value.env.Timestamp());
      AckEnvelopeIsNormal(aEnv.value.env.Timestamp());
      SendDataGram(AddressedEnvelope(aEnv.value.sockInfo, ackEnv, aEnv.value.id));
      assert Carries(wire[|old(wire)|], aEnv.value.(env := ackEnv));
      return Some(aEnv.value.env);
    }
  }
}
