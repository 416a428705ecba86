/**
  Stop-and-wait ordering.  On channels that may lose datagrams but neither duplicate nor reorder
  them, an application receives the messages of each peer in the order in which the peer accepted
  them, and each at most five times, whatever is retransmitted, lost or evicted.
*/
module UdpOrdering {
  import opened Envelopes
  import opened Fifo
  import opened UdpProtocol
  import UdpSafety

  /** A delivery in FIFO order per pair of endpoints that leaves no copy behind. */
  ghost predicate InOrder(s: State, a: Action) {
    a.Deliver? && a.i < |s.net| ==>
      !a.keep && forall j :: 0 <= j < a.i ==> s.net[j].src != s.net[a.i].src || s.net[j].dst != s.net[a.i].dst
  }

  ghost predicate FifoRun(n: nat, acts: seq<Action>) {
    forall k :: 0 <= k < |acts| && Run(Init(n), acts[..k]).Some? ==> InOrder(Run(Init(n), acts[..k]).value, acts[k])
  }

  // ------------------------------------------------------------------ sequences of ids

  ghost predicate Sorted(ids: seq<nat>) {
    forall i, j :: 0 <= i < j < |ids| ==> ids[i] <= ids[j]
  }

  /** What is left of a sequence of ids after some of them were lost. */
  ghost predicate Thinner(a: seq<nat>, b: seq<nat>) {
    multiset(a) <= multiset(b) && (Sorted(b) ==> Sorted(a))
  }

  lemma SortedSplit(a: seq<nat>, b: seq<nat>)
    ensures Sorted(a + b) <==> Sorted(a) && Sorted(b) && forall x, y :: x in a && y in b ==> x <= y
  {
    var c := a + b;
    if Sorted(c) {
      forall i, j | 0 <= i < j < |a| ensures a[i] <= a[j] { assert c[i] <= c[j]; }
      forall i, j | 0 <= i < j < |b| ensures b[i] <= b[j] { assert c[|a| + i] <= c[|a| + j]; }
      forall x, y | x in a && y in b ensures x <= y {
        var i :| 0 <= i < |a| && a[i] == x;
        var j :| 0 <= j < |b| && b[j] == y;
        assert c[i] <= c[|a| + j];
      }
    }
    if Sorted(a) && Sorted(b) && forall x, y :: x in a && y in b ==> x <= y {
      forall i, j | 0 <= i < j < |c| ensures c[i] <= c[j] {
        if i < |a| <= j { assert a[i] in a && b[j - |a|] in b; }
      }
    }
  }

  lemma ThinnerElements(a: seq<nat>, b: seq<nat>, x: nat)
    requires multiset(a) <= multiset(b) && x in a
    ensures x in b
  {
    assert x in multiset(a);
    assert x in multiset(b);
  }

  lemma ThinnerConcat(a: seq<nat>, b: seq<nat>, c: seq<nat>, d: seq<nat>)
    requires Thinner(a, b) && Thinner(c, d)
    ensures Thinner(a + c, b + d)
  {
    if Sorted(b + d) {
      SortedSplit(b, d);
      forall x, y | x in a && y in c ensures x <= y {
        ThinnerElements(a, b, x);
        ThinnerElements(c, d, y);
      }
      SortedSplit(a, c);
    }
  }

  lemma ThinnerTail(x: seq<nat>, b: seq<nat>)
    ensures Thinner(b, x + b) && Thinner(b, b + x)
  {
    SortedSplit(x, b);
    SortedSplit(b, x);
  }

  lemma ThinnerInContext(a: seq<nat>, b: seq<nat>, c: seq<nat>, x: seq<nat>)
    requires Thinner(b, c)
    ensures Thinner(a + (b + x), a + (c + x))
  {
    ThinnerConcat(b, c, x, x);
    ThinnerConcat(a, a, b + x, c + x);
  }

  // ------------------------------------------------------------------ the pipeline of a pair

  /** The ids of those items that satisfy a test, in order. */
  function Ids<T>(s: seq<T>, keep: T -> bool, id: T -> nat): seq<nat> {
    if s == [] then [] else (if keep(s[0]) then [id(s[0])] else []) + Ids(s[1..], keep, id)
  }

  lemma {:induction false} IdsConcat<T>(a: seq<T>, b: seq<T>, keep: T -> bool, id: T -> nat)
    ensures Ids(a + b, keep, id) == Ids(a, keep, id) + Ids(b, keep, id)
  {
    var c := a + b;
    if a == [] {
      assert c == b;
    } else {
      var first := if keep(a[0]) then [id(a[0])] else [];
      var rest := a[1..];
      assert c[0] == a[0] && c[1..] == rest + b;
      IdsConcat(rest, b, keep, id);
      var x, y := Ids(rest, keep, id), Ids(b, keep, id);
      assert Ids(c, keep, id) == first + (x + y);
      assert first + (x + y) == (first + x) + y;
    }
  }

  lemma IdsOne<T>(x: T, keep: T -> bool, id: T -> nat)
    ensures Ids([x], keep, id) == if keep(x) then [id(x)] else []
  {
  }

  lemma {:induction false} IdsNone<T>(s: seq<T>, keep: T -> bool, id: T -> nat)
    requires forall i :: 0 <= i < |s| ==> !keep(s[i])
    ensures Ids(s, keep, id) == []
  {
    if s != [] { IdsNone(s[1..], keep, id); }
  }

  /** Taking the i-th item out of a sequence takes its id, if it has one, out of the ids. */
  lemma IdsSplit<T>(s: seq<T>, i: nat, keep: T -> bool, id: T -> nat) returns (a: seq<nat>, x: seq<nat>, b: seq<nat>)
    requires i < |s|
    ensures a == Ids(s[..i], keep, id) && x == if keep(s[i]) then [id(s[i])] else []
    ensures Ids(s, keep, id) == a + (x + b)
    ensures Ids(RemoveAt(s, i), keep, id) == a + b
  {
    a, b := Ids(s[..i], keep, id), Ids(s[i + 1..], keep, id);
    x := if keep(s[i]) then [id(s[i])] else [];
    IdsAround(s, i, keep, id);
    IdsConcat(s[..i], s[i + 1..], keep, id);
  }

  lemma SplitAt<T>(s: seq<T>, i: nat)
    requires i < |s|
    ensures s == s[..i] + s[i..] && s[i..][0] == s[i] && s[i..][1..] == s[i + 1..]
  {
  }

  lemma IdsFirst<T>(s: seq<T>, keep: T -> bool, id: T -> nat)
    requires s != []
    ensures Ids(s, keep, id) == (if keep(s[0]) then [id(s[0])] else []) + Ids(s[1..], keep, id)
  {
  }

  lemma IdsAround<T>(s: seq<T>, i: nat, keep: T -> bool, id: T -> nat)
    requires i < |s|
    ensures Ids(s, keep, id)
         == Ids(s[..i], keep, id) + ((if keep(s[i]) then [id(s[i])] else []) + Ids(s[i + 1..], keep, id))
  {
    SplitAt(s, i);
    IdsConcat(s[..i], s[i..], keep, id);
    IdsFirst(s[i..], keep, id);
  }

  lemma IdsRemove<T>(s: seq<T>, i: nat, keep: T -> bool, id: T -> nat)
    requires i < |s|
    ensures Thinner(Ids(RemoveAt(s, i), keep, id), Ids(s, keep, id))
  {
    var a, x, b := IdsSplit(s, i, keep, id);
    ThinnerTail(x, b);
    ThinnerConcat(a, a, b, x + b);
  }

  function ItemFrom(p: nat): AddressedEnvelope -> bool { (x: AddressedEnvelope) => x.sockInfo == p }

  function ItemId(): AddressedEnvelope -> nat { (x: AddressedEnvelope) => x.id }

  function DataBetween(p: nat, q: nat): Datagram -> bool {
    (d: Datagram) => d.src == p && d.dst == q && d.env.MessageType() != ACK_MESSAGE
  }

  function DatagramId(): Datagram -> nat { (d: Datagram) => d.id }

  function ReceivedBetween(p: nat, q: nat): Reception -> bool {
    (r: Reception) => r.owner == q && r.item.sockInfo == p
  }

  function ReceptionId(): Reception -> nat { (r: Reception) => r.item.id }

  /** The ids of p's messages that q's application has received, oldest first. */
  function ReceivedIds(s: State, p: nat, q: nat): seq<nat> {
    Ids(s.received, ReceivedBetween(p, q), ReceptionId())
  }

  function QueuedIds(q: seq<AddressedEnvelope>, p: nat): seq<nat> {
    Ids(q, ItemFrom(p), ItemId())
  }

  function HeldIds(l: Listener, p: nat): seq<nat> {
    match l
    case StoringEnv(item, _) => QueuedIds([item], p)
    case EvictingEnv(item, _) => QueuedIds([item], p)
    case _ => []
  }

  function NetIds(net: seq<Datagram>, p: nat, q: nat): seq<nat> {
    Ids(net, DataBetween(p, q), DatagramId())
  }

  /** Everything on its way from p to q or already received there, oldest first. */
  function Pipeline(s: State, p: nat, q: nat): seq<nat>
    requires q < |s.eps|
  {
    ReceivedIds(s, p, q) + (QueuedIds(s.eps[q].inQueue, p) + (HeldIds(s.eps[q].listener, p) + NetIds(s.net, p, q)))
  }

  // ------------------------------------------------------------------ how a step moves the pipeline

  lemma RegroupNet(s: State, i: nat, p: nat, q: nat)
    requires i < |s.net|
    requires forall j :: 0 <= j < i ==> s.net[j].src != s.net[i].src || s.net[j].dst != s.net[i].dst
    ensures NetIds(s.net, p, q)
         == (if DataBetween(p, q)(s.net[i]) then [s.net[i].id] else [])
          + NetIds(RemoveAt(s.net, i), p, q)
  {
    var keep, id := DataBetween(p, q), DatagramId();
    var a, x, b := IdsSplit(s.net, i, keep, id);
    if keep(s.net[i]) {
      IdsNone(s.net[..i], keep, id);
      assert NetIds(s.net, p, q) == x + b;
    }
  }

  lemma DeliverPipeline(s: State, a: Action, p: nat, q: nat)
    requires a.Deliver? && Enabled(s, a) && InOrder(s, a) && q < |s.eps|
    ensures Pipeline(Step(s, a), p, q) == Pipeline(s, p, q)
  {
    RegroupNet(s, a.i, p, q);
    var d, s' := s.net[a.i], Step(s, a);
    assert s'.received == s.received && s'.eps[q].inQueue == s.eps[q].inQueue;
    if q == a.p {
      IdsOne(AddressedEnvelope(d.src, d.env, d.id), ItemFrom(p), ItemId());
      assert HeldIds(s.eps[q].listener, p) == [];
      assert HeldIds(s'.eps[q].listener, p) + NetIds(s'.net, p, q)
          == HeldIds(s.eps[q].listener, p) + NetIds(s.net, p, q);
    }
  }

  lemma StorePipeline(s: State, a: Action, p: nat, q: nat)
    requires a.Store? && Enabled(s, a) && q < |s.eps|
    ensures Pipeline(Step(s, a), p, q) == Pipeline(s, p, q)
  {
    var e := s.eps[a.p];
    if q == a.p && e.listener.StoringEnv? && |e.inQueue| < QUEUE_SIZE {
      IdsConcat(e.inQueue, [e.listener.item], ItemFrom(p), ItemId());
      assert Step(s, a).eps[q].inQueue == e.inQueue + [e.listener.item];
    }
  }

  lemma EvictPipeline(s: State, a: Action, p: nat, q: nat)
    requires a.Evict? && Enabled(s, a) && q < |s.eps|
    ensures Thinner(Pipeline(Step(s, a), p, q), Pipeline(s, p, q))
  {
    var e := s.eps[a.p];
    var s' := Step(s, a);
    assert s'.received == s.received && s'.net == s.net;
    if q == a.p && e.listener.EvictingEnv? && e.inQueue != [] {
      EvictedQueue(e.inQueue, p);
      ThinnerInContext(ReceivedIds(s, p, q), QueuedIds(Pop(e.inQueue), p), QueuedIds(e.inQueue, p),
                       HeldIds(e.listener, p) + NetIds(s.net, p, q));
      assert s'.eps[q].inQueue == Pop(e.inQueue);
      assert HeldIds(s'.eps[q].listener, p) == HeldIds(e.listener, p);
    } else {
      assert s'.eps[q].inQueue == s.eps[q].inQueue;
      assert HeldIds(s'.eps[q].listener, p) == HeldIds(s.eps[q].listener, p);
    }
  }

  lemma EvictedQueue(queue: seq<AddressedEnvelope>, p: nat)
    requires queue != []
    ensures Thinner(QueuedIds(Pop(queue), p), QueuedIds(queue, p))
  {
    assert Pop(queue) == RemoveAt(queue, 0);
    IdsRemove(queue, 0, ItemFrom(p), ItemId());
  }

  lemma LosePipeline(s: State, a: Action, p: nat, q: nat)
    requires a.Lose? && Enabled(s, a) && q < |s.eps|
    ensures Thinner(Pipeline(Step(s, a), p, q), Pipeline(s, p, q))
  {
    IdsRemove(s.net, a.i, DataBetween(p, q), DatagramId());
    var net, net' := NetIds(s.net, p, q), NetIds(RemoveAt(s.net, a.i), p, q);
    var h, i, r := HeldIds(s.eps[q].listener, p), QueuedIds(s.eps[q].inQueue, p), ReceivedIds(s, p, q);
    ThinnerConcat(h, h, net', net);
    ThinnerConcat(i, i, h + net', h + net);
    ThinnerConcat(r, r, i + (h + net'), i + (h + net));
  }

  lemma ReceivePipeline(s: State, a: Action, p: nat, q: nat)
    requires a.Receive? && Enabled(s, a) && q < |s.eps|
    ensures Pipeline(Step(s, a), p, q) == Pipeline(s, p, q)
  {
    var e, s' := s.eps[a.p], Step(s, a);
    if e.inQueue != [] {
      var r := Reception(a.p, e.inQueue[0]);
      IdsConcat(s.received, [r], ReceivedBetween(p, q), ReceptionId());
      IdsOne(r, ReceivedBetween(p, q), ReceptionId());
      if q == a.p {
        var x := if r.item.sockInfo == p then [r.item.id] else [];
        var rest := QueuedIds(Pop(e.inQueue), p);
        assert QueuedIds(e.inQueue, p) == x + rest;
        assert ReceivedIds(s', p, q) == ReceivedIds(s, p, q) + x;
        Regroup(ReceivedIds(s, p, q), x, rest, HeldIds(e.listener, p) + NetIds(s.net, p, q));
      } else {
        assert ReceivedIds(s', p, q) == ReceivedIds(s, p, q);
      }
    }
  }

  lemma Regroup(a: seq<nat>, x: seq<nat>, b: seq<nat>, c: seq<nat>)
    ensures (a + x) + (b + c) == a + ((x + b) + c)
  {
  }

  lemma Reassociate(a: seq<nat>, b: seq<nat>, c: seq<nat>, d: seq<nat>, x: seq<nat>)
    ensures a + (b + (c + (d + x))) == a + (b + (c + d)) + x
  {
  }

  /** A new datagram joins the end of the pipeline that it belongs to, if it carries data. */
  lemma NetGrows(s: State, s': State, d: Datagram, p: nat, q: nat)
    requires q < |s.eps| == |s'.eps| && s'.net == s.net + [d] && s'.received == s.received
    requires s'.eps[q].inQueue == s.eps[q].inQueue && s'.eps[q].listener == s.eps[q].listener
    ensures Pipeline(s', p, q) == Pipeline(s, p, q) + (if DataBetween(p, q)(d) then [d.id] else [])
  {
    IdsConcat(s.net, [d], DataBetween(p, q), DatagramId());
    IdsOne(d, DataBetween(p, q), DatagramId());
    var x := if DataBetween(p, q)(d) then [d.id] else [];
    assert NetIds(s'.net, p, q) == NetIds(s.net, p, q) + x;
    Reassociate(ReceivedIds(s, p, q), QueuedIds(s.eps[q].inQueue, p), HeldIds(s.eps[q].listener, p),
                NetIds(s.net, p, q), x);
  }

  lemma SendAckPipeline(s: State, a: Action, p: nat, q: nat)
    requires a.SendAck? && Enabled(s, a) && q < |s.eps|
    ensures Pipeline(Step(s, a), p, q) == Pipeline(s, p, q)
  {
    var item := s.eps[a.p].app.item;
    NetGrows(s, Step(s, a), Datagram(a.p, item.sockInfo, AckEnvelope(item.env.Timestamp()), item.id), p, q);
  }

  /** What a transmission by `sender` adds to the pipeline from p to q. */
  function Transmitted(sender: nat, item: AddressedEnvelope, p: nat, q: nat): seq<nat> {
    if p == sender && q == item.sockInfo && item.env.MessageType() != ACK_MESSAGE then [item.id] else []
  }

  lemma TransmitPipeline(s: State, a: Action, p: nat, q: nat)
    requires a.Transmit? && Enabled(s, a) && q < |s.eps|
    ensures Pipeline(Step(s, a), p, q) == Pipeline(s, p, q) + Transmitted(a.p, s.eps[a.p].sender.item, p, q)
  {
    var item := s.eps[a.p].sender.item;
    NetGrows(s, Step(s, a), Datagram(a.p, item.sockInfo, NormalForm(item.env), item.id), p, q);
  }

  lemma SenderPipeline(s: State, a: Action, p: nat, q: nat)
    requires a.Accept? || a.Sleep? || a.Take? || a.Wake? || a.PopAck? || a.RequeueAck?
    requires Enabled(s, a) && q < |s.eps|
    ensures Pipeline(Step(s, a), p, q) == Pipeline(s, p, q)
  {
    var s' := Step(s, a);
    assert s'.received == s.received && s'.net == s.net;
    assert s'.eps[q].inQueue == s.eps[q].inQueue && s'.eps[q].listener == s.eps[q].listener;
  }

  lemma PipelineStep(s: State, a: Action, p: nat, q: nat)
    requires Enabled(s, a) && InOrder(s, a) && !a.Transmit? && q < |s.eps|
    ensures Thinner(Pipeline(Step(s, a), p, q), Pipeline(s, p, q))
  {
    if a.Deliver? { DeliverPipeline(s, a, p, q); }
    else if a.Store? { StorePipeline(s, a, p, q); }
    else if a.Evict? { EvictPipeline(s, a, p, q); }
    else if a.Lose? { LosePipeline(s, a, p, q); }
    else if a.Receive? { ReceivePipeline(s, a, p, q); }
    else if a.SendAck? { SendAckPipeline(s, a, p, q); }
    else { SenderPipeline(s, a, p, q); }
  }

  // ------------------------------------------------------------------ the invariant

  /** The messages of p are numbered in the order in which they are sent: the queue is strictly
      ascending and lies above the message in progress. */
  ghost predicate SenderInOrder(e: Endpoint, bound: nat) {
    && (forall i, j :: 0 <= i < j < |e.outQueue| ==> e.outQueue[i].id < e.outQueue[j].id)
    && (forall i :: 0 <= i < |e.outQueue| ==> e.outQueue[i].id < bound)
    && (Busy(e.sender) ==>
          && e.sender.item.id < bound
          && e.sender.attempt < MAX_ATTEMPTS
          && (forall i :: 0 <= i < |e.outQueue| ==> e.sender.item.id < e.outQueue[i].id))
  }

  /** Nothing of p's is on its way that p has not begun to send, and no message more often than it
      was transmitted. */
  ghost predicate PipelineInOrder(e: Endpoint, ids: seq<nat>, bound: nat) {
    && Sorted(ids)
    && (forall x :: x in ids ==> x < bound && multiset(ids)[x] <= MAX_ATTEMPTS)
    && (forall x, i :: x in ids && 0 <= i < |e.outQueue| ==> x < e.outQueue[i].id)
    && (Busy(e.sender) ==>
          && (forall x :: x in ids ==> x <= e.sender.item.id)
          && multiset(ids)[e.sender.item.id] <= Transmissions(e.sender))
  }

  ghost predicate Inv(s: State) {
    && (forall p :: 0 <= p < |s.eps| ==> SenderInOrder(s.eps[p], |s.log|))
    && (forall p, q :: 0 <= p < |s.eps| && 0 <= q < |s.eps| ==> PipelineInOrder(s.eps[p], Pipeline(s, p, q), |s.log|))
  }

  /** How a step other than a transmission may change what an endpoint has yet to send. */
  ghost predicate SenderMoves(e: Endpoint, e': Endpoint, bound: nat) {
    && (forall x :: x in e'.outQueue ==> x in e.outQueue || x.id >= bound)
    && (Busy(e'.sender) ==> SameMessage(e.sender, e'.sender) || (e.outQueue != [] && e'.sender.item == e.outQueue[0]))
  }

  ghost predicate SameMessage(snd: Sender, snd': Sender) {
    && Busy(snd) && Busy(snd')
    && snd'.item == snd.item && Transmissions(snd') >= Transmissions(snd)
  }

  lemma ThinnerKeeps(e: Endpoint, e': Endpoint, ids: seq<nat>, ids': seq<nat>, bound: nat, bound': nat)
    requires PipelineInOrder(e, ids, bound) && Thinner(ids', ids) && bound <= bound'
    requires SenderMoves(e, e', bound)
    ensures PipelineInOrder(e', ids', bound')
  {
    forall x | x in ids' ensures x in ids && multiset(ids')[x] <= multiset(ids)[x] { ThinnerElements(ids', ids, x); }
    forall x, i | x in ids' && 0 <= i < |e'.outQueue| ensures x < e'.outQueue[i].id {
      assert e'.outQueue[i] in e'.outQueue;
    }
    if Busy(e'.sender) {
      var id := e'.sender.item.id;
      if SameMessage(e.sender, e'.sender) {
        assert multiset(ids')[id] <= multiset(ids)[id];
      } else {
        assert id !in ids;
        assert multiset(ids')[id] == 0;
      }
    }
  }

  /** The pair that gets the datagram. */
  lemma TransmissionAdds(e: Endpoint, ids: seq<nat>, bound: nat)
    requires SenderInOrder(e, bound) && PipelineInOrder(e, ids, bound) && e.sender.Transmitting?
    ensures PipelineInOrder(e.(sender := AwaitingAck(e.sender.item, e.sender.attempt)), ids + [e.sender.item.id], bound)
  {
    var id := e.sender.item.id;
    var longer := ids + [id];
    SortedSplit(ids, [id]);
    assert multiset(longer) == multiset(ids)[id := multiset(ids)[id] + 1];
    forall x | x in longer ensures x <= id && (x != id ==> x in ids) {}
  }

  lemma TransmissionKeeps(e: Endpoint, ids: seq<nat>, x: seq<nat>, bound: nat)
    requires SenderInOrder(e, bound) && PipelineInOrder(e, ids, bound) && e.sender.Transmitting?
    requires x == [] || x == [e.sender.item.id]
    ensures PipelineInOrder(e.(sender := AwaitingAck(e.sender.item, e.sender.attempt)), ids + x, bound)
  {
    if x == [] {
      var same := ids + x;
      assert same == ids;
    } else {
      TransmissionAdds(e, ids, bound);
    }
  }

  lemma TransmitKeepsPair(s: State, p: nat, p': nat, q: nat)
    requires Inv(s) && p < |s.eps| && s.eps[p].sender.Transmitting? && p' < |s.eps| && q < |s.eps|
    ensures var s' := TransmitStep(s, p);
            PipelineInOrder(s'.eps[p'], Pipeline(s', p', q), |s'.log|)
  {
    TransmitPipeline(s, Transmit(p), p', q);
    assert Step(s, Transmit(p)) == TransmitStep(s, p);
    var ids := Pipeline(s, p', q);
    assert PipelineInOrder(s.eps[p'], ids, |s.log|);
    var x := Transmitted(p, s.eps[p].sender.item, p', q);
    if p' == p {
      TransmissionKeeps(s.eps[p], ids, x, |s.log|);
    } else {
      assert ids + x == ids;
    }
  }

  lemma TransmitKeeps(s: State, p: nat)
    requires Inv(s) && p < |s.eps| && s.eps[p].sender.Transmitting?
    ensures Inv(TransmitStep(s, p))
  {
    var s' := TransmitStep(s, p);
    forall p', q | 0 <= p' < |s.eps| && 0 <= q < |s.eps|
      ensures PipelineInOrder(s'.eps[p'], Pipeline(s', p', q), |s'.log|)
    {
      TransmitKeepsPair(s, p, p', q);
    }
    forall p' | 0 <= p' < |s.eps| ensures SenderInOrder(s'.eps[p'], |s'.log|) {
      assert SenderInOrder(s.eps[p'], |s.log|);
    }
  }

  lemma AcceptMoves(s: State, p: nat, dst: nat, env: Envelope, stamp: UInt32)
    requires p < |s.eps| && SenderInOrder(s.eps[p], |s.log|)
    ensures var s' := AcceptStep(s, p, dst, env, stamp);
            SenderInOrder(s'.eps[p], |s'.log|) && SenderMoves(s.eps[p], s'.eps[p], |s.log|)
  {
  }

  lemma TakeMoves(e: Endpoint, bound: nat)
    requires SenderInOrder(e, bound) && e.sender.Ready?
    ensures SenderInOrder(TakeStep(e), bound) && SenderMoves(e, TakeStep(e), bound)
  {
  }

  /** The remaining steps leave the outgoing queue alone, and the sender with its message or idle. */
  lemma QuietMoves(e: Endpoint, e': Endpoint, bound: nat)
    requires SenderInOrder(e, bound) && e'.outQueue == e.outQueue
    requires Busy(e'.sender) ==> SameMessage(e.sender, e'.sender) && e'.sender.attempt < MAX_ATTEMPTS
    ensures SenderInOrder(e', bound) && SenderMoves(e, e', bound)
  {
  }

  lemma OwnStepMoves(s: State, a: Action)
    requires !a.Lose? && !a.Transmit? && Enabled(s, a) && SenderInOrder(s.eps[a.p], |s.log|)
    ensures SenderInOrder(Step(s, a).eps[a.p], |Step(s, a).log|)
    ensures SenderMoves(s.eps[a.p], Step(s, a).eps[a.p], |s.log|)
  {
    if a.Accept? {
      AcceptMoves(s, a.p, a.dst, a.env, a.stamp);
    } else if a.Take? {
      TakeMoves(s.eps[a.p], |s.log|);
    } else {
      QuietMoves(s.eps[a.p], Step(s, a).eps[a.p], |s.log|);
    }
  }

  lemma ForeignStepMoves(s: State, a: Action, p: nat)
    requires Enabled(s, a) && p < |s.eps| && (a.Lose? || a.p != p) && SenderInOrder(s.eps[p], |s.log|)
    ensures |s.log| <= |Step(s, a).log| && Step(s, a).eps[p] == s.eps[p]
    ensures SenderInOrder(s.eps[p], |Step(s, a).log|)
  {
    LogGrows(s, a);
  }

  lemma LogGrows(s: State, a: Action)
    requires Enabled(s, a)
    ensures |s.log| <= |Step(s, a).log| && |Step(s, a).eps| == |s.eps|
    ensures forall p :: 0 <= p < |s.eps| && (a.Lose? || a.p != p) ==> Step(s, a).eps[p] == s.eps[p]
  {
  }

  lemma StepMoves(s: State, a: Action, p: nat)
    requires Enabled(s, a) && !a.Transmit? && p < |s.eps| && SenderInOrder(s.eps[p], |s.log|)
    ensures |s.log| <= |Step(s, a).log| && |Step(s, a).eps| == |s.eps|
    ensures SenderInOrder(Step(s, a).eps[p], |Step(s, a).log|)
    ensures SenderMoves(s.eps[p], Step(s, a).eps[p], |s.log|)
  {
    LogGrows(s, a);
    if !a.Lose? && a.p == p {
      OwnStepMoves(s, a);
    } else {
      ForeignStepMoves(s, a, p);
    }
  }

  lemma StepKeeps(s: State, a: Action)
    requires Inv(s) && Enabled(s, a) && InOrder(s, a)
    ensures Inv(Step(s, a))
  {
    if a.Transmit? {
      TransmitKeeps(s, a.p);
    } else {
      var s' := Step(s, a);
      forall p | 0 <= p < |s.eps| ensures SenderInOrder(s'.eps[p], |s'.log|) {
        assert SenderInOrder(s.eps[p], |s.log|);
        StepMoves(s, a, p);
      }
      forall p, q | 0 <= p < |s.eps| && 0 <= q < |s.eps|
        ensures PipelineInOrder(s'.eps[p], Pipeline(s', p, q), |s'.log|)
      {
        assert SenderInOrder(s.eps[p], |s.log|) && PipelineInOrder(s.eps[p], Pipeline(s, p, q), |s.log|);
        StepMoves(s, a, p);
        PipelineStep(s, a, p, q);
        ThinnerKeeps(s.eps[p], s'.eps[p], Pipeline(s, p, q), Pipeline(s', p, q), |s.log|, |s'.log|);
      }
    }
  }

  lemma InitHolds(n: nat)
    ensures Inv(Init(n))
  {
    forall p, q | 0 <= p < n && 0 <= q < n ensures Pipeline(Init(n), p, q) == [] {}
  }

  lemma StepKeepsSize(s: State, a: Action)
    requires Enabled(s, a)
    ensures |Step(s, a).eps| == |s.eps|
  {
  }

  lemma FifoRunPrefix(n: nat, acts: seq<Action>)
    requires FifoRun(n, acts) && acts != []
    ensures FifoRun(n, acts[..|acts| - 1])
  {
    forall k | 0 <= k < |acts| - 1 ensures acts[..|acts| - 1][..k] == acts[..k] {}
  }

  lemma {:induction false} RunKeeps(n: nat, acts: seq<Action>, s: State)
    requires Reaches(n, acts, s) && FifoRun(n, acts)
    ensures Inv(s) && |s.eps| == n
    decreases |acts|
  {
    if acts == [] {
      InitHolds(n);
    } else {
      var before := LastStep(n, acts, s);
      FifoRunPrefix(n, acts);
      RunKeeps(n, acts[..|acts| - 1], before);
      StepKeeps(before, acts[|acts| - 1]);
      StepKeepsSize(before, acts[|acts| - 1]);
    }
  }

  /** Stop-and-wait ordering: in every run over lossy FIFO channels, q's application has received
      the messages of p in the order of their acceptance at p, copies next to each other, and none
      more than five times; and what it received under an id is the normal form of the message that
      p's outQueue accepted for q under this id. */
  lemma ReceivedInOrder(n: nat, acts: seq<Action>, s: State, p: nat, q: nat)
    requires Reaches(n, acts, s) && FifoRun(n, acts) && p < n && q < n
    ensures Sorted(ReceivedIds(s, p, q))
    ensures forall x :: x in ReceivedIds(s, p, q) ==> x < |s.log| && multiset(ReceivedIds(s, p, q))[x] <= MAX_ATTEMPTS
    ensures forall r :: r in s.received && r.owner == q && r.item.sockInfo == p ==>
              && r.item.id < |s.log| && s.log[r.item.id].src == p && s.log[r.item.id].dst == q
              && r.item.env == NormalForm(s.log[r.item.id].env)
  {
    UdpSafety.RunKeeps(n, acts, s);
    RunKeeps(n, acts, s);
    var ids := Pipeline(s, p, q);
    assert PipelineInOrder(s.eps[p], ids, |s.log|);
    var r := ReceivedIds(s, p, q);
    var rest := QueuedIds(s.eps[q].inQueue, p) + (HeldIds(s.eps[q].listener, p) + NetIds(s.net, p, q));
    assert ids == r + rest;
    SortedSplit(r, rest);
    forall x | x in r ensures x in ids && multiset(r)[x] <= multiset(ids)[x] {}
  }

  // ------------------------------------------------------------------ every message is tried

  /** The ids of the messages that p's outQueue has accepted, oldest first. */
  function AcceptedIds(log: seq<Message>, p: nat): seq<nat> {
    if log == [] then []
    else AcceptedIds(log[..|log| - 1], p) + if log[|log| - 1].src == p then [|log| - 1] else []
  }

  function EndingOf(p: nat): Ending -> bool { (end: Ending) => end.owner == p }

  function EndingId(): Ending -> nat { (end: Ending) => end.item.id }

  function EndedIds(endings: seq<Ending>, p: nat): seq<nat> {
    Ids(endings, EndingOf(p), EndingId())
  }

  function QueueIds(q: seq<AddressedEnvelope>): seq<nat> {
    seq(|q|, i requires 0 <= i < |q| => q[i].id)
  }

  function InHand(snd: Sender): seq<nat> {
    if Busy(snd) then [snd.item.id] else []
  }

  ghost predicate Tried(s: State, p: nat) {
    p < |s.eps| ==>
      AcceptedIds(s.log, p) == EndedIds(s.endings, p) + (InHand(s.eps[p].sender) + QueueIds(s.eps[p].outQueue))
  }

  lemma AcceptTried(s: State, a: Action, p: nat)
    requires a.Accept? && Enabled(s, a) && p < |s.eps| && Tried(s, p)
    ensures Tried(Step(s, a), p)
  {
    var s', e := Step(s, a), s.eps[p];
    if |s'.log| > |s.log| {
      assert s'.log[..|s.log|] == s.log && s'.endings == s.endings;
      if a.p == p {
        assert QueueIds(s'.eps[p].outQueue) == QueueIds(e.outQueue) + [|s.log|];
        JoinsTheEnd(EndedIds(s.endings, p), InHand(e.sender), QueueIds(e.outQueue), [|s.log|]);
      }
    }
  }

  lemma JoinsTheEnd(a: seq<nat>, b: seq<nat>, c: seq<nat>, x: seq<nat>)
    ensures a + (b + c) + x == a + (b + (c + x))
  {
  }

  lemma ChangesHands(a: seq<nat>, x: seq<nat>, c: seq<nat>)
    ensures a + (x + c) == (a + x) + ([] + c)
  {
  }

  /** The last step of a check: the message stays in hand, or it has ended. */
  lemma EndEffect(s: State, a: Action)
    requires (a.PopAck? || a.RequeueAck?) && Enabled(s, a)
    ensures var s', e, e' := Step(s, a), s.eps[a.p], Step(s, a).eps[a.p];
            && s'.log == s.log && s'.eps == s.eps[a.p := e'] && e'.outQueue == e.outQueue
            && if Busy(e'.sender) then s'.endings == s.endings && e'.sender.item == e.sender.item
               else |s'.endings| == |s.endings| + 1 && s'.endings == s.endings + [s'.endings[|s.endings|]]
                    && s'.endings[|s.endings|].owner == a.p && s'.endings[|s.endings|].item == e.sender.item
  {
  }

  lemma EndedIdsGrow(endings: seq<Ending>, end: Ending, p: nat)
    ensures EndedIds(endings + [end], p) == EndedIds(endings, p) + if end.owner == p then [end.item.id] else []
  {
    IdsConcat(endings, [end], EndingOf(p), EndingId());
    IdsOne(end, EndingOf(p), EndingId());
  }

  lemma EndTried(s: State, a: Action, p: nat)
    requires (a.PopAck? || a.RequeueAck?) && Enabled(s, a) && p < |s.eps| && Tried(s, p)
    ensures Tried(Step(s, a), p)
  {
    EndEffect(s, a);
    var s', e := Step(s, a), s.eps[p];
    if !Busy(s'.eps[a.p].sender) {
      EndedIdsGrow(s.endings, s'.endings[|s.endings|], p);
      if a.p == p { ChangesHands(EndedIds(s.endings, p), InHand(e.sender), QueueIds(e.outQueue)); }
    }
  }

  lemma TakeTried(s: State, p: nat)
    requires Enabled(s, Take(p)) && Tried(s, p)
    ensures Tried(Step(s, Take(p)), p)
  {
    var s', q := Step(s, Take(p)), s.eps[p].outQueue;
    assert s'.log == s.log && s'.endings == s.endings;
    if q != [] { assert QueueIds(q) == [q[0].id] + QueueIds(q[1..]); }
  }

  /** The remaining steps touch neither the queue nor the message in hand. */
  lemma QuietEffect(s: State, a: Action, p: nat)
    requires Enabled(s, a) && p < |s.eps| && !a.Accept? && !a.PopAck? && !a.RequeueAck? && a != Take(p)
    ensures var s' := Step(s, a);
            && s'.log == s.log && s'.endings == s.endings && |s'.eps| == |s.eps|
            && s'.eps[p].outQueue == s.eps[p].outQueue && InHand(s'.eps[p].sender) == InHand(s.eps[p].sender)
  {
  }

  lemma StepTried(s: State, a: Action, p: nat)
    requires Enabled(s, a) && p < |s.eps| && Tried(s, p)
    ensures Tried(Step(s, a), p)
  {
    if a.Accept? {
      AcceptTried(s, a, p);
    } else if a.PopAck? || a.RequeueAck? {
      EndTried(s, a, p);
    } else if a == Take(p) {
      TakeTried(s, p);
    } else {
      QuietEffect(s, a, p);
    }
  }

  /** In every run, p's sender has taken the messages in the order of their acceptance and tried each of
      them once: the accepted messages are those it has ended, in order, followed by the one it is
      busy with and those that are still queued. */
  lemma {:induction false} MessagesAreTriedInOrder(n: nat, acts: seq<Action>, s: State, p: nat)
    requires Reaches(n, acts, s) && p < n
    ensures p < |s.eps| && Tried(s, p)
    decreases |acts|
  {
    if acts != [] {
      var before := LastStep(n, acts, s);
      MessagesAreTriedInOrder(n, acts[..|acts| - 1], before, p);
      StepTried(before, acts[|acts| - 1], p);
      StepKeepsSize(before, acts[|acts| - 1]);
    }
  }
}
