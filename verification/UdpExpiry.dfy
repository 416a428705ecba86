/**
  Queued ACKs expire.  Every examination that finds no match costs an entry one of its three lives,
  so an entry is examined three times at most, and a queue that gets no more ACKs is soon empty.
*/
module UdpExpiry {
  import opened Wrappers
  import opened Envelopes
  import opened Fifo
  import opened UdpProtocol
  import opened UdpQueues

  function Lives(q: seq<ExpiringAck>): nat {
    if q == [] then 0 else q[0].counter + Lives(q[1..])
  }

  lemma {:induction false} LivesConcat(a: seq<ExpiringAck>, b: seq<ExpiringAck>)
    ensures Lives(a + b) == Lives(a) + Lives(b)
  {
    if a == [] {
      assert a + b == b;
    } else {
      assert (a + b)[1..] == a[1..] + b;
      LivesConcat(a[1..], b);
    }
  }

  ghost predicate Alive(q: seq<ExpiringAck>) {
    |q| <= QUEUE_SIZE && forall a :: a in q ==> 1 <= a.counter <= ACK_LIFETIME
  }

  lemma {:induction false} LivesBound(q: seq<ExpiringAck>)
    requires forall a :: a in q ==> 1 <= a.counter <= ACK_LIFETIME
    ensures |q| <= Lives(q) <= ACK_LIFETIME * |q|
  {
    if q != [] {
      LivesBound(q[1..]);
      assert q[0] in q;
    }
  }

  /** A check of a non-empty queue costs lives, whether it matches or not, and leaves only live
      entries. */
  lemma CheckCostsLives(q: seq<ExpiringAck>, t: UInt32)
    requires Alive(q) && q != []
    ensures Alive(CheckAck(q, t).0) && Lives(CheckAck(q, t).0) < Lives(q)
  {
    assert q[0] in q;
    var rest := q[1..];
    assert forall a :: a in rest ==> a in q;
    if q[0].tStamp != t && Survivor(q[0]).Some? {
      var ack := Survivor(q[0]).value;
      assert Push(rest, QUEUE_SIZE, ack) == rest + [ack];
      LivesConcat(rest, [ack]);
    }
  }

  // ------------------------------------------------------------------ without arrivals

  /** The lives in the queue and in the sender's hands, unless there is no room to put the entry back. */
  function LivesLeft(e: Endpoint): nat {
    Lives(e.ackQueue) + if e.sender.Requeueing? && |e.ackQueue| < QUEUE_SIZE then e.sender.ack.counter else 0
  }

  /** A step by which p's listener handles a datagram. */
  predicate Listens(a: Action, p: nat) {
    (a.Deliver? || a.Store? || a.Evict?) && a.p == p
  }

  /** How often p's sender looks into its ACK queue. */
  function Checks(acts: seq<Action>, p: nat): nat {
    if acts == [] then 0 else Checks(acts[..|acts| - 1], p) + if acts[|acts| - 1] == PopAck(p) then 1 else 0
  }

  lemma LivesLeftBound(e: Endpoint)
    requires Bounded(e)
    ensures LivesLeft(e) <= 12
    ensures LivesLeft(e) == 0 ==> e.ackQueue == [] && !e.sender.Requeueing?
  {
    LivesBound(e.ackQueue);
  }

  lemma PopAckCostsLives(s: State, p: nat)
    requires Enabled(s, PopAck(p)) && Bounded(s.eps[p])
    ensures var e' := PopAckStep(s, p).eps[p];
            LivesLeft(e') == 0 || LivesLeft(e') < LivesLeft(s.eps[p])
  {
    var e := s.eps[p];
    if e.ackQueue != [] { assert e.ackQueue[0] in e.ackQueue; }
  }

  lemma OthersCostNoLives(s: State, a: Action, p: nat)
    requires Enabled(s, a) && p < |s.eps| && a != PopAck(p) && !Listens(a, p)
    ensures LivesLeft(Step(s, a).eps[p]) <= LivesLeft(s.eps[p])
  {
    var e := s.eps[p];
    if a == RequeueAck(p) && |e.ackQueue| < QUEUE_SIZE {
      LivesConcat(e.ackQueue, [e.sender.ack]);
    }
  }

  lemma {:induction false} ChecksCostLives(s: State, p: nat, acts: seq<Action>, s': State)
    requires forall q :: 0 <= q < |s.eps| ==> Bounded(s.eps[q])
    requires p < |s.eps| && Run(s, acts) == Some(s') && forall a :: a in acts ==> !Listens(a, p)
    ensures |s'.eps| == |s.eps| && forall q :: 0 <= q < |s'.eps| ==> Bounded(s'.eps[q])
    ensures LivesLeft(s'.eps[p]) == 0 || LivesLeft(s'.eps[p]) + Checks(acts, p) <= LivesLeft(s.eps[p])
    decreases |acts|
  {
    if acts != [] {
      var most, a := acts[..|acts| - 1], acts[|acts| - 1];
      var t := Run(s, most).value;
      ChecksCostLives(s, p, most, t);
      StepBounded(t, a);
      EndingsGrow(t, a);
      if a == PopAck(p) { PopAckCostsLives(t, p); } else { OthersCostNoLives(t, a, p); }
    }
  }

  /** From every reachable state on, twelve checks leave no ACK behind if the listener stores none in
      between: neither in the queue nor in the sender's hands, whichever stamps the checks look for
      and whatever else happens. */
  lemma AcksExpire(n: nat, past: seq<Action>, s: State, p: nat, acts: seq<Action>, s': State)
    requires Reaches(n, past, s) && p < |s.eps| && Run(s, acts) == Some(s')
    requires Checks(acts, p) >= 12 && forall a :: a in acts ==> !Listens(a, p)
    ensures p < |s'.eps| && s'.eps[p].ackQueue == [] && !s'.eps[p].sender.Requeueing?
  {
    RunBounded(n, past, s);
    LivesLeftBound(s.eps[p]);
    ChecksCostLives(s, p, acts, s');
    LivesLeftBound(s'.eps[p]);
  }

  // ------------------------------------------------------------------ the life of one entry

  /** Where an entry is: at a position of the ACK queue, in the sender's hands, or gone, because it
      matched, because it was examined without a match and not kept, or for lack of room. */
  datatype Place = Queued(i: nat) | Held | Matched | Expired | Crowded

  /** p's sender examines the oldest entry, and it does not match. */
  predicate Misses(s: State, a: Action, p: nat) {
    && a == PopAck(p) && Enabled(s, a) && s.eps[p].ackQueue != []
    && s.eps[p].ackQueue[0].tStamp != s.eps[p].sender.item.env.Timestamp()
  }

  /** Where a step of the run takes an entry of p's. */
  function Moved(s: State, a: Action, p: nat, at: Place): Place
    requires Enabled(s, a) && p < |s.eps|
  {
    match at
    case Held =>
      if a != RequeueAck(p) then Held
      else if |s.eps[p].ackQueue| < QUEUE_SIZE then Queued(|s.eps[p].ackQueue|) else Crowded
    case Queued(i) =>
      if a == Evict(p) && s.eps[p].listener.EvictingAck? then (if i > 0 then Queued(i - 1) else Crowded)
      else if a != PopAck(p) then at
      else if i > 0 then Queued(i - 1)
      else if !Misses(s, a, p) then Matched
      else if Step(s, a).eps[p].sender.Requeueing? then Held
      else Expired
    case _ => at
  }

  /** An entry's way along a run that starts with the entry at position i of p's ACK queue: where it
      is at the end, and how often it was examined without a match. */
  function Follow(s: State, acts: seq<Action>, p: nat, i: nat): (Place, nat)
    requires Run(s, acts).Some? && p < |s.eps|
    decreases |acts|
  {
    if acts == [] then (Queued(i), 0)
    else
      var most, a := acts[..|acts| - 1], acts[|acts| - 1];
      var t := Run(s, most).value;
      var (at, misses) := Follow(s, most, p, i);
      if p < |t.eps| then (Moved(t, a, p, at), misses + if at == Queued(0) && Misses(t, a, p) then 1 else 0)
      else (at, misses)
  }

  /** The entry at this place is `ack` with so many lives left.  One that was dropped because it did
      not match has none left, and one that is gone for another reason has some. */
  ghost predicate Has(e: Endpoint, at: Place, ack: ExpiringAck, lives: int) {
    match at
    case Queued(i) => i < |e.ackQueue| && Aged(e.ackQueue[i], ack, lives)
    case Held => e.sender.Requeueing? && Aged(e.sender.ack, ack, lives)
    case Expired => lives == 0
    case _ => lives > 0
  }

  predicate Aged(x: ExpiringAck, ack: ExpiringAck, lives: int) {
    x == ack.(counter := x.counter) && 0 < x.counter == lives
  }

  lemma EntryStaysPut(s: State, a: Action, p: nat, at: Place, ack: ExpiringAck, lives: Byte)
    requires Enabled(s, a) && p < |s.eps| && Has(s.eps[p], at, ack, lives)
    requires a != PopAck(p) && a != RequeueAck(p) && a != Evict(p)
    ensures Has(Step(s, a).eps[p], at, ack, lives)
  {
    var e, e' := s.eps[p], Step(s, a).eps[p];
    assert e.sender.Requeueing? ==> e'.sender == e.sender;
    assert e'.ackQueue == e.ackQueue
           || (a == Store(p) && e.listener.StoringAck? && e'.ackQueue == e.ackQueue + [e.listener.ack]);
  }

  lemma EntryIsPopped(s: State, p: nat, at: Place, ack: ExpiringAck, lives: Byte)
    requires Enabled(s, PopAck(p)) && Has(s.eps[p], at, ack, lives)
    ensures Has(PopAckStep(s, p).eps[p], Moved(s, PopAck(p), p, at), ack,
                if at == Queued(0) && Misses(s, PopAck(p), p) then lives - 1 else lives)
  {
  }

  lemma EntryStep(s: State, a: Action, p: nat, at: Place, ack: ExpiringAck, lives: Byte)
    requires Enabled(s, a) && p < |s.eps| && Has(s.eps[p], at, ack, lives)
    ensures Has(Step(s, a).eps[p], Moved(s, a, p, at), ack,
                if at == Queued(0) && Misses(s, a, p) then lives - 1 else lives)
  {
    if a == PopAck(p) {
      EntryIsPopped(s, p, at, ack, lives);
    } else if a != RequeueAck(p) && a != Evict(p) {
      EntryStaysPut(s, a, p, at, ack, lives);
    }
  }

  /** In every continuation of every run, arrivals and evictions included, an entry is examined
      without a match at most as often as its counter says when one begins to follow it, and thus at
      most three times.  Each such examination costs it one life.  It is dropped for not matching
      exactly when it has lost all of them: until then it is kept, unless it matches or an overflow
      takes it. */
  lemma {:induction false} EntryIsExaminedThrice(n: nat, past: seq<Action>, s: State, p: nat, i: nat,
                                                 acts: seq<Action>, s': State)
    requires Reaches(n, past, s) && p < |s.eps| && i < |s.eps[p].ackQueue| && Run(s, acts) == Some(s')
    ensures |s'.eps| == |s.eps|
    ensures var ack := s.eps[p].ackQueue[i];
            var (at, misses) := Follow(s, acts, p, i);
            && misses <= ack.counter <= 3 && (at.Expired? <==> misses == ack.counter)
            && Has(s'.eps[p], at, ack, ack.counter - misses)
    decreases |acts|
  {
    RunBounded(n, past, s);
    assert s.eps[p].ackQueue[i] in s.eps[p].ackQueue;
    if acts != [] {
      var most, a := acts[..|acts| - 1], acts[|acts| - 1];
      var t := Run(s, most).value;
      EntryIsExaminedThrice(n, past, s, p, i, most, t);
      EndingsGrow(t, a);
      var (at, misses) := Follow(s, most, p, i);
      EntryStep(t, a, p, at, s.eps[p].ackQueue[i], s.eps[p].ackQueue[i].counter - misses);
    }
  }
}
