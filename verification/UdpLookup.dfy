/**
  The ACK lookup bound.  A matching ACK that waits near enough to the front of the ACK queue ends the
  retransmission of its message, whatever else arrives, unless an overflow evicts that very entry.
*/
module UdpLookup {
  import opened Wrappers
  import opened UdpProtocol
  import opened UdpQueues
  import opened UdpExpiry

  /** The attempt whose check comes next. */
  function NextCheck(snd: Sender): nat
    requires Busy(snd)
  {
    if snd.Requeueing? then snd.attempt + 1 else snd.attempt
  }

  /** The ACK at index i matches the message in progress, and the check of attempt `bound` or an
      earlier one reaches it. */
  predicate WithinReach(e: Endpoint, i: nat, bound: nat) {
    && Busy(e.sender) && i < |e.ackQueue|
    && e.ackQueue[i].tStamp == e.sender.item.env.Timestamp() && NextCheck(e.sender) + i <= bound
  }

  /** No message of p has ended between s0 and s. */
  ghost predicate NothingEnded(s0: State, s: State, p: nat) {
    |s0.endings| <= |s.endings| && forall j :: |s0.endings| <= j < |s.endings| ==> s.endings[j].owner != p
  }

  /** The message that p was busy with in s0 has ended in s, by an ACK, at attempt `bound` or before. */
  ghost predicate AckedBy(s0: State, s: State, p: nat, item: AddressedEnvelope, bound: nat) {
    exists k :: |s0.endings| <= k < |s.endings| && s.endings[k].owner == p && s.endings[k].item == item
      && s.endings[k].ack.Some? && s.endings[k].attempt <= bound
      && forall j :: |s0.endings| <= j < k ==> s.endings[j].owner != p
  }

  /** p is still busy with the message, and the entry at this place is within reach. */
  ghost predicate StillWaiting(s0: State, s: State, p: nat, item: AddressedEnvelope, bound: nat, at: Place) {
    && p < |s.eps| && NothingEnded(s0, s, p)
    && at.Queued? && WithinReach(s.eps[p], at.i, bound) && s.eps[p].sender.item == item
  }

  /** The listener of p evicts the ACK at this place. */
  predicate Overflows(s: State, a: Action, p: nat, at: Place) {
    a == Evict(p) && p < |s.eps| && s.eps[p].listener.EvictingAck? && at == Queued(0)
  }

  /** Along the run an overflow evicts the entry that p's ACK queue holds at index i in s0, before the
      message that p is busy with has ended. */
  ghost predicate Evicted(s0: State, acts: seq<Action>, p: nat, i: nat)
    requires Run(s0, acts).Some? && p < |s0.eps|
  {
    exists k :: 0 <= k < |acts| && EvictedAt(s0, acts[..k], acts[k], p, i)
  }

  ghost predicate EvictedAt(s0: State, acts: seq<Action>, a: Action, p: nat, i: nat)
    requires p < |s0.eps|
  {
    && Run(s0, acts).Some? && NothingEnded(s0, Run(s0, acts).value, p)
    && Overflows(Run(s0, acts).value, a, p, Follow(s0, acts, p, i).0)
  }

  // ------------------------------------------------------------------ one step

  lemma ReachByPopAck(s: State, p: nat, i: nat, bound: nat)
    requires Enabled(s, PopAck(p)) && WithinReach(s.eps[p], i, bound) && bound < MAX_ATTEMPTS
    ensures var e, s' := s.eps[p], PopAckStep(s, p);
            if e.ackQueue[0].tStamp == e.sender.item.env.Timestamp()
            then s'.endings == s.endings + [Ending(p, e.sender.item, e.sender.attempt, Some(e.ackQueue[0]))]
                 && e.sender.attempt <= bound
            else i > 0 && s'.endings == s.endings && WithinReach(s'.eps[p], i - 1, bound)
                 && s'.eps[p].sender.item == e.sender.item
  {
  }

  lemma ReachByOthers(s: State, a: Action, p: nat, i: nat, bound: nat)
    requires Enabled(s, a) && !a.Lose? && a.p == p && !a.PopAck? && bound < MAX_ATTEMPTS
    requires WithinReach(s.eps[p], i, bound) && !Overflows(s, a, p, Queued(i))
    ensures Moved(s, a, p, Queued(i)).Queued? && WithinReach(Step(s, a).eps[p], Moved(s, a, p, Queued(i)).i, bound)
    ensures Step(s, a).eps[p].sender.item == s.eps[p].sender.item && Step(s, a).endings == s.endings
  {
  }

  lemma ForeignStep(s: State, a: Action, p: nat)
    requires Enabled(s, a) && p < |s.eps| && (a.Lose? || a.p != p)
    ensures Step(s, a).eps[p] == s.eps[p] && |Step(s, a).endings| >= |s.endings|
    ensures Step(s, a).endings[..|s.endings|] == s.endings
    ensures forall j :: |s.endings| <= j < |Step(s, a).endings| ==> Step(s, a).endings[j].owner != p
  {
  }

  lemma WaitingStep(s0: State, s: State, a: Action, p: nat, item: AddressedEnvelope, bound: nat, at: Place)
    requires StillWaiting(s0, s, p, item, bound, at) && bound < MAX_ATTEMPTS && Enabled(s, a)
    requires !Overflows(s, a, p, at)
    ensures StillWaiting(s0, Step(s, a), p, item, bound, Moved(s, a, p, at)) || AckedBy(s0, Step(s, a), p, item, bound)
  {
    var s' := Step(s, a);
    if a.Lose? || a.p != p {
      ForeignStep(s, a, p);
      forall j | |s0.endings| <= j < |s'.endings| ensures s'.endings[j].owner != p {
        if j < |s.endings| { assert s'.endings[j] == s'.endings[..|s.endings|][j]; }
      }
    } else if a.PopAck? {
      ReachByPopAck(s, p, at.i, bound);
      if s'.endings != s.endings {
        assert s'.endings[|s.endings|].owner == p;
      }
    } else {
      ReachByOthers(s, a, p, at.i, bound);
    }
  }

  lemma AckedStays(s0: State, s: State, a: Action, p: nat, item: AddressedEnvelope, bound: nat)
    requires AckedBy(s0, s, p, item, bound) && Enabled(s, a)
    ensures AckedBy(s0, Step(s, a), p, item, bound)
  {
    EndingsGrow(s, a);
    var s' := Step(s, a);
    forall j | 0 <= j < |s.endings| ensures s'.endings[j] == s.endings[j] {
      assert s'.endings[j] == s'.endings[..|s.endings|][j];
    }
  }

  // ------------------------------------------------------------------ the theorem

  /** If an ACK for p's current message waits at an index that the checks up to attempt `bound` reach
      (attempt + index <= bound <= 4), then along every continuation of the run in which no overflow
      evicts this entry, the message is either still being tried, with the entry within reach, or was
      ended by an ACK at attempt `bound` at the latest: the sender never gives it up. */
  lemma {:induction false} LookupBound(s0: State, acts: seq<Action>, s: State, p: nat, i: nat, bound: nat)
    requires Run(s0, acts) == Some(s) && p < |s0.eps| && WithinReach(s0.eps[p], i, bound) && bound < MAX_ATTEMPTS
    requires !Evicted(s0, acts, p, i)
    ensures var item := s0.eps[p].sender.item;
            StillWaiting(s0, s, p, item, bound, Follow(s0, acts, p, i).0) || AckedBy(s0, s, p, item, bound)
    decreases |acts|
  {
    if acts != [] {
      var item := s0.eps[p].sender.item;
      var most, a := acts[..|acts| - 1], acts[|acts| - 1];
      var t := Run(s0, most).value;
      forall k | 0 <= k < |most| ensures most[..k] == acts[..k] {}
      assert !EvictedAt(s0, most, a, p, i);
      LookupBound(s0, most, t, p, i, bound);
      var at := Follow(s0, most, p, i).0;
      if StillWaiting(s0, t, p, item, bound, at) {
        WaitingStep(s0, t, a, p, item, bound, at);
      } else {
        AckedStays(s0, t, a, p, item, bound);
      }
    }
  }

  /** In a reachable state, an ACK that is queued before the check of attempt 0 or 1 is within reach
      of the five attempts wherever it stands. */
  lemma EarlyAckIsWithinReach(n: nat, acts: seq<Action>, s: State, p: nat, i: nat)
    requires Reaches(n, acts, s) && p < |s.eps| && Busy(s.eps[p].sender) && NextCheck(s.eps[p].sender) <= 1
    requires i < |s.eps[p].ackQueue| && s.eps[p].ackQueue[i].tStamp == s.eps[p].sender.item.env.Timestamp()
    ensures WithinReach(s.eps[p], i, MAX_ATTEMPTS - 1)
  {
    RunBounded(n, acts, s);
  }

  // ------------------------------------------------------------------ out of reach

  /** No ACK that the remaining checks reach matches the message in progress, and no more arrive. */
  ghost predicate OutOfReach(e: Endpoint) {
    && Busy(e.sender) && e.sender.attempt < MAX_ATTEMPTS
    && (forall i :: 0 <= i < |e.ackQueue| && e.ackQueue[i].tStamp == e.sender.item.env.Timestamp()
          ==> NextCheck(e.sender) + i >= MAX_ATTEMPTS)
    && (e.sender.Requeueing? ==> e.sender.ack.tStamp != e.sender.item.env.Timestamp())
  }

  /** The message that p was busy with in s0 has been given up after five transmissions. */
  ghost predicate GivenUp(s0: State, s: State, p: nat, item: AddressedEnvelope) {
    exists k :: |s0.endings| <= k < |s.endings| && s.endings[k] == Ending(p, item, 4, None)
      && forall j :: |s0.endings| <= j < k ==> s.endings[j].owner != p
  }

  lemma FarStep(s: State, a: Action, p: nat)
    requires Enabled(s, a) && !a.Lose? && a.p == p && OutOfReach(s.eps[p]) && !Listens(a, p)
    ensures var s', item := Step(s, a), s.eps[p].sender.item;
            || (s'.endings == s.endings && OutOfReach(s'.eps[p]) && s'.eps[p].sender.item == item)
            || s'.endings == s.endings + [Ending(p, item, 4, None)]
  {
    var e, e' := s.eps[p], Step(s, a).eps[p];
    if a.PopAck? && e.ackQueue != [] {
      assert e.ackQueue[0].tStamp != e.sender.item.env.Timestamp();
      assert forall i :: 0 <= i < |e'.ackQueue| ==> e'.ackQueue[i] == e.ackQueue[i + 1];
    }
  }

  /** The lookup bound is exact.  If no ACK within reach matches, then along every continuation in which
      p's listener stores nothing the message is never ended by an ACK: it is still being tried, or has
      been given up after its fifth transmission. */
  lemma {:induction false} OutOfReachIsGivenUp(s0: State, acts: seq<Action>, s: State, p: nat)
    requires Run(s0, acts) == Some(s) && p < |s0.eps| && OutOfReach(s0.eps[p])
    requires forall a :: a in acts ==> !Listens(a, p)
    ensures var item := s0.eps[p].sender.item;
            || (p < |s.eps| && NothingEnded(s0, s, p) && OutOfReach(s.eps[p]) && s.eps[p].sender.item == item)
            || GivenUp(s0, s, p, item)
    decreases |acts|
  {
    if acts != [] {
      var item := s0.eps[p].sender.item;
      var most, a := acts[..|acts| - 1], acts[|acts| - 1];
      var t := Run(s0, most).value;
      OutOfReachIsGivenUp(s0, most, t, p);
      EndingsGrow(t, a);
      forall j | 0 <= j < |t.endings| ensures s.endings[j] == t.endings[j] {
        assert s.endings[j] == s.endings[..|t.endings|][j];
      }
      if !GivenUp(s0, t, p, item) {
        if a.Lose? || a.p != p {
          ForeignStep(t, a, p);
        } else {
          FarStep(t, a, p);
          if s.endings != t.endings { assert s.endings[|t.endings|] == Ending(p, item, 4, None); }
        }
      }
    }
  }
}
