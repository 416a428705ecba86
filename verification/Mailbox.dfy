/**
  The mailbox server of server_app/endpoint/GrpcServer.cpp as a transition system.  A handler first
  asks whether a user is online and then, in a second step, accesses the map with the inserting
  `operator[]`; other handlers may run in between.  A map access and the push or pop on the cell that
  it yields form one step.

  `events`, `pushed`, `removed` and `written` are histories on which no step depends.
*/
module Mailbox {
  import opened Wrappers
  import opened Envelopes
  import opened Fifo
  import opened Protobuf
  import opened MessageProcessing

  type UserId = UInt64

  const CELL_SIZE: nat := 32
  /** The payload that logs its sender out: the C string "exit". */
  const EXIT: Bytes := [101, 120, 105, 116]

  type PostBox = map<UserId, seq<Envelope>>

  /** `operator[]`: an absent user gets an empty cell. */
  function Access(box: PostBox, u: UserId): PostBox {
    if u in box then box else box[u := []]
  }

  /** The list that a map associates with u, empty if there is none. */
  function Get<T>(m: map<UserId, seq<T>>, u: UserId): seq<T> {
    if u in m then m[u] else []
  }

  function Append<T>(m: map<UserId, seq<T>>, u: UserId, x: T): map<UserId, seq<T>> {
    m[u := Get(m, u) + [x]]
  }

  /** `emplace`: a user who is online keeps the cell and the pending mail. */
  function AddUser(box: PostBox, u: UserId): PostBox {
    Access(box, u)
  }

  function PushTo(box: PostBox, u: UserId, env: Envelope): PostBox {
    Access(box, u)[u := Push(Get(box, u), CELL_SIZE, env)]
  }

  function PopFrom(box: PostBox, u: UserId): PostBox {
    Access(box, u)[u := Pop(Get(box, u))]
  }

  function Disconnect(box: PostBox, u: UserId): PostBox {
    box - {u}
  }

  // ------------------------------------------------------------------ states and steps

  datatype Handler =
    | Idle
    | Delivering(env: Envelope)                               // receiveMessage, recipient found online
    | Streaming(user: UserId, forwarded: ProtoEnvelope)       // top of the streaming loop
    | Fetching(user: UserId, forwarded: ProtoEnvelope)        // user found online, before the pop

  datatype Event = Login(user: UserId) | Logout(user: UserId)

  /** An envelope that left a cell: popped by a stream, or discarded with the cell. */
  datatype Removal = Removal(env: Envelope, streamed: bool)

  datatype State = State(
    box: PostBox,
    handlers: seq<Handler>,
    events: seq<Event>,
    pushed: seq<Envelope>,                    // accepted by push, for whichever user
    removed: map<UserId, seq<Removal>>,
    written: map<UserId, seq<ProtoEnvelope>>) // records handed to writer->Write

  datatype Action =
    | Accept(answer: Option<UserId>)          // acceptConnection, with the answer of the authentication
    | Receive(h: nat, msg: ProtoEnvelope)     // receiveMessage up to its first decision
    | Deliver(h: nat)                         // post_box[recipient].push
    | Open(h: nat, user: UserId)              // streamIncomingMessages up to its loop
    | Poll(h: nat)                            // isOnline in the loop
    | Fetch(h: nat)                           // post_box[user].pop and Write

  function Init(n: nat): State {
    State(map[], seq(n, _ => Idle), [], [], map[], map[])
  }

  predicate IsExit(env: Envelope) {
    CString(env.payload) == EXIT
  }

  /** A message whose decoded payload is a C string inside its field. */
  predicate Decodable(msg: ProtoEnvelope) {
    |CString(msg.payload)| < PAYLOAD_SIZE
  }

  predicate Enabled(s: State, a: Action) {
    match a
    case Accept(_) => true
    case Receive(h, msg) => h < |s.handlers| && s.handlers[h].Idle? && Decodable(msg)
    case Deliver(h) => h < |s.handlers| && s.handlers[h].Delivering?
    case Open(h, _) => h < |s.handlers| && s.handlers[h].Idle?
    case Poll(h) => h < |s.handlers| && s.handlers[h].Streaming?
    case Fetch(h) => h < |s.handlers| && s.handlers[h].Fetching?
  }

  function Discarded(cell: seq<Envelope>): seq<Removal> {
    seq(|cell|, i requires 0 <= i < |cell| => Removal(cell[i], false))
  }

  function AcceptStep(s: State, u: UserId): State {
    s.(box := AddUser(s.box, u), events := s.events + [Login(u)])
  }

  function LogoutStep(s: State, u: UserId): State {
    s.(box := Disconnect(s.box, u), events := s.events + [Logout(u)],
       removed := s.removed[u := Get(s.removed, u) + Discarded(Get(s.box, u))])
  }

  function DeliverStep(s: State, h: nat): State
    requires h < |s.handlers| && s.handlers[h].Delivering?
  {
    var env := s.handlers[h].env;
    var u := env.metaData.recepientId;
    s.(box := PushTo(s.box, u, env), handlers := s.handlers[h := Idle],
       pushed := if |Get(s.box, u)| < CELL_SIZE then s.pushed + [env] else s.pushed)
  }

  function FetchStep(s: State, h: nat): State
    requires h < |s.handlers| && s.handlers[h].Fetching?
  {
    var u, stale := s.handlers[h].user, s.handlers[h].forwarded;
    match Oldest(Get(s.box, u))
    case None => s.(box := PopFrom(s.box, u), handlers := s.handlers[h := Streaming(u, stale)])
    case Some(env) =>
      var record := EnvToProto(env, stale);
      s.(box := PopFrom(s.box, u), handlers := s.handlers[h := Streaming(u, record)],
         removed := Append(s.removed, u, Removal(env, true)), written := Append(s.written, u, record))
  }

  function ReceiveStep(s: State, h: nat, msg: ProtoEnvelope): State
    requires h < |s.handlers| && Decodable(msg)
  {
    var env := EnvFromProto(msg);
    if IsExit(env) then LogoutStep(s, env.metaData.senderId)
    else if env.metaData.recepientId !in s.box then s
    else s.(handlers := s.handlers[h := Delivering(env)])
  }

  function Step(s: State, a: Action): State
    requires Enabled(s, a)
  {
    match a
    case Accept(None) => s
    case Accept(Some(u)) => AcceptStep(s, u)
    case Receive(h, msg) => ReceiveStep(s, h, msg)
    case Deliver(h) => DeliverStep(s, h)
    case Open(h, u) => s.(handlers := s.handlers[h := Streaming(u, DEFAULT_ENVELOPE)])
    case Poll(h) =>
      var u := s.handlers[h].user;
      s.(handlers := s.handlers[h := if u in s.box then Fetching(u, s.handlers[h].forwarded) else Idle])
    case Fetch(h) => FetchStep(s, h)
  }

  function Run(s: State, acts: seq<Action>): Option<State> {
    if acts == [] then Some(s)
    else match Run(s, acts[..|acts| - 1])
         case None => None
         case Some(t) => if Enabled(t, acts[|acts| - 1]) then Some(Step(t, acts[|acts| - 1])) else None
  }

  ghost predicate Reaches(n: nat, acts: seq<Action>, s: State) {
    Run(Init(n), acts) == Some(s)
  }

  lemma LastStep(n: nat, acts: seq<Action>, s: State) returns (before: State)
    requires Reaches(n, acts, s) && acts != []
    ensures Reaches(n, acts[..|acts| - 1], before)
    ensures Enabled(before, acts[|acts| - 1]) && s == Step(before, acts[|acts| - 1])
  {
    before := Run(Init(n), acts[..|acts| - 1]).value;
  }

  // ------------------------------------------------------------------ keys and logins

  /** The last login of u is later than its last logout. */
  ghost predicate LoggedIn(events: seq<Event>, u: UserId) {
    exists i :: 0 <= i < |events| && events[i] == Login(u) && forall j :: i < j < |events| ==> events[j] != Logout(u)
  }

  ghost predicate EverLoggedIn(events: seq<Event>, u: UserId) {
    Login(u) in events
  }

  lemma LoggedInStep(events: seq<Event>, e: Event, u: UserId)
    ensures LoggedIn(events + [e], u) <==> e == Login(u) || (LoggedIn(events, u) && e != Logout(u))
  {
    var es := events + [e];
    if LoggedIn(events, u) && e != Logout(u) {
      var i :| 0 <= i < |events| && events[i] == Login(u) && forall j :: i < j < |events| ==> events[j] != Logout(u);
      assert es[i] == Login(u);
    }
    if e == Login(u) {
      assert es[|events|] == Login(u);
    }
    if LoggedIn(es, u) && e != Login(u) {
      var i :| 0 <= i < |es| && es[i] == Login(u) && forall j :: i < j < |es| ==> es[j] != Logout(u);
      assert i < |events| && events[i] == Login(u);
      assert es[|events|] != Logout(u);
      forall j | i < j < |events| ensures events[j] != Logout(u) { assert es[j] != Logout(u); }
    }
  }

  /** The user that a handler is between check and access for. */
  function PendingUser(hd: Handler): Option<UserId> {
    match hd
    case Delivering(env) => Some(env.metaData.recepientId)
    case Fetching(u, _) => Some(u)
    case _ => None
  }

  /** The login or logout that an action carries out. */
  function EventOf(a: Action): Option<Event> {
    match a
    case Accept(Some(u)) => Some(Login(u))
    case Receive(_, msg) =>
      if Decodable(msg) && IsExit(EnvFromProto(msg)) then Some(Logout(EnvFromProto(msg).metaData.senderId)) else None
    case _ => None
  }

  /** The action is the map access of a handler that has found u online. */
  predicate Accesses(s: State, a: Action, u: UserId) {
    (a.Deliver? || a.Fetch?) && a.h < |s.handlers| && PendingUser(s.handlers[a.h]) == Some(u)
  }

  /** The only ways into the map and out of it. */
  lemma KeysChange(s: State, a: Action, u: UserId)
    requires Enabled(s, a)
    ensures Step(s, a).events == s.events + if EventOf(a).Some? then [EventOf(a).value] else []
    ensures u in Step(s, a).box <==> Accesses(s, a, u) || EventOf(a) == Some(Login(u))
                                     || (u in s.box && EventOf(a) != Some(Logout(u)))
  {
  }

  lemma LoginsChange(s: State, a: Action, u: UserId)
    requires Enabled(s, a)
    ensures LoggedIn(Step(s, a).events, u) <==>
              EventOf(a) == Some(Login(u)) || (LoggedIn(s.events, u) && EventOf(a) != Some(Logout(u)))
    ensures EverLoggedIn(s.events, u) || EventOf(a) == Some(Login(u)) ==> EverLoggedIn(Step(s, a).events, u)
  {
    KeysChange(s, a, u);
    if EventOf(a).Some? { LoggedInStep(s.events, EventOf(a).value, u); }
  }

  /** A handler gets a pending user only by finding him online. */
  lemma PendingChange(s: State, a: Action, h: nat)
    requires Enabled(s, a) && h < |s.handlers|
    ensures |Step(s, a).handlers| == |s.handlers|
    ensures var pending := PendingUser(Step(s, a).handlers[h]);
            pending.Some? ==> pending == PendingUser(s.handlers[h]) || (pending.value in s.box && EventOf(a) == None)
    ensures (a.Deliver? || a.Fetch?) && a.h == h ==> PendingUser(Step(s, a).handlers[h]) == None
  {
  }

  ghost predicate KeysOk(s: State) {
    && (forall u :: u in s.box ==> EverLoggedIn(s.events, u))
    && (forall h :: 0 <= h < |s.handlers| && PendingUser(s.handlers[h]).Some? ==>
          EverLoggedIn(s.events, PendingUser(s.handlers[h]).value))
  }

  lemma KeysStep(s: State, a: Action)
    requires KeysOk(s) && Enabled(s, a)
    ensures KeysOk(Step(s, a))
  {
    var s' := Step(s, a);
    forall u | u in s'.box ensures EverLoggedIn(s'.events, u) {
      KeysChange(s, a, u);
      LoginsChange(s, a, u);
    }
    forall h | 0 <= h < |s'.handlers| && PendingUser(s'.handlers[h]).Some?
      ensures EverLoggedIn(s'.events, PendingUser(s'.handlers[h]).value)
    {
      PendingChange(s, a, h);
      LoginsChange(s, a, PendingUser(s'.handlers[h]).value);
    }
  }

  /** In every run the post box holds only users who have passed acceptConnection, although two
      handlers use an inserting access. */
  lemma {:induction false} OnlyAcceptedUsers(n: nat, acts: seq<Action>, s: State)
    requires Reaches(n, acts, s)
    ensures forall u :: u in s.box ==> EverLoggedIn(s.events, u)
    ensures KeysOk(s)
    decreases |acts|
  {
    if acts != [] {
      var before := LastStep(n, acts, s);
      OnlyAcceptedUsers(n, acts[..|acts| - 1], before);
      KeysStep(before, acts[|acts| - 1]);
    }
  }

  // ------------------------------------------------------------------ online and logged in

  /** After these actions, this one accesses the map for u, who is logged out. */
  ghost predicate LateAccess(n: nat, acts: seq<Action>, a: Action, u: UserId) {
    var before := Run(Init(n), acts);
    before.Some? && Accesses(before.value, a, u) && !LoggedIn(before.value.events, u)
  }

  predicate Concerns(a: Action, u: UserId) {
    EventOf(a) == Some(Login(u)) || EventOf(a) == Some(Logout(u))
  }

  /** A handler accessed the map for u while u was logged out, and u has neither logged in nor out
      since. */
  ghost predicate BroughtBack(n: nat, acts: seq<Action>, u: UserId) {
    exists k :: 0 <= k < |acts| && LateAccess(n, acts[..k], acts[k], u)
                && forall m :: k < m < |acts| ==> !Concerns(acts[m], u)
  }

  lemma BroughtBackStep(n: nat, acts: seq<Action>, a: Action, u: UserId)
    ensures BroughtBack(n, acts + [a], u) <==>
              LateAccess(n, acts, a, u) || (BroughtBack(n, acts, u) && !Concerns(a, u))
  {
    var longer := acts + [a];
    assert longer[..|acts|] == acts;
    forall k | 0 <= k < |acts| ensures longer[..k] == acts[..k] && longer[k] == acts[k] {}
    if BroughtBack(n, acts, u) && !Concerns(a, u) {
      var k :| 0 <= k < |acts| && LateAccess(n, acts[..k], acts[k], u)
               && forall m :: k < m < |acts| ==> !Concerns(acts[m], u);
      assert LateAccess(n, longer[..k], longer[k], u);
    }
    if LateAccess(n, acts, a, u) {
      assert LateAccess(n, longer[..|acts|], longer[|acts|], u);
    }
    if BroughtBack(n, longer, u) && !LateAccess(n, acts, a, u) {
      var k :| 0 <= k < |longer| && LateAccess(n, longer[..k], longer[k], u)
               && forall m :: k < m < |longer| ==> !Concerns(longer[m], u);
      assert k < |acts| && LateAccess(n, acts[..k], acts[k], u);
      assert !Concerns(longer[|acts|], u);
      forall m | k < m < |acts| ensures !Concerns(acts[m], u) { assert !Concerns(longer[m], u); }
    }
  }

  /** A user is online if and only if he is logged in or has been brought back, which only happens to
      users who are logged out.  So being online means being logged in exactly for the users whom no
      late access has brought back. */
  lemma {:induction false} OnlineIff(n: nat, acts: seq<Action>, s: State, u: UserId)
    requires Reaches(n, acts, s)
    ensures u in s.box <==> LoggedIn(s.events, u) || BroughtBack(n, acts, u)
    ensures (u in s.box <==> LoggedIn(s.events, u)) <==> !BroughtBack(n, acts, u)
    decreases |acts|
  {
    if acts != [] {
      var before := LastStep(n, acts, s);
      var most, a := acts[..|acts| - 1], acts[|acts| - 1];
      assert acts == most + [a];
      OnlineIff(n, most, before, u);
      KeysChange(before, a, u);
      LoginsChange(before, a, u);
      BroughtBackStep(n, most, a, u);
    }
  }

  // ------------------------------------------------------------------ whole handlers as steps

  /** A handler that has checked makes its access before anything else happens. */
  ghost predicate Uninterrupted(s: State, a: Action) {
    (exists h :: 0 <= h < |s.handlers| && PendingUser(s.handlers[h]).Some?) ==> a.Deliver? || a.Fetch?
  }

  ghost predicate UninterruptedRun(n: nat, acts: seq<Action>) {
    forall k :: 0 <= k < |acts| && Run(Init(n), acts[..k]).Some? ==>
      Uninterrupted(Run(Init(n), acts[..k]).value, acts[k])
  }

  ghost predicate ChecksHold(s: State) {
    && (forall u :: u in s.box ==> LoggedIn(s.events, u))
    && (forall h :: 0 <= h < |s.handlers| && PendingUser(s.handlers[h]).Some? ==>
          PendingUser(s.handlers[h]).value in s.box)
  }

  lemma ChecksHoldStep(s: State, a: Action)
    requires ChecksHold(s) && Enabled(s, a) && Uninterrupted(s, a)
    ensures ChecksHold(Step(s, a))
  {
    var s' := Step(s, a);
    forall u | u in s'.box ensures LoggedIn(s'.events, u) {
      KeysChange(s, a, u);
      LoginsChange(s, a, u);
    }
    forall h | 0 <= h < |s'.handlers| && PendingUser(s'.handlers[h]).Some?
      ensures PendingUser(s'.handlers[h]).value in s'.box
    {
      PendingChange(s, a, h);
      KeysChange(s, a, PendingUser(s'.handlers[h]).value);
    }
  }

  lemma {:induction false} UninterruptedKeepsChecks(n: nat, acts: seq<Action>, s: State)
    requires Reaches(n, acts, s) && UninterruptedRun(n, acts)
    ensures ChecksHold(s)
    decreases |acts|
  {
    if acts != [] {
      var before := LastStep(n, acts, s);
      var prefix := acts[..|acts| - 1];
      forall k | 0 <= k < |prefix| ensures prefix[..k] == acts[..k] {}
      UninterruptedKeepsChecks(n, prefix, before);
      ChecksHoldStep(before, acts[|acts| - 1]);
    }
  }

  /** If check and access are never separated, a user is online exactly when its last successful login
      is later than its last "exit". */
  lemma OnlineMeansLoggedIn(n: nat, acts: seq<Action>, s: State, u: UserId)
    requires Reaches(n, acts, s) && UninterruptedRun(n, acts)
    ensures u in s.box <==> LoggedIn(s.events, u)
  {
    UninterruptedKeepsChecks(n, acts, s);
    OnlineIff(n, acts, s, u);
  }

  lemma Extend(n: nat, acts: seq<Action>, s: State, a: Action) returns (acts': seq<Action>, s': State)
    requires Reaches(n, acts, s) && Enabled(s, a)
    ensures Reaches(n, acts', s') && s' == Step(s, a)
  {
    acts', s' := acts + [a], Step(s, a);
    assert acts'[..|acts'| - 1] == acts;
  }

  /** With split steps it fails for any user: a message whose delivery is under way brings the user
      back online after the logout. */
  lemma LoggedOutUserComesBack(n: nat, msg: ProtoEnvelope, bye: ProtoEnvelope) returns (acts: seq<Action>, s: State)
    requires n >= 2 && Decodable(msg) && Decodable(bye)
    requires !IsExit(EnvFromProto(msg)) && IsExit(EnvFromProto(bye))
    requires EnvFromProto(bye).metaData.senderId == EnvFromProto(msg).metaData.recepientId
    ensures Reaches(n, acts, s)
    ensures var u := EnvFromProto(bye).metaData.senderId; u in s.box && !LoggedIn(s.events, u)
  {
    var u := EnvFromProto(bye).metaData.senderId;
    acts, s := [], Init(n);
    acts, s := Extend(n, acts, s, Accept(Some(u)));
    acts, s := Extend(n, acts, s, Receive(0, msg));
    LoggedInStep(s.events, Logout(u), u);
    acts, s := Extend(n, acts, s, Receive(1, bye));
    acts, s := Extend(n, acts, s, Deliver(0));
  }

  // ------------------------------------------------------------------ uninterrupted handlers

  /** The payload that logs its sender out is the C string "exit". */
  lemma ExitIsSpelled(env: Envelope)
    ensures IsExit(env) <==>
              && env.payload[0] == 'e' as int && env.payload[1] == 'x' as int && env.payload[2] == 'i' as int
              && env.payload[3] == 't' as int && env.payload[4] == 0
  {
    var s := env.payload;
    if s[0] == 101 && s[1] == 120 && s[2] == 105 && s[3] == 116 && s[4] == 0 {
      assert s[..4] == EXIT;
      CStringUnique(s, EXIT);
    }
  }

  /** receiveMessage without interference: "exit" logs its sender out; mail for a user who is online is
      appended to his cell, which holds 32 envelopes, and everything else changes nothing. */
  lemma UninterruptedReceive(s: State, h: nat, msg: ProtoEnvelope)
    requires Enabled(s, Receive(h, msg))
    ensures var env := EnvFromProto(msg);
            var u := env.metaData.recepientId;
            var s1 := Step(s, Receive(h, msg));
            var s2 := if s1.handlers[h].Delivering? then Step(s1, Deliver(h)) else s1;
            && s2.handlers == s.handlers
            && s2.box == (if CString(env.payload) == [101, 120, 105, 116] then s.box - {env.metaData.senderId}
                          else if u in s.box && |s.box[u]| < 32 then s.box[u := s.box[u] + [env]] else s.box)
  {
  }

  /** One round of the streaming loop without interference: the stream of a user who is offline ends,
      and that of one who is online takes the oldest envelope, if there is one, and writes it. */
  lemma UninterruptedRound(s: State, h: nat)
    requires Enabled(s, Poll(h))
    ensures var u, stale := s.handlers[h].user, s.handlers[h].forwarded;
            var s1 := Step(s, Poll(h));
            if u !in s.box then s1 == s.(handlers := s.handlers[h := Idle])
            else
              Enabled(s1, Fetch(h))
              && var s2 := Step(s1, Fetch(h));
                 if s.box[u] == [] then s2 == s
                 else
                   var record := EnvToProto(s.box[u][0], stale);
                   && s2.box == s.box[u := s.box[u][1..]] && s2.events == s.events && s2.pushed == s.pushed
                   && s2.handlers == s.handlers[h := Streaming(u, record)]
                   && s2.written == s.written[u := Get(s.written, u) + [record]]
  {
    var u := s.handlers[h].user;
    if u in s.box {
      var s2 := Step(Step(s, Poll(h)), Fetch(h));
      assert s.handlers[h] == Streaming(u, s.handlers[h].forwarded);
      if s.box[u] == [] { assert s2.box == s.box && s2.handlers == s.handlers; }
    }
  }

  /** Anybody can open a stream; it ends at once, without a trace, for a user who is offline, and begins
      with a fresh record for one who is online. */
  lemma UninterruptedOpening(s: State, h: nat, u: UserId)
    requires h < |s.handlers| && s.handlers[h].Idle?
    ensures Enabled(s, Open(h, u)) && Enabled(Step(s, Open(h, u)), Poll(h))
    ensures Step(Step(s, Open(h, u)), Poll(h))
         == if u in s.box then s.(handlers := s.handlers[h := Fetching(u, ProtoEnvelope(None, []))]) else s
  {
    if u !in s.box { assert Step(Step(s, Open(h, u)), Poll(h)).handlers == s.handlers; }
  }

  // ------------------------------------------------------------------ conservation

  /** The mail for u, in order. */
  function MailOf(mail: seq<Envelope>, u: UserId): seq<Envelope> {
    if mail == [] then []
    else
      var last := mail[|mail| - 1];
      MailOf(mail[..|mail| - 1], u) + if last.metaData.recepientId == u then [last] else []
  }

  lemma MailOfStep(mail: seq<Envelope>, env: Envelope, u: UserId)
    ensures MailOf(mail + [env], u) == MailOf(mail, u) + if env.metaData.recepientId == u then [env] else []
  {
    assert (mail + [env])[..|mail|] == mail;
  }

  function Envs(rs: seq<Removal>): seq<Envelope> {
    seq(|rs|, i requires 0 <= i < |rs| => rs[i].env)
  }

  /** The envelopes that streams popped, in order. */
  function Streamed(rs: seq<Removal>): seq<Envelope> {
    if rs == [] then []
    else Streamed(rs[..|rs| - 1]) + if rs[|rs| - 1].streamed then [rs[|rs| - 1].env] else []
  }

  lemma StreamedStep(rs: seq<Removal>, r: Removal)
    ensures Streamed(rs + [r]) == Streamed(rs) + if r.streamed then [r.env] else []
  {
    assert (rs + [r])[..|rs|] == rs;
  }

  lemma {:induction false} StreamedDiscarded(rs: seq<Removal>, cell: seq<Envelope>)
    ensures Streamed(rs + Discarded(cell)) == Streamed(rs)
    decreases |cell|
  {
    if cell == [] {
      assert rs + Discarded(cell) == rs;
    } else {
      var most, last := cell[..|cell| - 1], cell[|cell| - 1];
      assert rs + Discarded(cell) == (rs + Discarded(most)) + [Removal(last, false)];
      StreamedStep(rs + Discarded(most), Removal(last, false));
      StreamedDiscarded(rs, most);
    }
  }

  /** A written record, as its reader decodes it. */
  function Decode(e: ProtoEnvelope): Envelope {
    if PayloadFits(e) then EnvFromProto(e) else EmptyEnvelope()
  }

  function DecodeAll(es: seq<ProtoEnvelope>): seq<Envelope> {
    seq(|es|, i requires 0 <= i < |es| => Decode(es[i]))
  }

  /** Mail that the server may hold for u: decoded from a message that u is the recipient of. */
  ghost predicate MailFor(env: Envelope, u: UserId) {
    env.metaData.recepientId == u && NormalForm(env) == env && EnumsInRange(env) && NulTerminated(env)
  }

  ghost predicate AllMailFor(mail: seq<Envelope>, u: UserId) {
    forall env :: env in mail ==> MailFor(env, u)
  }

  /** The books of user u: what was pushed, removed and written, and what the cell holds. */
  ghost predicate Balanced(pushed: seq<Envelope>, removed: seq<Removal>, cell: seq<Envelope>,
                           written: seq<ProtoEnvelope>, u: UserId) {
    && pushed == Envs(removed) + cell
    && DecodeAll(written) == Streamed(removed)
    && |cell| <= CELL_SIZE
    && AllMailFor(pushed, u)
  }

  ghost predicate ConservedFor(s: State, u: UserId) {
    Balanced(MailOf(s.pushed, u), Get(s.removed, u), Get(s.box, u), Get(s.written, u), u)
  }

  ghost predicate HandlerOk(hd: Handler) {
    match hd
    case Delivering(env) => MailFor(env, env.metaData.recepientId)
    case Streaming(_, e) => Clean(e)
    case Fetching(_, e) => Clean(e)
    case Idle => true
  }

  ghost predicate MailOk(s: State) {
    && (forall u :: ConservedFor(s, u))
    && (forall h :: 0 <= h < |s.handlers| ==> HandlerOk(s.handlers[h]))
  }

  lemma PushBalances(pushed: seq<Envelope>, removed: seq<Removal>, cell: seq<Envelope>,
                     written: seq<ProtoEnvelope>, u: UserId, env: Envelope)
    requires Balanced(pushed, removed, cell, written, u) && |cell| < CELL_SIZE && MailFor(env, u)
    ensures Balanced(pushed + [env], removed, cell + [env], written, u)
  {
    assert Envs(removed) + (cell + [env]) == (Envs(removed) + cell) + [env];
  }

  lemma DeliverConserves(s: State, h: nat, u: UserId)
    requires MailOk(s) && Enabled(s, Deliver(h))
    ensures ConservedFor(DeliverStep(s, h), u)
  {
    assert ConservedFor(s, u) && HandlerOk(s.handlers[h]);
    var env, s' := s.handlers[h].env, DeliverStep(s, h);
    MailOfStep(s.pushed, env, u);
    if env.metaData.recepientId == u && |Get(s.box, u)| < CELL_SIZE {
      PushBalances(MailOf(s.pushed, u), Get(s.removed, u), Get(s.box, u), Get(s.written, u), u, env);
    } else {
      assert MailOf(s'.pushed, u) == MailOf(s.pushed, u) && Get(s'.box, u) == Get(s.box, u);
    }
  }

  lemma FetchedDecodes(env: Envelope, stale: ProtoEnvelope)
    requires NormalForm(env) == env && EnumsInRange(env) && NulTerminated(env) && Clean(stale)
    ensures Decode(EnvToProto(env, stale)) == env && Clean(EnvToProto(env, stale))
  {
    EnvToProtoKeepsClean(env, stale);
    RecordRoundTripIff(env, stale);
  }

  lemma OldestIsMail(s: State, u: UserId)
    requires ConservedFor(s, u) && Get(s.box, u) != []
    ensures MailFor(Get(s.box, u)[0], u)
  {
    assert MailOf(s.pushed, u)[|Envs(Get(s.removed, u))|] == Get(s.box, u)[0];
  }

  /** The lists of one user after a stream popped and wrote the oldest envelope. */
  lemma FetchMovesOldest(rs: seq<Removal>, cell: seq<Envelope>, es: seq<ProtoEnvelope>, record: ProtoEnvelope)
    requires cell != [] && Decode(record) == cell[0] && DecodeAll(es) == Streamed(rs)
    ensures Envs(rs) + cell == Envs(rs + [Removal(cell[0], true)]) + cell[1..]
    ensures DecodeAll(es + [record]) == Streamed(rs + [Removal(cell[0], true)])
  {
    StreamedStep(rs, Removal(cell[0], true));
    assert Envs(rs + [Removal(cell[0], true)]) == Envs(rs) + [cell[0]];
    assert DecodeAll(es + [record]) == DecodeAll(es) + [cell[0]];
  }

  lemma FetchConserves(s: State, h: nat, u: UserId)
    requires MailOk(s) && Enabled(s, Fetch(h))
    ensures ConservedFor(FetchStep(s, h), u)
  {
    var v, stale := s.handlers[h].user, s.handlers[h].forwarded;
    assert ConservedFor(s, u) && HandlerOk(s.handlers[h]);
    var cell, s' := Get(s.box, v), FetchStep(s, h);
    if v == u && cell != [] {
      var record := EnvToProto(cell[0], stale);
      OldestIsMail(s, u);
      FetchedDecodes(cell[0], stale);
      FetchMovesOldest(Get(s.removed, u), cell, Get(s.written, u), record);
      assert Get(s'.removed, u) == Get(s.removed, u) + [Removal(cell[0], true)];
      assert Get(s'.written, u) == Get(s.written, u) + [record] && Get(s'.box, u) == cell[1..];
    } else {
      assert Get(s'.box, u) == Get(s.box, u) && Get(s'.removed, u) == Get(s.removed, u);
      assert Get(s'.written, u) == Get(s.written, u);
    }
  }

  lemma FetchKeepsHandler(s: State, h: nat)
    requires MailOk(s) && Enabled(s, Fetch(h))
    ensures HandlerOk(FetchStep(s, h).handlers[h])
  {
    var v := s.handlers[h].user;
    assert ConservedFor(s, v) && HandlerOk(s.handlers[h]);
    if Get(s.box, v) != [] {
      OldestIsMail(s, v);
      FetchedDecodes(Get(s.box, v)[0], s.handlers[h].forwarded);
    }
  }

  lemma DiscardBalances(pushed: seq<Envelope>, removed: seq<Removal>, cell: seq<Envelope>,
                        written: seq<ProtoEnvelope>, u: UserId)
    requires Balanced(pushed, removed, cell, written, u)
    ensures Balanced(pushed, removed + Discarded(cell), [], written, u)
  {
    StreamedDiscarded(removed, cell);
    assert Envs(removed + Discarded(cell)) + [] == Envs(removed) + cell;
  }

  lemma LogoutConserves(s: State, v: UserId, u: UserId)
    requires MailOk(s)
    ensures ConservedFor(LogoutStep(s, v), u)
  {
    assert ConservedFor(s, u);
    if u == v {
      DiscardBalances(MailOf(s.pushed, u), Get(s.removed, u), Get(s.box, u), Get(s.written, u), u);
    } else {
      assert Get(LogoutStep(s, v).box, u) == Get(s.box, u);
    }
  }

  /** A login, repeated or not, touches nobody's mail. */
  lemma LoginKeepsMail(s: State, u: UserId, v: UserId)
    ensures Get(AcceptStep(s, u).box, v) == Get(s.box, v)
    ensures u in s.box ==> AcceptStep(s, u).box == s.box
  {
  }

  lemma AcceptKeepsMail(s: State, u: UserId)
    requires MailOk(s)
    ensures MailOk(AcceptStep(s, u))
  {
    forall v ensures ConservedFor(AcceptStep(s, u), v) {
      assert ConservedFor(s, v);
      LoginKeepsMail(s, u, v);
    }
  }

  lemma ReceiveKeepsMail(s: State, h: nat, msg: ProtoEnvelope)
    requires MailOk(s) && Enabled(s, Receive(h, msg))
    ensures MailOk(ReceiveStep(s, h, msg))
  {
    var env := EnvFromProto(msg);
    EnvFromProtoIsNormal(msg);
    var s' := ReceiveStep(s, h, msg);
    forall u ensures ConservedFor(s', u) {
      assert ConservedFor(s, u);
      if IsExit(env) { LogoutConserves(s, env.metaData.senderId, u); }
    }
  }

  lemma MailStep(s: State, a: Action)
    requires MailOk(s) && Enabled(s, a)
    ensures MailOk(Step(s, a))
  {
    var s' := Step(s, a);
    match a {
      case Accept(Some(u)) => AcceptKeepsMail(s, u);
      case Receive(h, msg) => ReceiveKeepsMail(s, h, msg);
      case Deliver(h) => forall u ensures ConservedFor(s', u) { DeliverConserves(s, h, u); }
      case Fetch(h) =>
        forall u ensures ConservedFor(s', u) { FetchConserves(s, h, u); }
        FetchKeepsHandler(s, h);
      case _ => forall u ensures ConservedFor(s', u) { assert ConservedFor(s, u); }
    }
  }

  lemma {:induction false} MailReachable(n: nat, acts: seq<Action>, s: State)
    requires Reaches(n, acts, s)
    ensures MailOk(s)
    decreases |acts|
  {
    if acts != [] {
      var before := LastStep(n, acts, s);
      MailReachable(n, acts[..|acts| - 1], before);
      MailStep(before, acts[|acts| - 1]);
    }
  }

  /** Conservation: for every user, the accepted envelopes are, in order, those that streams popped
      or logouts discarded followed by those still in the cell; all of them are addressed to the
      user; and what streams wrote for the user decodes to exactly what they popped. */
  lemma MailIsConserved(n: nat, acts: seq<Action>, s: State, u: UserId)
    requires Reaches(n, acts, s)
    ensures MailOf(s.pushed, u) == Envs(Get(s.removed, u)) + Get(s.box, u) && |Get(s.box, u)| <= 32
    ensures forall env :: env in MailOf(s.pushed, u) ==> MailFor(env, u)
    ensures DecodeAll(Get(s.written, u)) == Streamed(Get(s.removed, u))
  {
    MailReachable(n, acts, s);
    assert ConservedFor(s, u);
  }

  // ------------------------------------------------------------------ which mail, and for whom

  /** The mail that a message carries to the server. */
  function MailIn(a: Action): Option<Envelope> {
    if a.Receive? && Decodable(a.msg) && !IsExit(EnvFromProto(a.msg)) then Some(EnvFromProto(a.msg)) else None
  }

  function One(mail: Option<Envelope>, env: Envelope): nat {
    if mail == Some(env) then 1 else 0
  }

  /** How often a run receives this envelope. */
  function ReceivedCount(acts: seq<Action>, env: Envelope): nat {
    if acts == [] then 0 else ReceivedCount(acts[..|acts| - 1], env) + One(MailIn(acts[|acts| - 1]), env)
  }

  function InDelivery(hd: Handler): Option<Envelope> {
    if hd.Delivering? then Some(hd.env) else None
  }

  function DeliveringCount(hds: seq<Handler>, env: Envelope): nat {
    if hds == [] then 0 else One(InDelivery(hds[0]), env) + DeliveringCount(hds[1..], env)
  }

  lemma {:induction false} DeliveringUpdate(hds: seq<Handler>, h: nat, hd: Handler, env: Envelope)
    requires h < |hds|
    ensures DeliveringCount(hds[h := hd], env) + One(InDelivery(hds[h]), env)
         == DeliveringCount(hds, env) + One(InDelivery(hd), env)
  {
    var hds' := hds[h := hd];
    if h == 0 {
      assert hds'[1..] == hds[1..];
    } else {
      assert hds'[1..] == hds[1..][h - 1 := hd];
      DeliveringUpdate(hds[1..], h - 1, hd, env);
    }
  }

  lemma {:induction false} NothingInDelivery(hds: seq<Handler>, env: Envelope)
    requires forall h :: 0 <= h < |hds| ==> hds[h].Idle?
    ensures DeliveringCount(hds, env) == 0
  {
    if hds != [] { NothingInDelivery(hds[1..], env); }
  }

  lemma DeliveredStep(s: State, a: Action, env: Envelope)
    requires Enabled(s, a)
    ensures multiset(Step(s, a).pushed)[env] + DeliveringCount(Step(s, a).handlers, env)
         <= multiset(s.pushed)[env] + DeliveringCount(s.handlers, env) + One(MailIn(a), env)
  {
    if !a.Accept? {
      DeliveringUpdate(s.handlers, a.h, Step(s, a).handlers[a.h], env);
      assert Step(s, a).handlers == s.handlers[a.h := Step(s, a).handlers[a.h]];
    }
  }

  /** In every run, every envelope has been delivered to a cell at most as often as it was received, and
      just as it was decoded: nothing is made up, altered or delivered twice. */
  lemma {:induction false} DeliveredAsReceived(n: nat, acts: seq<Action>, s: State, env: Envelope)
    requires Reaches(n, acts, s)
    ensures multiset(s.pushed)[env] + DeliveringCount(s.handlers, env) <= ReceivedCount(acts, env)
    decreases |acts|
  {
    if acts == [] {
      NothingInDelivery(s.handlers, env);
    } else {
      var before := LastStep(n, acts, s);
      DeliveredAsReceived(n, acts[..|acts| - 1], before, env);
      DeliveredStep(before, acts[|acts| - 1], env);
    }
  }

  /** The user for whom the handler's stream was opened last. */
  function LastOpen(acts: seq<Action>, h: nat): Option<UserId> {
    if acts == [] then None
    else match acts[|acts| - 1]
         case Open(m, u) => if m == h then Some(u) else LastOpen(acts[..|acts| - 1], h)
         case _ => LastOpen(acts[..|acts| - 1], h)
  }

  /** The records that the streams opened for u have written: one for each pop from u's own cell that
      found an envelope. */
  function Served(n: nat, acts: seq<Action>, u: UserId): seq<ProtoEnvelope> {
    if acts == [] then []
    else
      var most, a := acts[..|acts| - 1], acts[|acts| - 1];
      Served(n, most, u)
      + match Run(Init(n), most)
        case None => []
        case Some(t) =>
          if a.Fetch? && a.h < |t.handlers| && t.handlers[a.h].Fetching? && LastOpen(most, a.h) == Some(u)
             && Get(t.box, u) != []
          then [EnvToProto(Get(t.box, u)[0], t.handlers[a.h].forwarded)] else []
  }

  ghost predicate OpenedFor(acts: seq<Action>, s: State) {
    forall h :: 0 <= h < |s.handlers| && (s.handlers[h].Streaming? || s.handlers[h].Fetching?) ==>
      LastOpen(acts, h) == Some(s.handlers[h].user)
  }

  lemma OpenedForStep(acts: seq<Action>, s: State, a: Action)
    requires Enabled(s, a) && OpenedFor(acts, s)
    ensures OpenedFor(acts + [a], Step(s, a))
  {
    assert (acts + [a])[..|acts|] == acts;
    var s' := Step(s, a);
    forall h | 0 <= h < |s'.handlers| && (s'.handlers[h].Streaming? || s'.handlers[h].Fetching?)
      ensures LastOpen(acts + [a], h) == Some(s'.handlers[h].user)
    {
      if a.Accept? || a.h != h { assert s'.handlers[h] == s.handlers[h]; }
    }
  }

  lemma WrittenStep(s: State, a: Action, u: UserId)
    requires Enabled(s, a)
    ensures Get(Step(s, a).written, u)
         == Get(s.written, u)
            + if a.Fetch? && s.handlers[a.h].user == u && Get(s.box, u) != []
              then [EnvToProto(Get(s.box, u)[0], s.handlers[a.h].forwarded)] else []
  {
  }

  /** In every run, a stream serves the user for whom it was opened, and the records written for a user
      are those that his own streams took from his cell. */
  lemma {:induction false} StreamsServeTheirUser(n: nat, acts: seq<Action>, s: State, u: UserId)
    requires Reaches(n, acts, s)
    ensures OpenedFor(acts, s) && Get(s.written, u) == Served(n, acts, u)
    decreases |acts|
  {
    if acts != [] {
      var most, a := acts[..|acts| - 1], acts[|acts| - 1];
      var before := LastStep(n, acts, s);
      StreamsServeTheirUser(n, most, before, u);
      OpenedForStep(most, before, a);
      WrittenStep(before, a, u);
      assert acts == most + [a];
    }
  }
}
