/**
  The server of server_app/endpoint/GrpcServer.cpp with its map of ring buffers.  The methods run
  without interference and are proved against the map functions that `Mailbox` interleaves.
*/
module GrpcServers {
  import opened Wrappers
  import opened Envelopes
  import opened Fifo
  import opened CircularBuffers
  import opened Protobuf
  import opened MessageProcessing
  import opened Mailbox

  type PostBoxCell = CircularBuffer<Envelope>

  ghost predicate CellHolds(cell: PostBoxCell, mail: seq<Envelope>)
    reads cell, cell.circBuffer
  {
    cell.Valid() && cell.length == CELL_SIZE && cell.Contents() == mail
  }

  ghost predicate Owns(owner: map<object, UserId>, u: UserId, cell: PostBoxCell) {
    cell in owner && owner[cell] == u && cell.circBuffer in owner && owner[cell.circBuffer] == u
  }

  /** A user who is in the map has a cell of his own, and it holds his mail. */
  ghost predicate CellOk(owner: map<object, UserId>, cells: map<UserId, PostBoxCell>, mail: PostBox, u: UserId)
    reads owner.Keys
  {
    u in cells ==> u in mail && Owns(owner, u, cells[u]) && CellHolds(cells[u], mail[u])
  }

  ghost predicate CellsOk(owner: map<object, UserId>, cells: map<UserId, PostBoxCell>, mail: PostBox)
    reads owner.Keys
  {
    mail.Keys == cells.Keys && forall u :: CellOk(owner, cells, mail, u)
  }

  /** Adding a cell that has no owner yet. */
  lemma CellAdded(owner: map<object, UserId>, cells: map<UserId, PostBoxCell>, mail: PostBox,
                  user: UserId, cell: PostBoxCell)
    requires CellsOk(owner, cells, mail) && user !in cells && CellHolds(cell, [])
    requires cell !in owner && cell.circBuffer !in owner
    ensures CellsOk(owner[cell := user][cell.circBuffer := user], cells[user := cell], mail[user := []])
  {
    var owner', cells', mail' := owner[cell := user][cell.circBuffer := user], cells[user := cell], mail[user := []];
    forall u ensures CellOk(owner', cells', mail', u) {
      assert CellOk(owner, cells, mail, u);
    }
  }

  method NewCell() returns (cell: PostBoxCell)
    ensures fresh(cell) && fresh(cell.circBuffer) && CellHolds(cell, [])
  {
    cell := new CircularBuffer<Envelope>(CELL_SIZE);
  }

  method PushMail(cell: PostBoxCell, ghost mail: seq<Envelope>, env: Envelope) returns (ok: bool)
    requires CellHolds(cell, mail)
    modifies cell, cell.circBuffer
    ensures CellHolds(cell, Push(mail, CELL_SIZE, env)) && ok == (|mail| < CELL_SIZE)
  {
    ok := cell.Push(env);
  }

  method PopMail(cell: PostBoxCell, ghost mail: seq<Envelope>) returns (r: Option<Envelope>)
    requires CellHolds(cell, mail)
    modifies cell
    ensures CellHolds(cell, Pop(mail)) && r == Oldest(mail)
  {
    r := cell.Pop();
  }

  class GrpcEndpointServer {
    var postBox: map<UserId, PostBoxCell>
    /** The map as a value. */
    ghost var boxes: PostBox
    ghost var Repr: set<object>
    /** The user that a cell or its array belongs to, so that no two users share one. */
    ghost var owner: map<object, UserId>

    ghost predicate Valid()
      reads this, Repr
    {
      this in Repr && this !in owner && owner.Keys <= Repr && CellsOk(owner, postBox, boxes)
    }

    constructor ()
      ensures Valid() && boxes == map[] && fresh(Repr)
    {
      postBox, boxes, owner := map[], map[], map[];
      Repr := {this};
    }

    method IsOnline(user: UserId) returns (online: bool)
      requires Valid()
      ensures online == (user in boxes)
    {
      online := user in postBox;
    }

    method Insert(user: UserId, cell: PostBoxCell)
      requires Valid() && user !in postBox && CellHolds(cell, [])
      requires cell !in Repr && cell.circBuffer !in Repr
      modifies this
      ensures Valid() && Repr == old(Repr) + {cell, cell.circBuffer}
      ensures user in postBox && boxes == old(boxes)[user := []]
    {
      CellAdded(owner, postBox, boxes, user, cell);
      postBox := postBox[user := cell];
      boxes := boxes[user := []];
      owner := owner[cell := user][cell.circBuffer := user];
      Repr := Repr + {cell, cell.circBuffer};
    }

    /** `emplace` and `operator[]`: an absent user gets an empty cell, a present one keeps his. */
    method AddUserToConnected(user: UserId)
      requires Valid()
      modifies this
      ensures Valid() && fresh(Repr - old(Repr))
      ensures user in postBox && boxes == Access(old(boxes), user)
    {
      if user !in postBox {
        var cell := NewCell();
        Insert(user, cell);
      }
    }

    method DisconnectUser(user: UserId)
      requires Valid()
      modifies this
      ensures Valid() && Repr == old(Repr)
      ensures boxes == Disconnect(old(boxes), user)
    {
      ghost var cells, mail := postBox, boxes;
      postBox := postBox - {user};
      boxes := boxes - {user};
      forall u ensures CellOk(owner, postBox, boxes, u) {
        assert CellOk(owner, cells, mail, u);
      }
    }

    method AcceptConnection(answer: Option<UserId>) returns (ok: bool)
      requires Valid()
      modifies this
      ensures Valid() && fresh(Repr - old(Repr))
      ensures ok == answer.Some?
      ensures boxes == if answer.Some? && answer.value !in old(boxes) then old(boxes)[answer.value := []]
                       else old(boxes)
    {
      if answer.Some? {
        AddUserToConnected(answer.value);
        return true;
      }
      return false;
    }

    method PushToPresent(user: UserId, env: Envelope) returns (ok: bool)
      requires Valid() && user in postBox
      modifies this`boxes, postBox[user], postBox[user].circBuffer
      ensures Valid()
      ensures ok == (|old(boxes[user])| < CELL_SIZE)
      ensures boxes == old(boxes)[user := Push(old(boxes[user]), CELL_SIZE, env)]
    {
      assert CellOk(owner, postBox, boxes, user);
      var cell := postBox[user];
      ghost var mail := boxes[user];
      boxes := boxes[user := Push(mail, CELL_SIZE, env)];
      ok := PushMail(cell, mail, env);
      forall u ensures CellOk(owner, postBox, boxes, u) {
        assert old(CellOk(owner, postBox, boxes, u) && CellOk(owner, postBox, boxes, user));
      }
    }

    method PopFromPresent(user: UserId) returns (r: Option<Envelope>)
      requires Valid() && user in postBox
      modifies this`boxes, postBox[user]
      ensures Valid()
      ensures r == Oldest(old(boxes[user]))
      ensures boxes == old(boxes)[user := Pop(old(boxes[user]))]
    {
      assert CellOk(owner, postBox, boxes, user);
      var cell := postBox[user];
      ghost var mail := boxes[user];
      boxes := boxes[user := Pop(mail)];
      r := PopMail(cell, mail);
      forall u ensures CellOk(owner, postBox, boxes, u) {
        assert old(CellOk(owner, postBox, boxes, u) && CellOk(owner, postBox, boxes, user));
      }
    }

    /** `post_box[user].push(env)` */
    method PushToCell(user: UserId, env: Envelope) returns (ok: bool)
      requires Valid()
      modifies Repr
      ensures Valid() && fresh(Repr - old(Repr))
      ensures ok == (|Get(old(boxes), user)| < CELL_SIZE)
      ensures boxes == PushTo(old(boxes), user, env)
    {
      AddUserToConnected(user);
      assert CellOk(owner, postBox, boxes, user);
      ok := PushToPresent(user, env);
    }

    /** `post_box[user].pop()` */
    method PopFromCell(user: UserId) returns (r: Option<Envelope>)
      requires Valid()
      modifies Repr
      ensures Valid() && fresh(Repr - old(Repr))
      ensures r == Oldest(Get(old(boxes), user))
      ensures boxes == PopFrom(old(boxes), user)
    {
      AddUserToConnected(user);
      assert CellOk(owner, postBox, boxes, user);
      r := PopFromPresent(user);
    }

    /** receiveMessage without interference. */
    method ReceiveMessage(msg: ProtoEnvelope) returns (ok: bool)
      requires Valid() && Decodable(msg)
      modifies Repr
      ensures Valid() && fresh(Repr - old(Repr))
      ensures var env, box := EnvFromProto(msg), old(boxes);
              var u := env.metaData.recepientId;
              if IsExit(env) then ok && boxes == Disconnect(box, env.metaData.senderId)
              else if u !in box then !ok && boxes == box
              else ok == (|box[u]| < 32) && boxes == if ok then box[u := box[u] + [env]] else box
    {
      var env := EnvFromProto(msg);
      if IsExit(env) {
        DisconnectUser(env.metaData.senderId);
        return true;
      }
      var online := IsOnline(env.metaData.recepientId);
      if !online {
        return false;
      }
      ok := PushToCell(env.metaData.recepientId, env);
    }

    /** One round of the streaming loop: whether it goes on, and the record it has written. */
    method StreamOnce(user: UserId, forwarded: ProtoMessage) returns (online: bool, written: Option<ProtoEnvelope>)
      requires Valid() && forwarded !in Repr
      requires forall env :: env in Get(boxes, user) ==> NulTerminated(env)
      modifies Repr, forwarded
      ensures Valid() && fresh(Repr - old(Repr))
      ensures online == (user in old(boxes))
      ensures boxes == if online && old(boxes)[user] != [] then old(boxes)[user := old(boxes)[user][1..]]
                       else old(boxes)
      ensures written == if !online || Get(old(boxes), user) == [] then None
                         else Some(EnvToProto(Get(old(boxes), user)[0], old(forwarded.record)))
      ensures forwarded.record == written.GetOr(old(forwarded.record))
    {
      written := None;
      online := IsOnline(user);
      if online {
        var envToForward := PopFromCell(user);
        if envToForward.Some? {
          PutEnvToProtoBuf(envToForward.value, forwarded);
          written := Some(forwarded.record);
        }
      }
    }
  }
}
