/**
  Framing in the reused transmission buffers (common/endpoint/EndpointBase.cpp).  The whole buffer
  travels in every datagram, so bytes that an earlier, longer message left behind travel too.
*/
module EndpointBases {
  import opened Wrappers
  import opened Envelopes
  import opened Protobuf
  import opened MessageProcessing

  /** The bytes that sendto hands to the network: the struct RxTxBuffer as a whole. */
  datatype RawDatagram = RawDatagram(messageSize: nat, payload: Bytes)

  predicate WellFramed(d: RawDatagram) {
    |d.payload| == ENVELOPE_SIZE && d.messageSize <= ENVELOPE_SIZE
  }

  function Overwrite(buffer: Bytes, data: Bytes): (r: Bytes)
    requires |data| <= |buffer|
    ensures |r| == |buffer| && r[..|data|] == data && r[|data|..] == buffer[|data|..]
  {
    data + buffer[|data|..]
  }

  /** The record that a datagram parses to; the result of ParseFromArray is ignored. */
  function Received(d: RawDatagram): ProtoEnvelope
    requires WellFramed(d)
  {
    Parse(d.payload[..d.messageSize]).0
  }

  /** The datagram that an endpoint sends for an envelope, given the stale contents of its record
      and of its buffer. */
  function Frame(env: Envelope, stale: ProtoEnvelope, buffer: Bytes): (d: RawDatagram)
    requires NulTerminated(env) && Clean(stale) && |buffer| == ENVELOPE_SIZE
    ensures WellFramed(d)
  {
    var data := Serialize(EnvToProto(env, stale));
    EncodedSizeBound(env, stale);
    RawDatagram(|data|, Overwrite(buffer, data))
  }

  class RxTxBuffer {
    var messageSize: nat
    const payload: array<Byte>

    constructor ()
      ensures fresh(payload) && payload.Length == ENVELOPE_SIZE && messageSize == 0
    {
      messageSize := 0;
      payload := new Byte[ENVELOPE_SIZE](_ => 0);
    }
  }

  class EndpointBase {
    const protoIn: ProtoMessage
    const protoOut: ProtoMessage
    const bufferIn: RxTxBuffer
    const bufferOut: RxTxBuffer

    ghost predicate Valid()
      reads this, protoOut
    {
      && protoIn != protoOut && bufferIn != bufferOut && bufferIn.payload != bufferOut.payload
      && bufferIn.payload.Length == bufferOut.payload.Length == ENVELOPE_SIZE
      && Clean(protoOut.record)
    }

    constructor ()
      ensures Valid() && fresh(protoIn) && fresh(protoOut) && fresh(bufferIn) && fresh(bufferOut)
      ensures fresh(bufferIn.payload) && fresh(bufferOut.payload)
      ensures protoOut.record == DEFAULT_ENVELOPE
    {
      protoIn := new ProtoMessage();
      protoOut := new ProtoMessage();
      bufferIn := new RxTxBuffer();
      bufferOut := new RxTxBuffer();
    }

    method PutEnvToProtoBufferOut(env: Envelope)
      requires Valid() && NulTerminated(env)
      modifies protoOut, bufferOut, bufferOut.payload
      ensures Valid()
      ensures protoOut.record == EnvToProto(env, old(protoOut.record))
      ensures RawDatagram(bufferOut.messageSize, bufferOut.payload[..])
           == Frame(env, old(protoOut.record), old(bufferOut.payload[..]))
    {
      EncodedSizeBound(env, protoOut.record);
      EnvToProtoKeepsClean(env, protoOut.record);
      PutEnvToProtoBuf(env, protoOut);
      var data := Serialize(protoOut.record);
      bufferOut.messageSize := |data|;
      forall i | 0 <= i < |data| {
        bufferOut.payload[i] := data[i];
      }
      assert bufferOut.payload[..] == Overwrite(old(bufferOut.payload[..]), data);
    }

    /** The part of recvfrom that matters here: the datagram replaces the whole input buffer. */
    method FillBufferIn(d: RawDatagram)
      requires Valid() && WellFramed(d)
      modifies bufferIn, bufferIn.payload
      ensures Valid()
      ensures RawDatagram(bufferIn.messageSize, bufferIn.payload[..]) == d
    {
      bufferIn.messageSize := d.messageSize;
      forall i | 0 <= i < ENVELOPE_SIZE {
        bufferIn.payload[i] := d.payload[i];
      }
      assert bufferIn.payload[..] == d.payload;
    }

    method GetEnvFromProtoBufferIn() returns (r: Option<Envelope>)
      requires Valid() && bufferIn.messageSize <= ENVELOPE_SIZE
      requires PayloadFits(Received(RawDatagram(bufferIn.messageSize, bufferIn.payload[..])))
      modifies protoIn
      ensures Valid()
      ensures r == Some(EnvFromProto(Received(RawDatagram(bufferIn.messageSize, bufferIn.payload[..]))))
    {
      assert bufferIn.payload[..bufferIn.messageSize] == bufferIn.payload[..][..bufferIn.messageSize];
      var (record, _) := Parse(bufferIn.payload[..bufferIn.messageSize]);
      protoIn.record := record;
      r := Some(EnvFromProto(protoIn.record));
    }
  }

  /** The central law of the codec.  For any stale record and any stale buffer, a datagram decodes
      to the normal form of the envelope exactly when its enumeration fields are in range. */
  lemma WireRoundTripIff(env: Envelope, stale: ProtoEnvelope, buffer: Bytes)
    requires NulTerminated(env) && Clean(stale) && |buffer| == ENVELOPE_SIZE
    ensures Received(Frame(env, stale, buffer)) == EnvToProto(env, stale)
    ensures PayloadFits(Received(Frame(env, stale, buffer)))
    ensures EnvFromProto(Received(Frame(env, stale, buffer))) == NormalForm(env) <==> EnumsInRange(env)
  {
    var e := EnvToProto(env, stale);
    CStringOfTerminated(env);
    SerializeRoundTrip(e);
    var d := Frame(env, stale, buffer);
    assert d.payload[..d.messageSize] == Serialize(e);
    RecordRoundTripIff(env, stale);
  }

  /** An envelope whose message type has no enumerator travels with the type of the message that went
      through the record before it: after an ACK, as an ACK with its own time stamp. */
  lemma UndeclaredTypeAfterAck(env: Envelope, t: UInt32, older: ProtoEnvelope, buffer: Bytes)
    requires NulTerminated(env) && Clean(older) && |buffer| == ENVELOPE_SIZE && env.MessageType() > ACK_MESSAGE
    ensures var stale := EnvToProto(AckEnvelope(t), older);
            && Clean(stale) && PayloadFits(Received(Frame(env, stale, buffer)))
            && var got := EnvFromProto(Received(Frame(env, stale, buffer)));
               got.MessageType() == ACK_MESSAGE && got.Timestamp() == env.Timestamp()
  {
    var stale := EnvToProto(AckEnvelope(t), older);
    EnvToProtoKeepsClean(AckEnvelope(t), older);
    WireRoundTripIff(env, stale, buffer);
  }

  /** An endpoint's transmit side as a value, and a run of sends on it. */
  datatype Transmitter = Transmitter(record: ProtoEnvelope, buffer: Bytes, sent: seq<RawDatagram>)

  ghost predicate ValidTransmitter(t: Transmitter) {
    Clean(t.record) && |t.buffer| == ENVELOPE_SIZE && forall d :: d in t.sent ==> WellFramed(d)
  }

  function SendOne(t: Transmitter, env: Envelope): (r: Transmitter)
    requires ValidTransmitter(t) && NulTerminated(env)
    ensures ValidTransmitter(r)
  {
    var d := Frame(env, t.record, t.buffer);
    EnvToProtoKeepsClean(env, t.record);
    Transmitter(EnvToProto(env, t.record), d.payload, t.sent + [d])
  }

  function SendAll(t: Transmitter, envs: seq<Envelope>): (r: Transmitter)
    requires ValidTransmitter(t) && forall e :: e in envs ==> NulTerminated(e)
    ensures ValidTransmitter(r)
  {
    if envs == [] then t else SendOne(SendAll(t, envs[..|envs| - 1]), envs[|envs| - 1])
  }

  /** The receiver of the datagram gets the normal form of the envelope. */
  ghost predicate Faithful(d: RawDatagram, env: Envelope) {
    WellFramed(d) && PayloadFits(Received(d)) && EnvFromProto(Received(d)) == NormalForm(env)
  }

  ghost predicate AllFaithful(ds: seq<RawDatagram>, envs: seq<Envelope>) {
    |ds| == |envs| && forall k :: 0 <= k < |ds| ==> Faithful(ds[k], envs[k])
  }

  lemma SendOneIsFaithful(t: Transmitter, env: Envelope) returns (d: RawDatagram)
    requires ValidTransmitter(t) && NulTerminated(env) && EnumsInRange(env)
    ensures SendOne(t, env).sent == t.sent + [d] && Faithful(d, env)
  {
    WireRoundTripIff(env, t.record, t.buffer);
    d := Frame(env, t.record, t.buffer);
  }

  lemma AllFaithfulGrows(ds: seq<RawDatagram>, envs: seq<Envelope>, d: RawDatagram, env: Envelope)
    requires AllFaithful(ds, envs) && Faithful(d, env)
    ensures AllFaithful(ds + [d], envs + [env])
  {
    forall k | 0 <= k < |ds + [d]|
      ensures Faithful((ds + [d])[k], (envs + [env])[k])
    {
      if k < |ds| { assert Faithful(ds[k], envs[k]); }
    }
  }

  /** Over a whole run of sends through one record and one buffer, one datagram is added per
      envelope, in order, and every datagram decodes to the normal form of its own envelope:
      nothing of the earlier messages shows. */
  lemma {:induction false} NothingStaleShows(t: Transmitter, envs: seq<Envelope>) returns (ds: seq<RawDatagram>)
    requires ValidTransmitter(t)
    requires forall e :: e in envs ==> NulTerminated(e) && EnumsInRange(e)
    ensures SendAll(t, envs).sent == t.sent + ds && AllFaithful(ds, envs)
  {
    if envs == [] {
      ds := [];
    } else {
      var most, last := envs[..|envs| - 1], envs[|envs| - 1];
      assert envs == most + [last];
      var before := NothingStaleShows(t, most);
      var d := SendOneIsFaithful(SendAll(t, most), last);
      AllFaithfulGrows(before, most, d, last);
      ds := before + [d];
    }
  }
}
