/** The in-memory envelope of the messenger (common/interfaces/defines.hpp). */
module Envelopes {
  type Byte = x: int | 0 <= x < 0x100
  type UInt32 = x: int | 0 <= x < 0x1_0000_0000
  type UInt64 = x: int | 0 <= x < 0x1_0000_0000_0000_0000
  type Bytes = seq<Byte>

  /** `Envelope::size`, and `size - sizeof(EnvelopeMeta)` on a 64-bit target. */
  const ENVELOPE_SIZE: nat := 1024
  const PAYLOAD_SIZE: nat := 976

  /** The values of the C++ enumerations; both have `uint8_t` as underlying type. */
  const USER_MESSAGE: Byte := 0
  const SERVICE_MESSAGE: Byte := 1
  const ACK_MESSAGE: Byte := 2
  const TEXT_MESSAGE: Byte := 0
  const FILE_MESSAGE: Byte := 1

  type Payload = s: Bytes | |s| == PAYLOAD_SIZE witness Zeros(PAYLOAD_SIZE)

  datatype Header = Header(payloadSize: UInt64, totalSize: UInt64, messageType: Byte, timestamp: UInt32)
  datatype EnvelopeMeta = EnvelopeMeta(header: Header, dataType: Byte, senderId: UInt64, recepientId: UInt64)
  datatype Envelope = Envelope(metaData: EnvelopeMeta, payload: Payload)
  {
    function MessageType(): Byte { metaData.header.messageType }

    function Timestamp(): UInt32 { metaData.header.timestamp }

    function WithMessageType(t: Byte): Envelope {
      this.(metaData := metaData.(header := metaData.header.(messageType := t)))
    }

    function WithTimestamp(t: UInt32): Envelope {
      this.(metaData := metaData.(header := metaData.header.(timestamp := t)))
    }
  }

  function Zeros(n: nat): (s: Bytes)
    ensures |s| == n
  {
    seq(n, _ => 0)
  }

  /** `Envelope{}`: every field and every payload byte zero. */
  function EmptyEnvelope(): Envelope {
    Envelope(EnvelopeMeta(Header(0, 0, USER_MESSAGE, 0), TEXT_MESSAGE, 0, 0), Zeros(PAYLOAD_SIZE))
  }

  /** The bytes that C string functions see: everything before the first NUL, or before the end,
      where `c_str()` puts one. */
  function CString(s: Bytes): (c: Bytes)
    ensures |c| <= |s|
    ensures 0 !in c
    ensures c == s[..|c|]
    ensures |c| < |s| ==> s[|c|] == 0
  {
    if s == [] || s[0] == 0 then [] else [s[0]] + CString(s[1..])
  }

  /** The four contract clauses of `CString` leave no choice: they determine its result. */
  lemma CStringUnique(s: Bytes, c: Bytes)
    requires |c| <= |s| && 0 !in c && c == s[..|c|] && (|c| < |s| ==> s[|c|] == 0)
    ensures c == CString(s)
  {
  }

  /** A C string copied into a payload field that was zeroed before. */
  function Padded(c: Bytes): Payload
    requires |c| <= PAYLOAD_SIZE
  {
    c + Zeros(PAYLOAD_SIZE - |c|)
  }

  lemma CStringOfPadded(c: Bytes)
    requires |c| <= PAYLOAD_SIZE && 0 !in c
    ensures CString(Padded(c)) == c
  {
    CStringUnique(Padded(c), c);
  }

  /** What the wire preserves of an envelope: type, time stamp, identifiers and the payload up to
      its first NUL, padded with zeros.  The two size fields do not travel. */
  function NormalForm(env: Envelope): Envelope {
    Envelope(env.metaData.(header := env.metaData.header.(payloadSize := 0, totalSize := 0)),
             Padded(CString(env.payload)))
  }

  /** What that means field by field, and byte by byte up to the first NUL. */
  lemma NormalFormKeeps(env: Envelope)
    ensures var m, r := env.metaData, NormalForm(env).metaData;
            && r.header.messageType == m.header.messageType && r.header.timestamp == m.header.timestamp
            && r.dataType == m.dataType && r.senderId == m.senderId && r.recepientId == m.recepientId
            && r.header.payloadSize == 0 && r.header.totalSize == 0
    ensures forall k :: 0 <= k < PAYLOAD_SIZE ==>
              NormalForm(env).payload[k] == if 0 in env.payload[..k] then 0 else env.payload[k]
  {
    var c := CString(env.payload);
    forall k | 0 <= k < PAYLOAD_SIZE
      ensures NormalForm(env).payload[k] == if 0 in env.payload[..k] then 0 else env.payload[k]
    {
      if k < |c| {
        forall j | 0 <= j < k ensures env.payload[..k][j] != 0 { assert c[j] in c; }
      } else if k > |c| {
        assert env.payload[..k][|c|] == 0;
      } else {
        forall j | 0 <= j < k ensures env.payload[..k][j] != 0 { assert c[j] in c; }
      }
    }
  }

  lemma NormalFormIdempotent(env: Envelope)
    ensures NormalForm(NormalForm(env)) == NormalForm(env)
  {
    CStringOfPadded(CString(env.payload));
  }

  /** The enumeration fields hold declared enumerators.  `uint8_t` admits other values. */
  predicate EnumsInRange(env: Envelope) {
    env.MessageType() <= ACK_MESSAGE && env.metaData.dataType <= FILE_MESSAGE
  }

  /** What the codec asks of an envelope: `set_payload` reads the payload as a C string. */
  predicate NulTerminated(env: Envelope) {
    0 in env.payload
  }

  /** The ACK envelope of tryReceiveEnvelope. */
  function AckEnvelope(t: UInt32): Envelope {
    EmptyEnvelope().WithMessageType(ACK_MESSAGE).WithTimestamp(t)
  }

  /** An ACK is already in the form that the wire preserves. */
  lemma AckEnvelopeIsNormal(t: UInt32)
    ensures NormalForm(AckEnvelope(t)) == AckEnvelope(t)
    ensures EnumsInRange(AckEnvelope(t)) && NulTerminated(AckEnvelope(t))
    ensures AckEnvelope(t).metaData == EnvelopeMeta(Header(0, 0, 2, t), 0, 0, 0)
    ensures forall k :: 0 <= k < PAYLOAD_SIZE ==> AckEnvelope(t).payload[k] == 0
  {
    var z := Zeros(PAYLOAD_SIZE);
    CStringUnique(z, []);
    assert Padded([]) == z;
    assert z[0] == 0;
  }
}
