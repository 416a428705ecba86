/**
  Conversion between the in-memory envelope and the protobuf record
  (common/message_processor/MessageProcessing.hpp).
*/
module MessageProcessing {
  import opened Wrappers
  import opened Envelopes
  import opened Protobuf

  /** A generated protobuf message, which its owner reuses from call to call. */
  class ProtoMessage {
    var record: ProtoEnvelope

    constructor ()
      ensures record == DEFAULT_ENVELOPE
    {
      record := DEFAULT_ENVELOPE;
    }
  }

  /** The record after an envelope was put into a record that held `stale`.  An enumeration value
      without an enumerator matches no case and leaves the stale one, and the two size fields are
      never touched. */
  function EnvToProto(env: Envelope, stale: ProtoEnvelope): ProtoEnvelope {
    var m := stale.metaData.GetOr(DEFAULT_META);
    var h := m.header.GetOr(DEFAULT_HEADER);
    ProtoEnvelope(
      Some(ProtoMeta(
             Some(ProtoHeader(h.payloadSize, h.totalSize,
                              if env.MessageType() <= ACK_MESSAGE then env.MessageType() else h.messageType,
                              env.Timestamp())),
             if env.metaData.dataType <= FILE_MESSAGE then env.metaData.dataType else m.dataType,
             env.metaData.senderId, env.metaData.recepientId)),
      CString(env.payload))
  }

  method PutEnvToProtoBuf(env: Envelope, proto: ProtoMessage)
    requires NulTerminated(env)
    modifies proto
    ensures proto.record == EnvToProto(env, old(proto.record))
  {
    var meta := proto.record.metaData.GetOr(DEFAULT_META);
    var header := meta.header.GetOr(DEFAULT_HEADER);
    if env.MessageType() == USER_MESSAGE || env.MessageType() == SERVICE_MESSAGE || env.MessageType() == ACK_MESSAGE {
      header := header.(messageType := env.MessageType());
    }
    header := header.(timestamp := env.Timestamp());
    if env.metaData.dataType == TEXT_MESSAGE || env.metaData.dataType == FILE_MESSAGE {
      meta := meta.(dataType := env.metaData.dataType);
    }
    meta := meta.(header := Some(header), senderId := env.metaData.senderId, recepientId := env.metaData.recepientId);
    proto.record := ProtoEnvelope(Some(meta), CString(env.payload));
  }

  /** The C string of the payload fits the field it is copied to.  The source copies unchecked. */
  predicate PayloadFits(e: ProtoEnvelope) {
    |CString(e.payload)| <= PAYLOAD_SIZE
  }

  function EnvFromProto(e: ProtoEnvelope): Envelope
    requires PayloadFits(e)
  {
    var m := e.metaData.GetOr(DEFAULT_META);
    var h := m.header.GetOr(DEFAULT_HEADER);
    Envelope(
      EnvelopeMeta(
        Header(0, 0,
               if h.messageType == 1 then SERVICE_MESSAGE else if h.messageType == 2 then ACK_MESSAGE else USER_MESSAGE,
               h.timestamp),
        if m.dataType == 1 then FILE_MESSAGE else TEXT_MESSAGE,
        m.senderId, m.recepientId),
      Padded(CString(e.payload)))
  }

  /** Whatever is read from a record is an envelope in normal form that the codec accepts. */
  lemma EnvFromProtoIsNormal(e: ProtoEnvelope)
    requires PayloadFits(e)
    ensures NormalForm(EnvFromProto(e)) == EnvFromProto(e) && EnumsInRange(EnvFromProto(e))
    ensures |CString(e.payload)| < PAYLOAD_SIZE ==> NulTerminated(EnvFromProto(e))
  {
    CStringOfPadded(CString(e.payload));
    if |CString(e.payload)| < PAYLOAD_SIZE {
      assert Padded(CString(e.payload))[|CString(e.payload)|] == 0;
    }
  }

  /** What is read from a record: its scalars, an unknown enumeration value as the first enumerator, and
      the payload up to its first NUL. */
  lemma EnvFromProtoReads(e: ProtoEnvelope)
    requires PayloadFits(e)
    ensures var m, r := e.metaData.GetOr(DEFAULT_META), EnvFromProto(e);
            var h := m.header.GetOr(DEFAULT_HEADER);
            && r.metaData.senderId == m.senderId && r.metaData.recepientId == m.recepientId
            && r.Timestamp() == h.timestamp
            && r.MessageType() == (if 0 <= h.messageType <= 2 then h.messageType else 0)
            && r.metaData.dataType == (if 0 <= m.dataType <= 1 then m.dataType else 0)
            && CString(r.payload) == CString(e.payload)
  {
    CStringOfPadded(CString(e.payload));
  }

  /** What was put shows through, and a value without an enumerator shows what the record held before. */
  lemma UndeclaredShowsStale(env: Envelope, stale: ProtoEnvelope)
    requires NulTerminated(env) && PayloadFits(stale)
    ensures var got, was := EnvToProto(env, stale), EnvFromProto(stale);
            && PayloadFits(got)
            && EnvFromProto(got).MessageType()
               == (if env.MessageType() <= 2 then env.MessageType() else was.MessageType())
            && EnvFromProto(got).metaData.dataType
               == (if env.metaData.dataType <= 1 then env.metaData.dataType else was.metaData.dataType)
            && EnvFromProto(got).Timestamp() == env.Timestamp()
  {
    CStringOfTerminated(env);
  }

  lemma CStringOfTerminated(env: Envelope)
    requires NulTerminated(env)
    ensures |CString(env.payload)| < PAYLOAD_SIZE
    ensures CString(CString(env.payload)) == CString(env.payload)
  {
    CStringUnique(CString(env.payload), CString(env.payload));
  }

  /** Reading back what was put gives the normal form, whatever the record held before, exactly when
      both enumeration fields are in range: another value lets a stale one through. */
  lemma RecordRoundTripIff(env: Envelope, stale: ProtoEnvelope)
    requires NulTerminated(env)
    ensures PayloadFits(EnvToProto(env, stale))
    ensures EnvFromProto(EnvToProto(env, stale)) == NormalForm(env) <==> EnumsInRange(env)
  {
    CStringOfTerminated(env);
  }

  // ------------------------------------------------------------------ encoded size

  /** A record whose size fields are unset and whose enumerations have enumerators.  Every record
      that only `PutEnvToProtoBuf` has written to is clean. */
  predicate Clean(e: ProtoEnvelope) {
    e.metaData.Some? ==>
      && 0 <= e.metaData.value.dataType <= 1
      && (e.metaData.value.header.Some? ==>
            && 0 <= e.metaData.value.header.value.messageType <= 2
            && e.metaData.value.header.value.payloadSize == 0
            && e.metaData.value.header.value.totalSize == 0)
  }

  lemma EnvToProtoKeepsClean(env: Envelope, stale: ProtoEnvelope)
    requires Clean(stale)
    ensures Clean(EnvToProto(env, stale))
  {
  }

  /** With unset size fields no envelope is encoded in more than 1014 bytes, so the transmission
      buffer of 1024 bytes always suffices and the error branch of putEnvToProtoBuf is dead. */
  lemma EncodedSizeBound(env: Envelope, stale: ProtoEnvelope)
    requires NulTerminated(env) && Clean(stale)
    ensures |Serialize(EnvToProto(env, stale))| <= 1014 < ENVELOPE_SIZE
  {
    var e := EnvToProto(env, stale);
    EnvelopeEncodedSize(e);
    MetaSizeBound(e.metaData.value);
    CStringOfTerminated(env);
    Pow128Values();
    VarintSize(MetaSize(e.metaData.value), 1);
    VarintSize(|e.payload|, 2);
  }

  lemma MetaSizeBound(m: ProtoMeta)
    requires Clean(ProtoEnvelope(Some(m), []))
    ensures MetaSize(m) <= 34
  {
    if m.header.Some? {
      var h := m.header.value;
      ScalarSizeBound(h.messageType);
      ScalarSizeBound(h.timestamp);
      VarintSize(HeaderSize(h), 1);
      Pow128Values();
    }
    ScalarSizeBound(m.dataType);
    ScalarSizeBound(m.senderId);
    ScalarSizeBound(m.recepientId);
  }

  /** The most expensive envelope: a file ACK with maximal numbers and 975 payload bytes. */
  function LargestEnvelope(): Envelope {
    Envelope(EnvelopeMeta(Header(0, 0, ACK_MESSAGE, 0xFFFF_FFFF), FILE_MESSAGE,
                          0xFFFF_FFFF_FFFF_FFFF, 0xFFFF_FFFF_FFFF_FFFF),
             seq(PAYLOAD_SIZE, i => if i < PAYLOAD_SIZE - 1 then 1 else 0))
  }

  lemma LargestPayload()
    ensures NulTerminated(LargestEnvelope())
    ensures |CString(LargestEnvelope().payload)| == PAYLOAD_SIZE - 1
  {
    var s := LargestEnvelope().payload;
    assert s[PAYLOAD_SIZE - 1] == 0;
    CStringUnique(s, s[..PAYLOAD_SIZE - 1]);
  }

  lemma LargestMetaSize(payloadSize: UInt64, totalSize: UInt64)
    ensures MetaSize(ProtoMeta(Some(ProtoHeader(payloadSize, totalSize, 2, 0xFFFF_FFFF)), 1,
                               0xFFFF_FFFF_FFFF_FFFF, 0xFFFF_FFFF_FFFF_FFFF))
         == 34 + ScalarSize(payloadSize) + ScalarSize(totalSize)
  {
    var h := ProtoHeader(payloadSize, totalSize, 2, 0xFFFF_FFFF);
    ScalarSizeBound(payloadSize);
    ScalarSizeBound(totalSize);
    ScalarSizeBound(0xFFFF_FFFF);
    ScalarSizeBound(0xFFFF_FFFF_FFFF_FFFF);
    assert ScalarSize(2) == 2 && ScalarSize(1) == 2;
    Pow128Values();
    VarintSize(HeaderSize(h), 1);
  }

  /** The bound is attained, and it rests on the size fields being unset: whatever they hold comes
      on top, up to 22 bytes, so with both of them large the buffer would overflow. */
  lemma EncodedSizeIsTight(payloadSize: UInt64, totalSize: UInt64)
    ensures var stale := ProtoEnvelope(Some(ProtoMeta(Some(ProtoHeader(payloadSize, totalSize, 0, 0)), 0, 0, 0)), []);
            |Serialize(EnvToProto(LargestEnvelope(), stale))| == 1014 + ScalarSize(payloadSize) + ScalarSize(totalSize)
    ensures ScalarSize(payloadSize) <= 11 && ScalarSize(totalSize) <= 11
  {
    var stale := ProtoEnvelope(Some(ProtoMeta(Some(ProtoHeader(payloadSize, totalSize, 0, 0)), 0, 0, 0)), []);
    var e := EnvToProto(LargestEnvelope(), stale);
    LargestPayload();
    LargestMetaSize(payloadSize, totalSize);
    ScalarSizeBound(payloadSize);
    ScalarSizeBound(totalSize);
    EnvelopeEncodedSize(e);
    Pow128Values();
    VarintSize(MetaSize(e.metaData.value), 1);
    VarintSize(|e.payload|, 1);
    VarintSize(|e.payload|, 2);
  }

  // ------------------------------------------------------------------ time stamps

  /** createTimeStamp: the microseconds of the clock, narrowed to 32 bits. */
  function CreateTimeStamp(microseconds: nat): UInt32 {
    microseconds % 0x1_0000_0000
  }

  /** Two clock readings get the same stamp exactly when they are a multiple of 2^32 us apart; a reading
      of 32 bits is its own stamp. */
  lemma StampsCollideIff(t: nat, u: nat)
    requires t <= u
    ensures CreateTimeStamp(t) == CreateTimeStamp(u) <==> (u - t) % 0x1_0000_0000 == 0
    ensures t < 0x1_0000_0000 ==> CreateTimeStamp(t) == t
  {
  }
}
