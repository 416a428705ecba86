/**
  The Protocol Buffers wire format, after the Encoding specification of Protocol Buffers
  (sections "Base 128 Varints", "Message Structure", "Length-Delimited Records", "Submessages" and
  "Last One Wins"), instantiated with the schema of common/interfaces/proto_defines.proto.

  A message is parsed in two layers.  `ParseFields` splits any byte string into its fields, in
  whatever order they come and whether the schema knows them or not; the `Merge` functions then
  fold the fields into a record.
*/
module Protobuf {
  import opened Wrappers
  import opened Envelopes

  // ------------------------------------------------------------------ varints

  function Varint(n: nat): (s: Bytes)
    ensures |s| > 0
  {
    if n < 128 then [n] else [128 + n % 128] + Varint(n / 128)
  }

  /** Reads a varint of at most `limit` bytes: its value and what follows it. */
  function ReadVarint(s: Bytes, limit: nat): (r: Option<(nat, Bytes)>)
    ensures r.Some? ==> |r.value.1| < |s|
  {
    if limit == 0 || s == [] then None
    else if s[0] < 128 then Some((s[0], s[1..]))
    else match ReadVarint(s[1..], limit - 1)
         case None => None
         case Some((v, rest)) => Some(((s[0] - 128) + 128 * v, rest))
  }

  lemma {:induction false} VarintRoundTrip(n: nat, rest: Bytes, limit: nat)
    requires |Varint(n)| <= limit
    ensures ReadVarint(Varint(n) + rest, limit) == Some((n, rest))
  {
    if n < 128 {
      assert ([n] + rest)[1..] == rest;
    } else {
      VarintRoundTrip(n / 128, rest, limit - 1);
      var s := Varint(n) + rest;
      assert s[1..] == Varint(n / 128) + rest;
    }
  }

  function Pow128(k: nat): nat {
    if k == 0 then 1 else 128 * Pow128(k - 1)
  }

  /** k bytes are enough exactly for the values below 128^k. */
  lemma {:induction false} VarintSize(n: nat, k: nat)
    requires k > 0
    ensures |Varint(n)| <= k <==> n < Pow128(k)
  {
    if n < 128 {
      assert Pow128(k) >= 128 by { Pow128Positive(k - 1); }
    } else if k == 1 {
      assert Pow128(1) == 128 * Pow128(0);
    } else {
      VarintSize(n / 128, k - 1);
      assert n < 128 * Pow128(k - 1) <==> n / 128 < Pow128(k - 1);
    }
  }

  lemma {:induction false} Pow128Positive(k: nat)
    ensures Pow128(k) >= 1
  {
    if k > 0 { Pow128Positive(k - 1); }
  }

  lemma Pow128Values()
    ensures Pow128(1) == 128 && Pow128(2) == 0x4000 && Pow128(3) == 0x20_0000
    ensures Pow128(4) == 0x1000_0000 && Pow128(5) == 0x8_0000_0000
    ensures Pow128(9) == 0x8000_0000_0000_0000 && Pow128(10) == 0x40_0000_0000_0000_0000
  {
    assert Pow128(2) == 128 * Pow128(1);
    assert Pow128(4) == 128 * Pow128(3);
    assert Pow128(6) == 128 * Pow128(5);
    assert Pow128(8) == 128 * Pow128(7);
    assert Pow128(10) == 128 * Pow128(9);
  }

  // ------------------------------------------------------------------ fields

  /** One field as it stands on the wire, by wire type 0, 1, 2 and 5. */
  datatype Field =
    | VarintField(number: nat, v: nat)
    | Fixed64Field(number: nat, data: Bytes)
    | LengthField(number: nat, data: Bytes)
    | Fixed32Field(number: nat, data: Bytes)

  predicate ValidField(f: Field) {
    && 0 < f.number < 0x2000_0000
    && match f
       case VarintField(_, v) => v < 0x1_0000_0000_0000_0000
       case Fixed64Field(_, data) => |data| == 8
       case LengthField(_, data) => |data| < 0x8000_0000
       case Fixed32Field(_, data) => |data| == 4
  }

  function EncodeField(f: Field): (s: Bytes)
    ensures |s| > 0
  {
    match f
    case VarintField(number, v) => Varint(8 * number) + Varint(v)
    case Fixed64Field(number, data) => Varint(8 * number + 1) + data
    case LengthField(number, data) => Varint(8 * number + 2) + Varint(|data|) + data
    case Fixed32Field(number, data) => Varint(8 * number + 5) + data
  }

  function EncodeFields(fs: seq<Field>): Bytes {
    if fs == [] then [] else EncodeField(fs[0]) + EncodeFields(fs[1..])
  }

  /** Reads a tag and the value it announces.  A field number 0, a truncated value and the
      deprecated group types are errors. */
  function ReadField(s: Bytes): (r: Option<(Field, Bytes)>)
    ensures r.Some? ==> |r.value.1| < |s|
  {
    match ReadVarint(s, 5)
    case None => None
    case Some((key, rest)) =>
      var tag := key % 0x1_0000_0000;
      var number := tag / 8;
      if number == 0 then None
      else if tag % 8 == 0 then
        match ReadVarint(rest, 10)
        case None => None
        case Some((v, after)) => Some((VarintField(number, v % 0x1_0000_0000_0000_0000), after))
      else if tag % 8 == 1 then
        if |rest| < 8 then None else Some((Fixed64Field(number, rest[..8]), rest[8..]))
      else if tag % 8 == 2 then
        match ReadVarint(rest, 5)
        case None => None
        case Some((n, after)) =>
          if n > |after| then None else Some((LengthField(number, after[..n]), after[n..]))
      else if tag % 8 == 5 then
        if |rest| < 4 then None else Some((Fixed32Field(number, rest[..4]), rest[4..]))
      else None
  }

  /** The fields up to the first error, and whether the whole string was read. */
  function ParseFields(s: Bytes): (seq<Field>, bool)
    decreases |s|
  {
    if s == [] then ([], true)
    else match ReadField(s)
         case None => ([], false)
         case Some((f, rest)) =>
           var (fs, ok) := ParseFields(rest);
           ([f] + fs, ok)
  }

  lemma TagRoundTrip(number: nat, wireType: nat, rest: Bytes)
    requires 0 < number < 0x2000_0000 && wireType < 8
    ensures ReadVarint(Varint(8 * number + wireType) + rest, 5) == Some((8 * number + wireType, rest))
  {
    Pow128Values();
    VarintSize(8 * number + wireType, 5);
    VarintRoundTrip(8 * number + wireType, rest, 5);
  }

  /** What ReadField makes of a valid tag, by wire type. */
  lemma ReadFieldByTag(s: Bytes, number: nat, wireType: nat, body: Bytes)
    requires 0 < number < 0x2000_0000 && wireType in {0, 1, 2, 5}
    requires ReadVarint(s, 5) == Some((8 * number + wireType, body))
    ensures wireType == 0 && ReadVarint(body, 10).Some? ==>
              var (v, after) := ReadVarint(body, 10).value;
              ReadField(s) == Some((VarintField(number, v % 0x1_0000_0000_0000_0000), after))
    ensures wireType == 1 && |body| >= 8 ==> ReadField(s) == Some((Fixed64Field(number, body[..8]), body[8..]))
    ensures wireType == 2 && ReadVarint(body, 5).Some? ==>
              var (n, after) := ReadVarint(body, 5).value;
              n <= |after| ==> ReadField(s) == Some((LengthField(number, after[..n]), after[n..]))
    ensures wireType == 5 && |body| >= 4 ==> ReadField(s) == Some((Fixed32Field(number, body[..4]), body[4..]))
  {
    TagParts(number, wireType);
  }

  lemma TagParts(number: nat, wireType: nat)
    requires number < 0x2000_0000 && wireType < 8
    ensures (8 * number + wireType) % 0x1_0000_0000 == 8 * number + wireType
    ensures (8 * number + wireType) / 8 == number && (8 * number + wireType) % 8 == wireType
  {
  }

  lemma VarintFieldRoundTrip(number: nat, v: nat, rest: Bytes)
    requires ValidField(VarintField(number, v))
    ensures ReadField(EncodeField(VarintField(number, v)) + rest) == Some((VarintField(number, v), rest))
  {
    var body := Varint(v) + rest;
    assert EncodeField(VarintField(number, v)) + rest == Varint(8 * number) + body;
    TagRoundTrip(number, 0, body);
    Pow128Values();
    VarintSize(v, 10);
    VarintRoundTrip(v, rest, 10);
    ReadFieldByTag(Varint(8 * number) + body, number, 0, body);
  }

  lemma LengthFieldRoundTrip(number: nat, data: Bytes, rest: Bytes)
    requires ValidField(LengthField(number, data))
    ensures ReadField(EncodeField(LengthField(number, data)) + rest) == Some((LengthField(number, data), rest))
  {
    var body := Varint(|data|) + (data + rest);
    assert EncodeField(LengthField(number, data)) + rest == Varint(8 * number + 2) + body;
    TagRoundTrip(number, 2, body);
    Pow128Values();
    VarintSize(|data|, 5);
    VarintRoundTrip(|data|, data + rest, 5);
    ReadFieldByTag(Varint(8 * number + 2) + body, number, 2, body);
    assert (data + rest)[..|data|] == data && (data + rest)[|data|..] == rest;
  }

  lemma Fixed64RoundTrip(number: nat, data: Bytes, rest: Bytes)
    requires ValidField(Fixed64Field(number, data))
    ensures ReadField(EncodeField(Fixed64Field(number, data)) + rest) == Some((Fixed64Field(number, data), rest))
  {
    assert EncodeField(Fixed64Field(number, data)) + rest == Varint(8 * number + 1) + (data + rest);
    TagRoundTrip(number, 1, data + rest);
    ReadFieldByTag(Varint(8 * number + 1) + (data + rest), number, 1, data + rest);
    assert (data + rest)[..8] == data && (data + rest)[8..] == rest;
  }

  lemma Fixed32RoundTrip(number: nat, data: Bytes, rest: Bytes)
    requires ValidField(Fixed32Field(number, data))
    ensures ReadField(EncodeField(Fixed32Field(number, data)) + rest) == Some((Fixed32Field(number, data), rest))
  {
    assert EncodeField(Fixed32Field(number, data)) + rest == Varint(8 * number + 5) + (data + rest);
    TagRoundTrip(number, 5, data + rest);
    ReadFieldByTag(Varint(8 * number + 5) + (data + rest), number, 5, data + rest);
    assert (data + rest)[..4] == data && (data + rest)[4..] == rest;
  }

  lemma FieldRoundTrip(f: Field, rest: Bytes)
    requires ValidField(f)
    ensures ReadField(EncodeField(f) + rest) == Some((f, rest))
  {
    match f {
      case VarintField(number, v) => VarintFieldRoundTrip(number, v, rest);
      case LengthField(number, data) => LengthFieldRoundTrip(number, data, rest);
      case Fixed64Field(number, data) => Fixed64RoundTrip(number, data, rest);
      case Fixed32Field(number, data) => Fixed32RoundTrip(number, data, rest);
    }
  }

  /** Every sequence of valid fields is read back from its encoding. */
  lemma {:induction false} FieldsRoundTrip(fs: seq<Field>)
    requires forall f :: f in fs ==> ValidField(f)
    ensures ParseFields(EncodeFields(fs)) == (fs, true)
  {
    if fs != [] {
      FieldRoundTrip(fs[0], EncodeFields(fs[1..]));
      FieldsRoundTrip(fs[1..]);
      assert [fs[0]] + fs[1..] == fs;
    }
  }

  // ------------------------------------------------------------------ records

  /** The generated message classes.  Enumerations are open: the parser keeps any int32. */
  type Int32 = x: int | -0x8000_0000 <= x < 0x8000_0000

  datatype ProtoHeader =
    ProtoHeader(payloadSize: UInt64, totalSize: UInt64, messageType: Int32, timestamp: UInt32)
  datatype ProtoMeta =
    ProtoMeta(header: Option<ProtoHeader>, dataType: Int32, senderId: UInt64, recepientId: UInt64)
  datatype ProtoEnvelope =
    ProtoEnvelope(metaData: Option<ProtoMeta>, payload: Bytes)

  const DEFAULT_HEADER := ProtoHeader(0, 0, 0, 0)
  const DEFAULT_META := ProtoMeta(None, 0, 0, 0)
  const DEFAULT_ENVELOPE := ProtoEnvelope(None, [])

  /** Negative int32 values travel as their 64-bit two's complement. */
  function Int32ToWire(v: Int32): UInt64 {
    if v < 0 then v + 0x1_0000_0000_0000_0000 else v
  }

  function Int32FromWire(w: nat): Int32 {
    var low := w % 0x1_0000_0000;
    if low < 0x8000_0000 then low else low - 0x1_0000_0000
  }

  lemma Int32RoundTrip(v: Int32)
    ensures Int32FromWire(Int32ToWire(v)) == v
  {
    if v < 0 {
      assert Int32ToWire(v) == (v + 0x1_0000_0000) + 0xFFFF_FFFF * 0x1_0000_0000;
    }
  }

  /** A proto3 scalar is written unless it has its default value. */
  function Scalar(number: nat, v: nat): seq<Field> {
    if v == 0 then [] else [VarintField(number, v)]
  }

  function HeaderFields(h: ProtoHeader): seq<Field> {
    Scalar(1, h.payloadSize) + Scalar(2, h.totalSize)
    + Scalar(3, Int32ToWire(h.messageType)) + Scalar(4, h.timestamp)
  }

  /** A submessage is written exactly when it is present, even if it is empty. */
  function MetaFields(m: ProtoMeta): seq<Field> {
    (match m.header case None => [] case Some(h) => [LengthField(1, EncodeFields(HeaderFields(h)))])
    + Scalar(2, Int32ToWire(m.dataType)) + Scalar(3, m.senderId) + Scalar(4, m.recepientId)
  }

  function EnvelopeFields(e: ProtoEnvelope): seq<Field> {
    (match e.metaData case None => [] case Some(m) => [LengthField(1, EncodeFields(MetaFields(m)))])
    + (if e.payload == [] then [] else [LengthField(2, e.payload)])
  }

  /** `SerializeToArray`; its length is `ByteSizeLong`. */
  function Serialize(e: ProtoEnvelope): Bytes {
    EncodeFields(EnvelopeFields(e))
  }

  function MergeHeaderField(h: ProtoHeader, f: Field): ProtoHeader {
    match f
    case VarintField(number, v) =>
      if number == 1 then h.(payloadSize := v % 0x1_0000_0000_0000_0000)
      else if number == 2 then h.(totalSize := v % 0x1_0000_0000_0000_0000)
      else if number == 3 then h.(messageType := Int32FromWire(v))
      else if number == 4 then h.(timestamp := v % 0x1_0000_0000)
      else h
    case _ => h
  }

  /** The last occurrence of a scalar wins; unknown fields and wrong wire types are skipped. */
  function MergeHeader(h: ProtoHeader, fs: seq<Field>): ProtoHeader
    decreases fs
  {
    if fs == [] then h else MergeHeader(MergeHeaderField(h, fs[0]), fs[1..])
  }

  /** Two occurrences of a submessage are merged.  The flag says that no error was met. */
  function MergeMeta(m: ProtoMeta, fs: seq<Field>): (ProtoMeta, bool)
    decreases fs
  {
    if fs == [] then (m, true)
    else match fs[0]
         case LengthField(number, data) =>
           if number == 1 then
             var (sub, ok) := ParseFields(data);
             var m' := m.(header := Some(MergeHeader(m.header.GetOr(DEFAULT_HEADER), sub)));
             if ok then MergeMeta(m', fs[1..]) else (m', false)
           else MergeMeta(m, fs[1..])
         case VarintField(number, v) =>
           MergeMeta(if number == 2 then m.(dataType := Int32FromWire(v))
                     else if number == 3 then m.(senderId := v % 0x1_0000_0000_0000_0000)
                     else if number == 4 then m.(recepientId := v % 0x1_0000_0000_0000_0000)
                     else m, fs[1..])
         case _ => MergeMeta(m, fs[1..])
  }

  function MergeEnvelope(e: ProtoEnvelope, fs: seq<Field>): (ProtoEnvelope, bool)
    decreases fs
  {
    if fs == [] then (e, true)
    else match fs[0]
         case LengthField(number, data) =>
           if number == 1 then
             var (sub, parsed) := ParseFields(data);
             var (m, merged) := MergeMeta(e.metaData.GetOr(DEFAULT_META), sub);
             var e' := e.(metaData := Some(m));
             if parsed && merged then MergeEnvelope(e', fs[1..]) else (e', false)
           else MergeEnvelope(if number == 2 then e.(payload := data) else e, fs[1..])
         case _ => MergeEnvelope(e, fs[1..])
  }

  /** `ParseFromArray`: it clears the message, then merges what it can read; the flag is its
      result.  On an error the message keeps the fields that precede the error. */
  function Parse(s: Bytes): (ProtoEnvelope, bool) {
    var (fs, parsed) := ParseFields(s);
    var (e, merged) := MergeEnvelope(DEFAULT_ENVELOPE, fs);
    (e, parsed && merged)
  }

  // ------------------------------------------------------------------ records round trip

  lemma MergeHeaderScalar(h: ProtoHeader, number: nat, v: nat, rest: seq<Field>)
    ensures MergeHeader(h, Scalar(number, v) + rest)
         == if v == 0 then MergeHeader(h, rest) else MergeHeader(MergeHeaderField(h, VarintField(number, v)), rest)
  {
    if v == 0 {
      assert Scalar(number, v) + rest == rest;
    } else {
      assert (Scalar(number, v) + rest)[1..] == rest;
    }
  }

  lemma HeaderMerges(h: ProtoHeader)
    ensures MergeHeader(DEFAULT_HEADER, HeaderFields(h)) == h
  {
    var h0 := DEFAULT_HEADER;
    var t4 := Scalar(4, h.timestamp) + [];
    var t3 := Scalar(3, Int32ToWire(h.messageType)) + t4;
    var t2 := Scalar(2, h.totalSize) + t3;
    assert HeaderFields(h) == Scalar(1, h.payloadSize) + t2;
    MergeHeaderScalar(h0, 1, h.payloadSize, t2);
    var h1 := h0.(payloadSize := h.payloadSize);
    MergeHeaderScalar(h1, 2, h.totalSize, t3);
    var h2 := h1.(totalSize := h.totalSize);
    MergeHeaderScalar(h2, 3, Int32ToWire(h.messageType), t4);
    Int32RoundTrip(h.messageType);
    var h3 := h2.(messageType := h.messageType);
    MergeHeaderScalar(h3, 4, h.timestamp, []);
  }

  lemma MergeMetaScalar(m: ProtoMeta, number: nat, v: nat, rest: seq<Field>)
    requires number in {2, 3, 4}
    ensures MergeMeta(m, Scalar(number, v) + rest)
         == MergeMeta(if v == 0 then m
                      else if number == 2 then m.(dataType := Int32FromWire(v))
                      else if number == 3 then m.(senderId := v % 0x1_0000_0000_0000_0000)
                      else m.(recepientId := v % 0x1_0000_0000_0000_0000), rest)
  {
    if v == 0 {
      assert Scalar(number, v) + rest == rest;
    } else {
      assert (Scalar(number, v) + rest)[1..] == rest;
    }
  }

  lemma MetaScalarsMerge(m0: ProtoMeta, m: ProtoMeta)
    requires m0 == DEFAULT_META.(header := m.header)
    ensures MergeMeta(m0, Scalar(2, Int32ToWire(m.dataType)) + Scalar(3, m.senderId) + Scalar(4, m.recepientId))
         == (m, true)
  {
    var t4 := Scalar(4, m.recepientId) + [];
    var t3 := Scalar(3, m.senderId) + t4;
    var t2 := Scalar(2, Int32ToWire(m.dataType)) + t3;
    assert t2 == Scalar(2, Int32ToWire(m.dataType)) + Scalar(3, m.senderId) + Scalar(4, m.recepientId);
    MergeMetaScalar(m0, 2, Int32ToWire(m.dataType), t3);
    Int32RoundTrip(m.dataType);
    var m1 := m0.(dataType := m.dataType);
    MergeMetaScalar(m1, 3, m.senderId, t4);
    var m2 := m1.(senderId := m.senderId);
    MergeMetaScalar(m2, 4, m.recepientId, []);
  }

  lemma HeaderFieldsRoundTrip(h: ProtoHeader)
    ensures ParseFields(EncodeFields(HeaderFields(h))) == (HeaderFields(h), true)
  {
    ScalarValid(1, h.payloadSize);
    ScalarValid(2, h.totalSize);
    ScalarValid(3, Int32ToWire(h.messageType));
    ScalarValid(4, h.timestamp);
    FieldsRoundTrip(HeaderFields(h));
  }

  lemma MetaMerges(m: ProtoMeta)
    ensures MergeMeta(DEFAULT_META, MetaFields(m)) == (m, true)
  {
    var scalars := Scalar(2, Int32ToWire(m.dataType)) + Scalar(3, m.senderId) + Scalar(4, m.recepientId);
    MetaScalarsMerge(DEFAULT_META.(header := m.header), m);
    match m.header {
      case None =>
        assert MetaFields(m) == scalars;
      case Some(h) =>
        assert MetaFields(m)[0] == LengthField(1, EncodeFields(HeaderFields(h)));
        assert MetaFields(m)[1..] == scalars;
        HeaderFieldsRoundTrip(h);
        HeaderMerges(h);
    }
  }

  // ------------------------------------------------------------------ sizes

  /** The encoded size of a scalar field with a one-byte tag. */
  function ScalarSize(v: nat): nat {
    if v == 0 then 0 else 1 + |Varint(v)|
  }

  lemma {:induction false} EncodeFieldsConcat(a: seq<Field>, b: seq<Field>)
    ensures EncodeFields(a + b) == EncodeFields(a) + EncodeFields(b)
  {
    if a == [] {
      assert a + b == b;
    } else {
      assert (a + b)[1..] == a[1..] + b;
      EncodeFieldsConcat(a[1..], b);
    }
  }

  lemma ScalarEncodedSize(number: nat, v: nat)
    requires 0 < number < 16
    ensures |EncodeFields(Scalar(number, v))| == ScalarSize(v)
  {
    if v != 0 {
      assert EncodeFields(Scalar(number, v)) == EncodeField(VarintField(number, v)) + EncodeFields([]);
    }
  }

  lemma LengthFieldEncodedSize(number: nat, data: Bytes)
    requires 0 < number < 15
    ensures |EncodeFields([LengthField(number, data)])| == 1 + |Varint(|data|)| + |data|
  {
    assert EncodeFields([LengthField(number, data)]) == EncodeField(LengthField(number, data)) + EncodeFields([]);
  }

  function HeaderSize(h: ProtoHeader): nat {
    ScalarSize(h.payloadSize) + ScalarSize(h.totalSize)
    + ScalarSize(Int32ToWire(h.messageType)) + ScalarSize(h.timestamp)
  }

  lemma HeaderEncodedSize(h: ProtoHeader)
    ensures |EncodeFields(HeaderFields(h))| == HeaderSize(h)
  {
    var a, b := Scalar(1, h.payloadSize), Scalar(2, h.totalSize);
    var c, d := Scalar(3, Int32ToWire(h.messageType)), Scalar(4, h.timestamp);
    EncodeFieldsConcat(a, b);
    EncodeFieldsConcat(a + b, c);
    EncodeFieldsConcat(a + b + c, d);
    ScalarEncodedSize(1, h.payloadSize);
    ScalarEncodedSize(2, h.totalSize);
    ScalarEncodedSize(3, Int32ToWire(h.messageType));
    ScalarEncodedSize(4, h.timestamp);
  }

  function MetaSize(m: ProtoMeta): nat {
    (match m.header case None => 0 case Some(h) => 1 + |Varint(HeaderSize(h))| + HeaderSize(h))
    + ScalarSize(Int32ToWire(m.dataType)) + ScalarSize(m.senderId) + ScalarSize(m.recepientId)
  }

  lemma MetaEncodedSize(m: ProtoMeta)
    ensures |EncodeFields(MetaFields(m))| == MetaSize(m)
  {
    var a := match m.header case None => [] case Some(h) => [LengthField(1, EncodeFields(HeaderFields(h)))];
    var b, c, d := Scalar(2, Int32ToWire(m.dataType)), Scalar(3, m.senderId), Scalar(4, m.recepientId);
    EncodeFieldsConcat(a, b);
    EncodeFieldsConcat(a + b, c);
    EncodeFieldsConcat(a + b + c, d);
    ScalarEncodedSize(2, Int32ToWire(m.dataType));
    ScalarEncodedSize(3, m.senderId);
    ScalarEncodedSize(4, m.recepientId);
    if m.header.Some? {
      HeaderEncodedSize(m.header.value);
      LengthFieldEncodedSize(1, EncodeFields(HeaderFields(m.header.value)));
    }
  }

  function EnvelopeSize(e: ProtoEnvelope): nat {
    (match e.metaData case None => 0 case Some(m) => 1 + |Varint(MetaSize(m))| + MetaSize(m))
    + (if e.payload == [] then 0 else 1 + |Varint(|e.payload|)| + |e.payload|)
  }

  lemma EnvelopeEncodedSize(e: ProtoEnvelope)
    ensures |Serialize(e)| == EnvelopeSize(e)
  {
    var a := match e.metaData case None => [] case Some(m) => [LengthField(1, EncodeFields(MetaFields(m)))];
    var b := if e.payload == [] then [] else [LengthField(2, e.payload)];
    EncodeFieldsConcat(a, b);
    if e.metaData.Some? {
      MetaEncodedSize(e.metaData.value);
      LengthFieldEncodedSize(1, EncodeFields(MetaFields(e.metaData.value)));
    }
    if e.payload != [] {
      LengthFieldEncodedSize(2, e.payload);
    }
  }

  lemma ScalarSizeBound(v: UInt64)
    ensures ScalarSize(v) <= 11
    ensures v < 0x1_0000_0000 ==> ScalarSize(v) <= 6
    ensures v < 128 ==> ScalarSize(v) <= 2
    ensures v >= 0x8000_0000_0000_0000 ==> ScalarSize(v) == 11
    ensures 0x1000_0000 <= v < 0x1_0000_0000 ==> ScalarSize(v) == 6
  {
    Pow128Values();
    VarintSize(v, 10);
    VarintSize(v, 9);
    VarintSize(v, 5);
    VarintSize(v, 4);
    VarintSize(v, 1);
  }

  /** The header and meta records are small whatever they hold, so their length prefixes are valid
      and one byte long. */
  lemma SubmessageSizeBounds(m: ProtoMeta)
    ensures m.header.Some? ==> HeaderSize(m.header.value) <= 39
    ensures MetaSize(m) <= 74
  {
    if m.header.Some? {
      var h := m.header.value;
      ScalarSizeBound(h.payloadSize);
      ScalarSizeBound(h.totalSize);
      ScalarSizeBound(Int32ToWire(h.messageType));
      ScalarSizeBound(h.timestamp);
    }
    ScalarSizeBound(Int32ToWire(m.dataType));
    ScalarSizeBound(m.senderId);
    ScalarSizeBound(m.recepientId);
  }

  lemma ScalarValid(number: nat, v: UInt64)
    requires 0 < number < 16
    ensures forall f :: f in Scalar(number, v) ==> ValidField(f)
  {
  }

  lemma HeaderSubmessageSmall(m: ProtoMeta)
    ensures m.header.Some? ==> |EncodeFields(HeaderFields(m.header.value))| < 0x8000_0000
    ensures |EncodeFields(MetaFields(m))| < 0x8000_0000
  {
    SubmessageSizeBounds(m);
    MetaEncodedSize(m);
    if m.header.Some? { HeaderEncodedSize(m.header.value); }
  }

  lemma MetaFieldsValid(m: ProtoMeta)
    ensures forall f :: f in MetaFields(m) ==> ValidField(f)
  {
    HeaderSubmessageSmall(m);
    ScalarValid(2, Int32ToWire(m.dataType));
    ScalarValid(3, m.senderId);
    ScalarValid(4, m.recepientId);
    var header := match m.header case None => [] case Some(h) => [LengthField(1, EncodeFields(HeaderFields(h)))];
    assert forall f :: f in header ==> ValidField(f);
  }

  lemma MetaFieldsRoundTrip(m: ProtoMeta)
    ensures ParseFields(EncodeFields(MetaFields(m))) == (MetaFields(m), true)
  {
    MetaFieldsValid(m);
    FieldsRoundTrip(MetaFields(m));
  }

  lemma EnvelopeMerges(e: ProtoEnvelope)
    ensures MergeEnvelope(DEFAULT_ENVELOPE, EnvelopeFields(e)) == (e, true)
  {
    var fs := EnvelopeFields(e);
    var payload := if e.payload == [] then [] else [LengthField(2, e.payload)];
    var e1 := DEFAULT_ENVELOPE.(metaData := e.metaData);
    assert MergeEnvelope(e1, payload) == (e, true);
    match e.metaData {
      case None =>
        assert fs == payload;
      case Some(m) =>
        MetaFieldsRoundTrip(m);
        MetaMerges(m);
        assert fs[0] == LengthField(1, EncodeFields(MetaFields(m))) && fs[1..] == payload;
    }
  }

  /** Decoding inverts encoding on every record of the schema, whatever its scalars, whether its
      submessages are present, and for every payload below the 2 GiB limit of the format. */
  lemma SerializeRoundTrip(e: ProtoEnvelope)
    requires |e.payload| < 0x8000_0000
    ensures Parse(Serialize(e)) == (e, true)
  {
    if e.metaData.Some? { HeaderSubmessageSmall(e.metaData.value); }
    FieldsRoundTrip(EnvelopeFields(e));
    EnvelopeMerges(e);
  }

  // ------------------------------------------------------------------ the schema on the wire

  /** The examples of the Encoding specification: field 1 with the varint 150, and field 2 with the
      string "testing". */
  lemma EncodingExamples()
    ensures EncodeField(VarintField(1, 150)) == [0x08, 0x96, 0x01]
    ensures EncodeField(LengthField(2, [0x74, 0x65, 0x73, 0x74, 0x69, 0x6e, 0x67]))
         == [0x12, 0x07, 0x74, 0x65, 0x73, 0x74, 0x69, 0x6e, 0x67]
  {
    assert Varint(150) == [150] + Varint(1);
  }

  predicate Ascending(fs: seq<Field>) {
    forall i, j :: 0 <= i < j < |fs| ==> fs[i].number < fs[j].number
  }

  /** The header's fields have the schema's numbers and come in their order; a field is written exactly
      when it does not have its default value. */
  lemma HeaderOnTheWire(h: ProtoHeader)
    ensures Ascending(HeaderFields(h))
    ensures forall f :: f in HeaderFields(h) <==>
              && f.VarintField? && f.v != 0
              && ((f.number == 1 && f.v == h.payloadSize) || (f.number == 2 && f.v == h.totalSize)
                  || (f.number == 3 && f.v == Int32ToWire(h.messageType)) || (f.number == 4 && f.v == h.timestamp))
  {
  }

  lemma MetaOnTheWire(m: ProtoMeta)
    ensures Ascending(MetaFields(m))
    ensures forall f :: f in MetaFields(m) <==>
              if f.VarintField? then
                && f.v != 0
                && ((f.number == 2 && f.v == Int32ToWire(m.dataType)) || (f.number == 3 && f.v == m.senderId)
                    || (f.number == 4 && f.v == m.recepientId))
              else m.header.Some? && f == LengthField(1, EncodeFields(HeaderFields(m.header.value)))
  {
  }

  lemma EnvelopeOnTheWire(e: ProtoEnvelope)
    ensures Ascending(EnvelopeFields(e))
    ensures forall f :: f in EnvelopeFields(e) <==>
              || (e.metaData.Some? && f == LengthField(1, EncodeFields(MetaFields(e.metaData.value))))
              || (e.payload != [] && f == LengthField(2, e.payload))
  {
  }

  // ------------------------------------------------------------------ last one wins

  /** The value of the last varint field with this number. */
  function LastVarint(fs: seq<Field>, number: nat): Option<nat> {
    if fs == [] then None
    else match LastVarint(fs[1..], number)
         case Some(v) => Some(v)
         case None => if fs[0].VarintField? && fs[0].number == number then Some(fs[0].v) else None
  }

  function LastBytes(fs: seq<Field>, number: nat): Option<Bytes> {
    if fs == [] then None
    else match LastBytes(fs[1..], number)
         case Some(data) => Some(data)
         case None => if fs[0].LengthField? && fs[0].number == number then Some(fs[0].data) else None
  }

  function Low64(v: nat): UInt64 { v % 0x1_0000_0000_0000_0000 }

  function Low32(v: nat): UInt32 { v % 0x1_0000_0000 }

  /** Of each scalar the last occurrence counts, cut to its width; every other field is skipped. */
  lemma {:induction false} LastScalarWins(h: ProtoHeader, fs: seq<Field>)
    ensures var r := MergeHeader(h, fs);
            && r.payloadSize == (match LastVarint(fs, 1) case Some(v) => Low64(v) case None => h.payloadSize)
            && r.totalSize == (match LastVarint(fs, 2) case Some(v) => Low64(v) case None => h.totalSize)
            && r.messageType == (match LastVarint(fs, 3) case Some(v) => Int32FromWire(v) case None => h.messageType)
            && r.timestamp == (match LastVarint(fs, 4) case Some(v) => Low32(v) case None => h.timestamp)
    decreases fs
  {
    if fs != [] { LastScalarWins(MergeHeaderField(h, fs[0]), fs[1..]); }
  }

  /** All submessages with number 1, parsed one after the other. */
  function SubFields(fs: seq<Field>): seq<Field> {
    if fs == [] then []
    else (if fs[0].LengthField? && fs[0].number == 1 then ParseFields(fs[0].data).0 else []) + SubFields(fs[1..])
  }

  lemma {:induction false} MergeHeaderConcat(h: ProtoHeader, a: seq<Field>, b: seq<Field>)
    ensures MergeHeader(h, a + b) == MergeHeader(MergeHeader(h, a), b)
    decreases a
  {
    if a == [] {
      assert a + b == b;
    } else {
      assert (a + b)[1..] == a[1..] + b;
      MergeHeaderConcat(MergeHeaderField(h, a[0]), a[1..], b);
    }
  }

  /** If no error is met, the scalars of the meta record are the last ones, and its header is what all
      header submessages merge to. */
  lemma {:induction false} MetaIsMerged(m: ProtoMeta, fs: seq<Field>)
    requires MergeMeta(m, fs).1
    ensures var r := MergeMeta(m, fs).0;
            && r.dataType == (match LastVarint(fs, 2) case Some(v) => Int32FromWire(v) case None => m.dataType)
            && r.senderId == (match LastVarint(fs, 3) case Some(v) => Low64(v) case None => m.senderId)
            && r.recepientId == (match LastVarint(fs, 4) case Some(v) => Low64(v) case None => m.recepientId)
            && r.header == if LastBytes(fs, 1).None? then m.header
                           else Some(MergeHeader(m.header.GetOr(DEFAULT_HEADER), SubFields(fs)))
    decreases fs
  {
    if fs != [] {
      var rest := fs[1..];
      if fs[0].LengthField? && fs[0].number == 1 {
        var sub := ParseFields(fs[0].data).0;
        var h := MergeHeader(m.header.GetOr(DEFAULT_HEADER), sub);
        MetaIsMerged(m.(header := Some(h)), rest);
        MergeHeaderConcat(m.header.GetOr(DEFAULT_HEADER), sub, SubFields(rest));
        NoSubFields(rest);
      } else {
        var f := fs[0];
        var m' := if f.VarintField? && f.number == 2 then m.(dataType := Int32FromWire(f.v))
                  else if f.VarintField? && f.number == 3 then m.(senderId := Low64(f.v))
                  else if f.VarintField? && f.number == 4 then m.(recepientId := Low64(f.v)) else m;
        assert MergeMeta(m, fs) == MergeMeta(m', rest);
        MetaIsMerged(m', rest);
        assert SubFields(fs) == SubFields(rest);
      }
    }
  }

  lemma {:induction false} NoSubFields(fs: seq<Field>)
    ensures LastBytes(fs, 1).None? ==> SubFields(fs) == []
  {
    if fs != [] { NoSubFields(fs[1..]); }
  }

  lemma {:induction false} MergeMetaConcat(m: ProtoMeta, a: seq<Field>, b: seq<Field>)
    requires MergeMeta(m, a).1
    ensures MergeMeta(m, a + b) == MergeMeta(MergeMeta(m, a).0, b)
    decreases a
  {
    if a == [] {
      assert a + b == b;
    } else {
      assert (a + b)[1..] == a[1..] + b;
      var f := a[0];
      var h := if f.LengthField? then MergeHeader(m.header.GetOr(DEFAULT_HEADER), ParseFields(f.data).0)
               else DEFAULT_HEADER;
      var m' := if f.LengthField? && f.number == 1 then m.(header := Some(h))
                else if f.VarintField? && f.number == 2 then m.(dataType := Int32FromWire(f.v))
                else if f.VarintField? && f.number == 3 then m.(senderId := Low64(f.v))
                else if f.VarintField? && f.number == 4 then m.(recepientId := Low64(f.v)) else m;
      assert MergeMeta(m, a) == MergeMeta(m', a[1..]) && MergeMeta(m, a + b) == MergeMeta(m', a[1..] + b);
      MergeMetaConcat(m', a[1..], b);
    }
  }

  /** If no error is met, the payload of the envelope is the last one, and its meta record is what all
      meta submessages merge to. */
  lemma {:induction false} EnvelopeIsMerged(e: ProtoEnvelope, fs: seq<Field>)
    requires MergeEnvelope(e, fs).1
    ensures var r := MergeEnvelope(e, fs).0;
            && r.payload == LastBytes(fs, 2).GetOr(e.payload)
            && r.metaData == if LastBytes(fs, 1).None? then e.metaData
                             else Some(MergeMeta(e.metaData.GetOr(DEFAULT_META), SubFields(fs)).0)
    ensures LastBytes(fs, 1).Some? ==> MergeMeta(e.metaData.GetOr(DEFAULT_META), SubFields(fs)).1
    decreases fs
  {
    if fs != [] {
      var f, rest := fs[0], fs[1..];
      if f.LengthField? && f.number == 1 {
        var m, sub := e.metaData.GetOr(DEFAULT_META), ParseFields(f.data).0;
        EnvelopeIsMerged(e.(metaData := Some(MergeMeta(m, sub).0)), rest);
        MergeMetaConcat(m, sub, SubFields(rest));
        NoSubFields(rest);
      } else {
        var e' := if f.LengthField? && f.number == 2 then e.(payload := f.data) else e;
        assert MergeEnvelope(e, fs) == MergeEnvelope(e', rest);
        EnvelopeIsMerged(e', rest);
        assert SubFields(fs) == SubFields(rest);
      }
    }
  }

  /** A header submessage with an error in it: what precedes the error is merged, and nothing after it
      is read. */
  lemma MetaStopsAtError(m: ProtoMeta, data: Bytes, rest: seq<Field>)
    requires !ParseFields(data).1
    ensures MergeMeta(m, [LengthField(1, data)] + rest)
         == (m.(header := Some(MergeHeader(m.header.GetOr(DEFAULT_HEADER), ParseFields(data).0))), false)
  {
  }

  lemma EnvelopeStopsAtError(e: ProtoEnvelope, data: Bytes, rest: seq<Field>)
    requires var (sub, ok) := ParseFields(data); !ok || !MergeMeta(e.metaData.GetOr(DEFAULT_META), sub).1
    ensures MergeEnvelope(e, [LengthField(1, data)] + rest)
         == (e.(metaData := Some(MergeMeta(e.metaData.GetOr(DEFAULT_META), ParseFields(data).0).0)), false)
  {
  }

  /** A message that ends in a malformed field is what the fields before it merge to, and the result
      says so. */
  lemma ParseStopsAtError(fs: seq<Field>, bad: Bytes)
    requires (forall f :: f in fs ==> ValidField(f)) && bad != [] && ReadField(bad).None?
    ensures Parse(EncodeFields(fs) + bad) == (MergeEnvelope(DEFAULT_ENVELOPE, fs).0, false)
  {
    FieldsBeforeError(fs, bad);
  }

  /** An int32 is the varint cut to 32 bits, as two's complement. */
  lemma Int32IsCut(w: nat)
    ensures (w - Int32FromWire(w)) % 0x1_0000_0000 == 0
  {
    var n := 0x1_0000_0000;
    assert w == n * (w / n) + w % n;
    if Int32FromWire(w) < 0 { assert w - Int32FromWire(w) == n * (w / n + 1); }
  }

  /** The fields before a malformed one are kept, and the error is reported. */
  lemma {:induction false} FieldsBeforeError(fs: seq<Field>, bad: Bytes)
    requires (forall f :: f in fs ==> ValidField(f)) && bad != [] && ReadField(bad).None?
    ensures ParseFields(EncodeFields(fs) + bad) == (fs, false)
  {
    if fs == [] {
      assert EncodeFields(fs) + bad == bad;
    } else {
      var rest := EncodeFields(fs[1..]) + bad;
      assert EncodeFields(fs) + bad == EncodeField(fs[0]) + rest;
      FieldRoundTrip(fs[0], rest);
      FieldsBeforeError(fs[1..], bad);
      assert [fs[0]] + fs[1..] == fs;
    }
  }

  /** A field is malformed if its tag has number 0 or a wire type other than 0, 1, 2 and 5. */
  lemma MalformedTags(number: nat, wireType: nat, rest: Bytes)
    requires number < 0x2000_0000 && wireType < 8 && (number == 0 || wireType in {3, 4, 6, 7})
    ensures ReadField(Varint(8 * number + wireType) + rest).None?
  {
    var key := 8 * number + wireType;
    Pow128Values();
    VarintSize(key, 5);
    VarintRoundTrip(key, rest, 5);
    TagParts(number, wireType);
  }
}
