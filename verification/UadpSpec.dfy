/**
 The UADP wire format as functions on byte sequences.

 The `...Bytes` functions say what the encoder writes (or throws), the `Read...` functions what the
 decoder makes of the bytes at its cursor. The stream-based encoder and decoder are proved against them.
 */
module UadpSpec {
  import opened Wrappers
  import opened Wire
  import opened UadpModel
  import Guid
  import JsMap

  // ----- flags

  function Flag(present: bool, mask: int): int {
    if present then mask else 0
  }

  /** `flags & mask`, for a mask of one bit. */
  predicate Has(flags: int, mask: int)
    requires mask > 0
  {
    flags / mask % 2 == 1
  }

  // ----- optional header values

  function OptionalUnsigned(v: Option<int>, n: nat): Encoded {
    match v
    case None => Ok([])
    case Some(i) => Unsigned(i, n)
  }

  function ReadOptionalUnsigned(present: bool, s: Bytes, n: nat): Parsed<Option<int>> {
    if !present then Got(None, s)
    else
      var (v, rest) :- ReadUnsigned(s, n);
      Got(Some(v), rest)
  }

  function OptionalDateTime(ms: Option<int>): Encoded {
    match ms
    case None => Ok([])
    case Some(t) => DateTime(t)
  }

  function ReadOptionalDateTime(present: bool, s: Bytes): Parsed<Option<int>> {
    if !present then Got(None, s)
    else
      var (ms, rest) :- ReadDateTime(s);
      Got(Some(ms), rest)
  }

  // ----- Variant

  predicate IsSignedType(t: int) {
    t == 2 || t == 4 || t == 6 || t == 8
  }

  predicate IsUnsignedType(t: int) {
    t == 3 || t == 5 || t == 7 || t == 9
  }

  /** The width in bytes of the fixed-width numeric types. */
  function Width(t: int): nat {
    if t == 2 || t == 3 then 1
    else if t == 4 || t == 5 then 2
    else if t == 6 || t == 7 || t == 10 then 4
    else 8
  }

  function ScalarBytes(t: int, v: Value): Encoded {
    if t == 1 then
      if v.Bool? then Ok([if v.b then 1 else 0]) else Err(TypeMismatch)
    else if IsSignedType(t) then
      if v.Num? then Signed(v.n, Width(t)) else Err(TypeMismatch)
    else if IsUnsignedType(t) then
      if v.Num? then Unsigned(v.n, Width(t)) else Err(TypeMismatch)
    else if t == 10 || t == 11 then
      if v.Bits? && |v.bits| == Width(t) then Ok(v.bits) else Err(TypeMismatch)
    else if t == 12 || t == 15 then
      if v.Str? then NullableText(v.text) else Err(TypeMismatch)
    else if t == 13 then
      if v.Date? then DateTime(v.ms) else Err(TypeMismatch)
    else if t == 14 then
      if v.Uuid? then Guid.GuidBytes(v.guid) else Err(TypeMismatch)
    else if t == 19 then
      if v.Num? then Ok(LE(v.n % 0x1_0000_0000, 4)) else Err(TypeMismatch)
    else Err(UnsupportedBuiltInType)
  }

  function ReadScalar(t: int, s: Bytes): Parsed<Value> {
    if t == 1 then
      var (b, rest) :- ReadUnsigned(s, 1); Got(Bool(b != 0), rest)
    else if IsSignedType(t) then
      var (n, rest) :- ReadSigned(s, Width(t)); Got(Num(n), rest)
    else if IsUnsignedType(t) then
      var (n, rest) :- ReadUnsigned(s, Width(t)); Got(Num(n), rest)
    else if t == 10 || t == 11 then
      var (bits, rest) :- ReadBytes(s, Width(t)); Got(Bits(bits), rest)
    else if t == 12 || t == 15 then
      var (text, rest) :- ReadNullableText(s); Got(Str(text), rest)
    else if t == 13 then
      var (ms, rest) :- ReadDateTime(s); Got(Date(ms), rest)
    else if t == 14 then
      var (g, rest) :- Guid.ReadGuid(s); Got(Uuid(g), rest)
    else if t == 19 then
      var (n, rest) :- ReadUnsigned(s, 4); Got(Num(n), rest)
    else Threw(UnsupportedBuiltInType)
  }

  function ScalarsBytes(t: int, vs: seq<Value>): Encoded {
    if vs == [] then Ok([])
    else
      var first :- ScalarBytes(t, vs[0]);
      var rest :- ScalarsBytes(t, vs[1..]);
      Ok(first + rest)
  }

  /** The decoder's loop: a negative length reads nothing. */
  function ReadScalars(t: int, s: Bytes, n: int): Parsed<seq<Value>>
    decreases n
  {
    if n <= 0 then Got([], s)
    else
      var (v, s1) :- ReadScalar(t, s);
      var (vs, s2) :- ReadScalars(t, s1, n - 1);
      Got([v] + vs, s2)
  }

  function VariantBytes(v: Variant): Encoded {
    match v
    case NullVariant => Ok([0])
    case Variant(dataType, content, _) =>
      var t := dataType.Number();
      if t == 0 then Err(UnknownType)
      else
        match content
        case Scalar(x) =>
          var body :- ScalarBytes(t, x);
          Ok([t % 64] + body)
        case Array(xs) =>
          var len :- Signed(|xs|, 4);
          var body :- ScalarsBytes(t, xs);
          Ok([t % 64 + 0x40] + len + body)
  }

  function ReadContent(t: int, isArray: bool, s: Bytes): Parsed<Content> {
    if isArray then
      var (len, s1) :- ReadSigned(s, 4);
      var (vs, s2) :- ReadScalars(t, s1, len);
      Got(Array(vs), s2)
    else
      var (v, s1) :- ReadScalar(t, s);
      Got(Scalar(v), s1)
  }

  function ReadInts(s: Bytes, n: int): Parsed<seq<int>>
    decreases n
  {
    if n <= 0 then Got([], s)
    else
      var (d, s1) :- ReadSigned(s, 4);
      var (ds, s2) :- ReadInts(s1, n - 1);
      Got([d] + ds, s2)
  }

  function ReadDimensions(present: bool, s: Bytes): Parsed<Option<seq<int>>> {
    if !present then Got(None, s)
    else
      var (count, s1) :- ReadSigned(s, 4);
      var (dims, s2) :- ReadInts(s1, count);
      Got(Some(dims), s2)
  }

  function ReadVariant(s: Bytes): Parsed<Variant> {
    var (e, s1) :- ReadUnsigned(s, 1);
    if e == 0 then Got(NullVariant, s1)
    else
      var (content, s2) :- ReadContent(e % 64, Has(e, 0x40), s1);
      var (dims, s3) :- ReadDimensions(Has(e, 0x80), s2);
      Got(Variant(Ordinal(e % 64), content, dims), s3)
  }

  // ----- DataValue

  function DataValueMask(d: DataValue): (m: Byte) {
    Flag(d.value.Some? && !d.value.value.NullVariant?, 0x01)
    + Flag(d.statusCode.Some?, 0x02)
    + Flag(d.sourceTimestamp.Some?, 0x04)
    + Flag(d.serverTimestamp.Some?, 0x08)
    + Flag(d.sourcePicoseconds.Some?, 0x10)
    + Flag(d.serverPicoseconds.Some?, 0x20)
  }

  function OptionalVariant(v: Option<Variant>): Encoded {
    if v.None? || v.value.NullVariant? then Ok([]) else VariantBytes(v.value)
  }

  function ReadOptionalVariant(present: bool, s: Bytes): Parsed<Option<Variant>> {
    if !present then Got(None, s)
    else
      var (v, rest) :- ReadVariant(s);
      Got(Some(v), rest)
  }

  function DataValueBytes(dv: Option<DataValue>): Encoded {
    match dv
    case None => Ok([0])
    case Some(d) =>
      var value :- OptionalVariant(d.value);
      var status :- OptionalUnsigned(NormalStatus(d.statusCode), 4);
      var source :- OptionalDateTime(d.sourceTimestamp);
      var server :- OptionalDateTime(d.serverTimestamp);
      var sourcePs :- OptionalUnsigned(d.sourcePicoseconds, 2);
      var serverPs :- OptionalUnsigned(d.serverPicoseconds, 2);
      Ok([DataValueMask(d)] + value + status + source + server + sourcePs + serverPs)
  }

  function ReadDataValue(s: Bytes): Parsed<DataValue> {
    var (mask, s0) :- ReadUnsigned(s, 1);
    var (value, s1) :- ReadOptionalVariant(Has(mask, 0x01), s0);
    var (status, s2) :- ReadOptionalUnsigned(Has(mask, 0x02), s1, 4);
    var (source, s3) :- ReadOptionalDateTime(Has(mask, 0x04), s2);
    var (server, s4) :- ReadOptionalDateTime(Has(mask, 0x08), s3);
    var (sourcePs, s5) :- ReadOptionalUnsigned(Has(mask, 0x10), s4, 2);
    var (serverPs, s6) :- ReadOptionalUnsigned(Has(mask, 0x20), s5, 2);
    Got(DataValue(value, status, source, server, sourcePs, serverPs), s6)
  }

  // ----- DataSetMessage

  function FieldEncodingBits(e: FieldEncoding): int {
    match e case AsVariant => 0 case AsRawData => 1 case AsDataValue => 2
  }

  function FieldEncodingOf(bits: int): FieldEncoding {
    if bits == 1 then AsRawData else if bits == 2 then AsDataValue else AsVariant
  }

  function MessageTypeBits(t: MessageType): int {
    match t case KeyFrame => 0 case DeltaFrame => 1 case Event => 2 case KeepAlive => 3
  }

  function MessageTypeOf(bits: int): MessageType {
    if bits == 1 then DeltaFrame else if bits == 2 then Event else if bits == 3 then KeepAlive else KeyFrame
  }

  function DataSetFlags2(m: DataSetMessage): Byte {
    MessageTypeBits(m.messageType)
    + Flag(m.timestamp.Some?, 0x10)
    + Flag(m.picoseconds.Some? && m.timestamp.Some?, 0x20)
  }

  function DataSetFlags1(m: DataSetMessage): Byte {
    Flag(m.valid, 0x01)
    + FieldEncodingBits(m.fieldEncoding) * 2
    + Flag(m.sequenceNumber.Some?, 0x08)
    + Flag(m.status.Some?, 0x10)
    + Flag(m.major.Some?, 0x20)
    + Flag(m.minor.Some?, 0x40)
    + Flag(DataSetFlags2(m) != 0, 0x80)
  }

  function FieldBytes(e: FieldEncoding, f: Field): Encoded {
    match e
    case AsVariant => if f.VariantField? then VariantBytes(f.variant) else Err(TypeMismatch)
    case AsDataValue => if f.DataValueField? then DataValueBytes(f.dataValue) else Err(TypeMismatch)
    case AsRawData =>
      if !f.VariantField? || f.variant.NullVariant? then Err(TypeMismatch)
      else if f.variant.dataType.Number() == 0 then Err(RawDataUnknownType)
      else if f.variant.content.Array? then Err(TypeMismatch)
      else ScalarBytes(f.variant.dataType.Number(), f.variant.content.value)
  }

  function NamedFieldBytes(e: FieldEncoding, name: Text, f: Field): Encoded {
    var len :- Unsigned(|name|, 2);
    var body :- FieldBytes(e, f);
    Ok(len + name + body)
  }

  function NamedFieldsBytes(e: FieldEncoding, fs: seq<(Text, Field)>): Encoded {
    if fs == [] then Ok([])
    else
      var first :- NamedFieldBytes(e, fs[0].0, fs[0].1);
      var rest :- NamedFieldsBytes(e, fs[1..]);
      Ok(first + rest)
  }

  function FieldsBytes(m: DataSetMessage): Encoded {
    if m.messageType == KeepAlive then Ok([])
    else
      var count :- Unsigned(|m.fields|, 2);
      var body :- NamedFieldsBytes(m.fieldEncoding, m.fields);
      Ok(count + body)
  }

  function DataSetFlagBytes(m: DataSetMessage): Bytes {
    [DataSetFlags1(m)] + (if DataSetFlags2(m) != 0 then [DataSetFlags2(m)] else [])
  }

  /** Picoseconds are sent only with a timestamp. */
  function SentPicoseconds(timestamp: Option<int>, picoseconds: Option<int>): Option<int> {
    if timestamp.Some? then picoseconds else None
  }

  function DataSetStateBytes(m: DataSetMessage): Encoded {
    var seqNum :- OptionalUnsigned(m.sequenceNumber, 2);
    var status :- OptionalUnsigned(m.status, 2);
    var major :- OptionalUnsigned(m.major, 4);
    var minor :- OptionalUnsigned(m.minor, 4);
    Ok(seqNum + status + major + minor)
  }

  function TimeBytes(timestamp: Option<int>, picoseconds: Option<int>): Encoded {
    var time :- OptionalDateTime(timestamp);
    var pico :- OptionalUnsigned(SentPicoseconds(timestamp, picoseconds), 2);
    Ok(time + pico)
  }

  function DataSetHeaderBytes(m: DataSetMessage): Encoded {
    var state :- DataSetStateBytes(m);
    var time :- TimeBytes(m.timestamp, m.picoseconds);
    Ok(DataSetFlagBytes(m) + state + time)
  }

  function DataSetMessageBytes(m: DataSetMessage): Encoded {
    var header :- DataSetHeaderBytes(m);
    var body :- FieldsBytes(m);
    Ok(header + body)
  }

  function ReadField(e: FieldEncoding, s: Bytes): Parsed<Field>
    requires e != AsRawData
  {
    if e == AsVariant then
      var (v, rest) :- ReadVariant(s);
      Got(VariantField(v), rest)
    else
      var (dv, rest) :- ReadDataValue(s);
      Got(DataValueField(Some(dv)), rest)
  }

  function ReadNamedField(e: FieldEncoding, s: Bytes): Parsed<(Text, Field)>
    requires e != AsRawData
  {
    var (len, s1) :- ReadUnsigned(s, 2);
    LEOfFromLE(s[..2]);
    var (name, s2) :- ReadBytes(s1, len);
    var (f, s3) :- ReadField(e, s2);
    assert Pow256(2) == 0x1_0000;
    var text: Text := name;
    Got((text, f), s3)
  }

  /** The decoder's loop: a repeated name overwrites the earlier field. */
  function ReadNamedFields(e: FieldEncoding, s: Bytes, n: nat, fields: Fields): Parsed<Fields>
    requires e != AsRawData
    decreases n
  {
    if n == 0 then Got(fields, s)
    else
      var (f, rest) :- ReadNamedField(e, s);
      ReadNamedFields(e, rest, n - 1, JsMap.Set(fields, f.0, f.1))
  }

  function ReadFields(e: FieldEncoding, t: MessageType, s: Bytes): Parsed<Fields>
    requires e != AsRawData
  {
    if t == KeepAlive then Got([], s)
    else
      var (count, s1) :- ReadUnsigned(s, 2);
      ReadNamedFields(e, s1, count, [])
  }

  /** Both flag bytes of a DataSetMessage; an absent second one is 0. */
  function ReadDataSetFlags(s: Bytes): Parsed<(nat, nat)> {
    var (f1, s1) :- ReadUnsigned(s, 1);
    var (f2, s2) :- if Has(f1, 0x80) then ReadUnsigned(s1, 1) else Got(0, s1);
    Got((f1, f2), s2)
  }

  /** The header of a DataSetMessage: the message without its fields. */
  function ReadDataSetHeader(s: Bytes): Parsed<DataSetMessage> {
    var ((f1, f2), s2) :- ReadDataSetFlags(s);
    var (seqNum, s3) :- ReadOptionalUnsigned(Has(f1, 0x08), s2, 2);
    var (status, s4) :- ReadOptionalUnsigned(Has(f1, 0x10), s3, 2);
    var (major, s5) :- ReadOptionalUnsigned(Has(f1, 0x20), s4, 4);
    var (minor, s6) :- ReadOptionalUnsigned(Has(f1, 0x40), s5, 4);
    var (time, s7) :- ReadOptionalDateTime(Has(f2, 0x10), s6);
    var (pico, s8) :- ReadOptionalUnsigned(Has(f2, 0x20), s7, 2);
    Got(DataSetMessage(None, Has(f1, 0x01), FieldEncodingOf(f1 / 2 % 4), MessageTypeOf(f2 % 16),
                       seqNum, status, major, minor, time, pico, []), s8)
  }

  function ReadDataSetMessage(s: Bytes): Parsed<DataSetMessage> {
    var (m, s1) :- ReadDataSetHeader(s);
    if m.fieldEncoding == AsRawData then Threw(RawDataNeedsMetadata)
    else
      var (fields, s2) :- ReadFields(m.fieldEncoding, m.messageType, s1);
      Got(m.(fields := fields), s2)
  }

  // ----- NetworkMessage header

  function PublisherIdTypeBits(p: PublisherId): Result<int, Error> {
    match p
    case StringId(_) => Ok(4)
    case BigIntId(_) => Ok(3)
    case NumberId(n) =>
      if n < 0 then Err(InvalidPublisherId)
      else if n <= 0xff then Ok(0)
      else if n <= 0xffff then Ok(1)
      else if n <= 0xffff_ffff then Ok(2)
      else Err(PublisherIdTooLarge)
    case NullId => Err(UnsupportedPublisherId)
  }

  function PublisherIdWidth(bits: int): nat {
    if bits == 0 then 1 else if bits == 1 then 2 else if bits == 2 then 4 else 8
  }

  function PublisherIdBytes(p: PublisherId, bits: int): Encoded {
    match p
    case StringId(text) => NullableText(Some(text))
    case BigIntId(n) => Unsigned(n, PublisherIdWidth(bits))
    case NumberId(n) => Unsigned(n, PublisherIdWidth(bits))
    case NullId => Err(UnsupportedPublisherId)
  }

  function ReadPublisherId(bits: int, s: Bytes): Parsed<PublisherId> {
    if bits == 4 then
      var (t, rest) :- ReadNullableText(s);
      Got(if t.Some? then StringId(t.value) else NullId, rest)
    else if bits > 4 then Threw(InvalidPublisherIdType)
    else
      var (n, rest) :- ReadUnsigned(s, PublisherIdWidth(bits));
      Got(if bits == 3 then BigIntId(n) else NumberId(n), rest)
  }

  datatype HeaderFlags = HeaderFlags(uadp: Byte, ext1: Byte, ext2: Byte)

  function ExtendedFlags2(nm: NetworkMessage): Byte {
    Flag(nm.chunk.Some?, 0x01) + Flag(nm.promotedFields, 0x02)
  }

  function ExtendedFlags1(nm: NetworkMessage, ext2: Byte): Result<Byte, Error> {
    var bits :- if nm.publisherId.Some? then PublisherIdTypeBits(nm.publisherId.value) else Ok(0);
    Ok(bits
       + Flag(nm.dataSetClassId.Some?, 0x08)
       + Flag(nm.timestamp.Some?, 0x20)
       + Flag(nm.picoseconds.Some? && nm.timestamp.Some?, 0x40)
       + Flag(ext2 != 0, 0x80))
  }

  const UADP_VERSION := 1

  function UadpFlags(nm: NetworkMessage, ext1: Byte): Byte {
    UADP_VERSION
    + Flag(nm.publisherId.Some?, 0x10)
    + Flag(nm.groupHeader.Some?, 0x20)
    + Flag(|nm.writerIds| > 0, 0x40)
    + Flag(ext1 != 0, 0x80)
  }

  function FlagsOf(nm: NetworkMessage): Result<HeaderFlags, Error> {
    var ext2 := ExtendedFlags2(nm);
    var ext1 :- ExtendedFlags1(nm, ext2);
    Ok(HeaderFlags(UadpFlags(nm, ext1), ext1, ext2))
  }

  function FlagBytes(f: HeaderFlags): Bytes {
    [f.uadp] + (if Has(f.uadp, 0x80) then [f.ext1] else [])
    + (if Has(f.uadp, 0x80) && Has(f.ext1, 0x80) then [f.ext2] else [])
  }

  function GroupHeaderBytes(g: GroupHeader): Encoded {
    var group :- Unsigned(g.writerGroupId.GetOr(0), 2);
    var version :- Unsigned(g.groupVersion.GetOr(0), 4);
    var number :- Unsigned(g.networkMessageNumber.GetOr(0), 2);
    var sequence :- Unsigned(g.sequenceNumber.GetOr(0), 2);
    Ok(group + version + number + sequence)
  }

  function ReadGroupHeader(s: Bytes): Parsed<GroupHeader> {
    var (group, s1) :- ReadUnsigned(s, 2);
    var (version, s2) :- ReadUnsigned(s1, 4);
    var (number, s3) :- ReadUnsigned(s2, 2);
    var (sequence, s4) :- ReadUnsigned(s3, 2);
    Got(GroupHeader(Some(group), Some(version), Some(number), Some(sequence)), s4)
  }

  /** A UInt16 for each number: the writer ids, and the size array. */
  function UInt16sBytes(ns: seq<int>): Encoded {
    if ns == [] then Ok([])
    else
      var first :- Unsigned(ns[0], 2);
      var rest :- UInt16sBytes(ns[1..]);
      Ok(first + rest)
  }

  function ReadUInt16s(s: Bytes, n: nat): Parsed<seq<int>> {
    if n == 0 then Got([], s)
    else
      var (v, s1) :- ReadUnsigned(s, 2);
      var (vs, s2) :- ReadUInt16s(s1, n - 1);
      Got([v] + vs, s2)
  }

  function WriterIdsBytes(ids: seq<int>): Encoded {
    var count :- Unsigned(|ids|, 1);
    var body :- UInt16sBytes(ids);
    Ok(count + body)
  }

  function ReadWriterIds(s: Bytes): Parsed<seq<int>> {
    var (count, s1) :- ReadUnsigned(s, 1);
    ReadUInt16s(s1, count)
  }

  // The optional parts of the header: nothing unless their flag is set.

  function OptionalPublisherId(nm: NetworkMessage, f: HeaderFlags): Encoded {
    match nm.publisherId
    case None => Ok([])
    case Some(p) => PublisherIdBytes(p, if Has(f.uadp, 0x80) then f.ext1 % 8 else 0)
  }

  function OptionalClassId(nm: NetworkMessage): Encoded {
    match nm.dataSetClassId
    case None => Ok([])
    case Some(g) => Guid.GuidBytes(g)
  }

  function OptionalGroupHeader(nm: NetworkMessage): Encoded {
    match nm.groupHeader
    case None => Ok([])
    case Some(g) => GroupHeaderBytes(g)
  }

  function OptionalWriterIds(nm: NetworkMessage): Encoded {
    if nm.writerIds == [] then Ok([]) else WriterIdsBytes(nm.writerIds)
  }

  function OriginBytes(nm: NetworkMessage, f: HeaderFlags): Encoded {
    var publisher :- OptionalPublisherId(nm, f);
    var class_ :- OptionalClassId(nm);
    var group :- OptionalGroupHeader(nm);
    Ok(publisher + class_ + group)
  }

  function HeaderFieldsBytes(nm: NetworkMessage, f: HeaderFlags): Encoded {
    var origin :- OriginBytes(nm, f);
    var ids :- OptionalWriterIds(nm);
    var time :- TimeBytes(nm.timestamp, nm.picoseconds);
    Ok(origin + ids + time)
  }

  function HeaderBytes(nm: NetworkMessage): Encoded {
    var f :- FlagsOf(nm);
    var fields :- HeaderFieldsBytes(nm, f);
    Ok(FlagBytes(f) + fields)
  }

  function ReadFlags(s: Bytes): Parsed<HeaderFlags> {
    var (uadp, s1) :- ReadOptionalByte(true, s);
    if uadp % 16 != UADP_VERSION then Threw(UnsupportedVersion)
    else
      var (ext1, s2) :- ReadOptionalByte(Has(uadp, 0x80), s1);
      var (ext2, s3) :- ReadOptionalByte(Has(ext1, 0x80), s2);
      Got(HeaderFlags(uadp, ext1, ext2), s3)
  }

  function ReadOptionalByte(present: bool, s: Bytes): Parsed<Byte> {
    if !present then Got(0, s)
    else
      var (b, rest) :- ReadUnsigned(s, 1);
      LEOfFromLE(s[..1]);
      assert Pow256(1) == 256;
      Got(b, rest)
  }

  function ReadOptionalPublisherId(f: HeaderFlags, s: Bytes): Parsed<Option<PublisherId>> {
    if !Has(f.uadp, 0x10) then Got(None, s)
    else
      var (p, rest) :- ReadPublisherId(f.ext1 % 8, s);
      Got(Some(p), rest)
  }

  function ReadOptionalClassId(f: HeaderFlags, s: Bytes): Parsed<Option<Guid.Uuid>> {
    if !Has(f.ext1, 0x08) then Got(None, s)
    else
      var (g, rest) :- Guid.ReadGuid(s);
      Got(Some(g), rest)
  }

  function ReadOptionalGroupHeader(f: HeaderFlags, s: Bytes): Parsed<Option<GroupHeader>> {
    if !Has(f.uadp, 0x20) then Got(None, s)
    else
      var (g, rest) :- ReadGroupHeader(s);
      Got(Some(g), rest)
  }

  function ReadOptionalWriterIds(f: HeaderFlags, s: Bytes): Parsed<seq<int>> {
    if !Has(f.uadp, 0x40) then Got([], s) else ReadWriterIds(s)
  }

  /** Publisher, class and group, as a message without the rest. */
  function ReadOrigin(f: HeaderFlags, s: Bytes): Parsed<NetworkMessage> {
    var (publisher, s1) :- ReadOptionalPublisherId(f, s);
    var (class_, s2) :- ReadOptionalClassId(f, s1);
    var (group, s3) :- ReadOptionalGroupHeader(f, s2);
    Got(NetworkMessage(publisher, class_, group, [], None, None, false, None, []), s3)
  }

  /** The header fields, as a message without payload. */
  function ReadHeaderFields(f: HeaderFlags, s: Bytes): Parsed<NetworkMessage> {
    var (nm, s1) :- ReadOrigin(f, s);
    var (ids, s2) :- ReadOptionalWriterIds(f, s1);
    var (time, s3) :- ReadOptionalDateTime(Has(f.ext1, 0x20), s2);
    var (pico, s4) :- ReadOptionalUnsigned(Has(f.ext1, 0x40), s3, 2);
    Got(nm.(writerIds := ids, timestamp := time, picoseconds := pico), s4)
  }

  // ----- NetworkMessage body

  function PayloadBuffers(ms: seq<DataSetMessage>): Result<seq<Bytes>, Error> {
    if ms == [] then Ok([])
    else
      var first :- DataSetMessageBytes(ms[0]);
      var rest :- PayloadBuffers(ms[1..]);
      Ok([first] + rest)
  }

  function Sizes(bs: seq<Bytes>): seq<int> {
    seq(|bs|, i requires 0 <= i < |bs| => |bs[i]|)
  }

  function Concat(bs: seq<Bytes>): Bytes {
    if bs == [] then [] else bs[0] + Concat(bs[1..])
  }

  function BodyBytes(nm: NetworkMessage): Encoded {
    var buffers :- PayloadBuffers(nm.payload);
    var sizes :- if |nm.writerIds| > 0 && |buffers| > 1 then UInt16sBytes(Sizes(buffers)) else Ok([]);
    Ok(sizes + Concat(buffers))
  }

  /** The message in one buffer, before the size is compared with the MTU. */
  function WholeBytes(nm: NetworkMessage): Encoded {
    var header :- HeaderBytes(nm);
    if nm.promotedFields then Err(PromotedFieldsNotImplemented)
    else
      var body :- BodyBytes(nm);
      Ok(header + body)
  }

  function ReadChunk(s: Bytes): Parsed<Chunk> {
    var (sequence, s1) :- ReadUnsigned(s, 2);
    var (offset, s2) :- ReadUnsigned(s1, 4);
    var (total, s3) :- ReadUnsigned(s2, 4);
    var (len, s4) :- ReadUnsigned(s3, 4);
    var (data, s5) :- ReadBytes(s4, len);
    Got(Chunk(sequence, offset, total, data), s5)
  }

  /** The messages of a size array: each one is read from its own slice. */
  function ReadSized(s: Bytes, sizes: seq<int>): Parsed<seq<DataSetMessage>>
    requires forall i :: 0 <= i < |sizes| ==> sizes[i] >= 0
  {
    if sizes == [] then Got([], s)
    else
      var (slice, s1) :- ReadBytes(s, sizes[0]);
      var (m, _) :- ReadDataSetMessage(slice);
      var (ms, s2) :- ReadSized(s1, sizes[1..]);
      Got([m] + ms, s2)
  }

  lemma {:induction false} ReadUInt16sShape(s: Bytes, n: nat)
    ensures var p := ReadUInt16s(s, n);
            p.Got? ==> |p.value| == n && |p.rest| + 2 * n == |s| && forall i :: 0 <= i < n ==> p.value[i] >= 0
  {
    if n > 0 && ReadUnsigned(s, 2).Got? {
      ReadUInt16sShape(s[2..], n - 1);
    }
  }

  function ReadPayload(ids: seq<int>, s: Bytes): Parsed<seq<DataSetMessage>> {
    if |ids| > 1 then
      var (sizes, s1) :- ReadUInt16s(s, |ids|);
      ReadUInt16sShape(s, |ids|);
      ReadSized(s1, sizes)
    else if |s| > 0 then
      var (m, rest) :- ReadDataSetMessage(s);
      Got([m], rest)
    else Got([], s)
  }

  function ReadNetworkMessage(s: Bytes): Parsed<NetworkMessage> {
    var (f, s1) :- ReadFlags(s);
    var (nm, s2) :- ReadHeaderFields(f, s1);
    if Has(f.ext2, 0x02) then Threw(PromotedFieldsNotImplemented)
    else if Has(f.ext2, 0x01) then
      var (c, s3) :- ReadChunk(s2);
      Got(nm.(chunk := Some(c)), s3)
    else
      var (payload, s3) :- ReadPayload(nm.writerIds, s2);
      Got(nm.(payload := payload), s3)
  }

  function Decode(s: Bytes): Result<NetworkMessage, Error> {
    match ReadNetworkMessage(s)
    case Got(nm, _) => Ok(nm)
    case Threw(e) => Err(e)
  }
}
