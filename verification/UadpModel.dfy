/** The domain model of UADP messages: what the encoder takes and the decoder gives. */
module UadpModel {
  import opened Wrappers
  import opened Wire
  import Guid
  import JsMap

  // ----- values

  const BUILTIN_TYPE: map<string, int> := map[
    "Boolean" := 1, "SByte" := 2, "Byte" := 3, "Int16" := 4, "UInt16" := 5, "Int32" := 6, "UInt32" := 7,
    "Int64" := 8, "UInt64" := 9, "Float" := 10, "Double" := 11, "String" := 12, "DateTime" := 13,
    "Guid" := 14, "ByteString" := 15, "StatusCode" := 19]

  /** A built-in type given by its name or by its number. */
  datatype TypeRef = TypeName(name: string) | Ordinal(number: int) {
    /** The number of the type; 0 is what the source treats as "no such type". */
    function Number(): int {
      match this
      case TypeName(name) => if name in BUILTIN_TYPE then BUILTIN_TYPE[name] else 0
      case Ordinal(number) => number
    }
  }

  /** A scalar. Float and Double are their IEEE bytes; String and ByteString share one case, null included. */
  datatype Value =
    | Bool(b: bool)
    | Num(n: int)
    | Bits(bits: Bytes)
    | Str(text: Option<Text>)
    | Date(ms: int)
    | Uuid(guid: Guid.Uuid)

  datatype Content = Scalar(value: Value) | Array(values: seq<Value>)

  /** `dimensions` is what the decoder attaches when the wire declares them; the encoder never looks at it. */
  datatype Variant =
    | NullVariant
    | Variant(dataType: TypeRef, content: Content, dimensions: Option<seq<int>>)

  datatype DataValue = DataValue(
    value: Option<Variant>, statusCode: Option<int>,
    sourceTimestamp: Option<int>, serverTimestamp: Option<int>,
    sourcePicoseconds: Option<int>, serverPicoseconds: Option<int>)

  // ----- messages

  /** One entry of a DataSetMessage; a DataValue may be null. */
  datatype Field = VariantField(variant: Variant) | DataValueField(dataValue: Option<DataValue>)

  /** The `fields` object: unique names (as UTF-8 bytes), in the order of `Object.keys`. */
  type Fields = JsMap.Map<Text, Field>

  datatype FieldEncoding = AsVariant | AsRawData | AsDataValue

  datatype MessageType = KeyFrame | DeltaFrame | Event | KeepAlive

  datatype DataSetMessage = DataSetMessage(
    dataSetWriterId: Option<int>, valid: bool, fieldEncoding: FieldEncoding, messageType: MessageType,
    sequenceNumber: Option<int>, status: Option<int>, major: Option<int>, minor: Option<int>,
    timestamp: Option<int>, picoseconds: Option<int>, fields: Fields)

  /** A Number, a BigInt, a string, or the null that a null string on the wire decodes to. */
  datatype PublisherId = NumberId(n: int) | BigIntId(n: int) | StringId(text: Text) | NullId

  datatype GroupHeader = GroupHeader(
    writerGroupId: Option<int>, groupVersion: Option<int>,
    networkMessageNumber: Option<int>, sequenceNumber: Option<int>)

  datatype Chunk = Chunk(messageSequenceNumber: int, chunkOffset: int, totalSize: int, chunkData: Bytes)

  /** `writerIds` is the payload header; an absent header and an empty one are the same to the codec. */
  datatype NetworkMessage = NetworkMessage(
    publisherId: Option<PublisherId>, dataSetClassId: Option<Guid.Uuid>, groupHeader: Option<GroupHeader>,
    writerIds: seq<int>, timestamp: Option<int>, picoseconds: Option<int>,
    promotedFields: bool, chunk: Option<Chunk>, payload: seq<DataSetMessage>)

  // ----- the normal form: what is left of a message after one trip over the wire

  /** Ordinals instead of names, and whatever the encoder rounds or does not write removed. */
  function NormalValue(t: int, v: Value): Value {
    match v
    case Num(n) => if t == 19 then Num(n % 0x1_0000_0000) else v
    case Uuid(g) => Guid.UpperIsUuid(g); Uuid(Guid.Upper(g))
    case _ => v
  }

  function NormalVariant(v: Variant): Variant {
    match v
    case NullVariant => NullVariant
    case Variant(dataType, content, _) =>
      var t := dataType.Number();
      Variant(Ordinal(t % 64), NormalContent(t, content), None)
  }

  function NormalContent(t: int, c: Content): Content {
    match c
    case Scalar(v) => Scalar(NormalValue(t, v))
    case Array(vs) => Array(NormalValues(t, vs))
  }

  function NormalValues(t: int, vs: seq<Value>): seq<Value> {
    seq(|vs|, i requires 0 <= i < |vs| => NormalValue(t, vs[i]))
  }

  const EMPTY_DATA_VALUE := DataValue(None, None, None, None, None, None)

  function NormalDataValue(dv: Option<DataValue>): DataValue {
    match dv
    case None => EMPTY_DATA_VALUE
    case Some(d) =>
      d.(value := if d.value.None? || d.value.value.NullVariant? then None else Some(NormalVariant(d.value.value)),
         statusCode := NormalStatus(d.statusCode))
  }

  function NormalStatus(s: Option<int>): Option<int> {
    match s
    case None => None
    case Some(code) => Some(code % 0x1_0000_0000)
  }

  function NormalField(f: Field): Field {
    match f
    case VariantField(v) => VariantField(NormalVariant(v))
    case DataValueField(dv) => DataValueField(Some(NormalDataValue(dv)))
  }

  function NormalFields(fs: Fields): (r: Fields)
    ensures |r| == |fs|
  {
    seq(|fs|, i requires 0 <= i < |fs| => (fs[i].0, NormalField(fs[i].1)))
  }

  function NormalDataSetMessage(m: DataSetMessage): DataSetMessage {
    m.(dataSetWriterId := None,
       picoseconds := if m.timestamp.Some? then m.picoseconds else None,
       fields := if m.messageType == KeepAlive then [] else NormalFields(m.fields))
  }

  function NormalGroupHeader(g: GroupHeader): GroupHeader {
    GroupHeader(Some(g.writerGroupId.GetOr(0)), Some(g.groupVersion.GetOr(0)),
                Some(g.networkMessageNumber.GetOr(0)), Some(g.sequenceNumber.GetOr(0)))
  }

  function NormalNetworkMessage(nm: NetworkMessage): NetworkMessage {
    nm.(dataSetClassId := (match nm.dataSetClassId
                           case None => None
                           case Some(g) => Guid.UpperIsUuid(g); Some(Guid.Upper(g))),
        groupHeader := (match nm.groupHeader case None => None case Some(g) => Some(NormalGroupHeader(g))),
        picoseconds := if nm.timestamp.Some? then nm.picoseconds else None,
        payload := NormalPayload(nm.payload))
  }

  function NormalPayload(ms: seq<DataSetMessage>): seq<DataSetMessage> {
    seq(|ms|, i requires 0 <= i < |ms| => NormalDataSetMessage(ms[i]))
  }
}
