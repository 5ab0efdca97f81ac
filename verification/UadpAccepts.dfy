/** Which messages the encoder accepts, stated as ranges of what is in them. */
module UadpAccepts {
  import opened Wrappers
  import opened Wire
  import opened UadpModel
  import opened UadpSpec
  import opened UadpLayout
  import UadpRoundTrip
  import Guid

  // ----- scalars

  predicate InRange(lo: int, v: Value, hi: int) {
    v.Num? && lo <= v.n <= hi
  }

  predicate TimeFits(ms: int) {
    0 <= (ms + 11_644_473_600_000) * 10_000 < 0x1_0000_0000_0000_0000
  }

  /** A value its type can hold. */
  predicate ValueFits(t: int, v: Value) {
    match t
    case 1 => v.Bool?
    case 2 => InRange(-128, v, 127)
    case 3 => InRange(0, v, 255)
    case 4 => InRange(-0x8000, v, 0x7FFF)
    case 5 => InRange(0, v, 0xFFFF)
    case 6 => InRange(-0x8000_0000, v, 0x7FFF_FFFF)
    case 7 => InRange(0, v, 0xFFFF_FFFF)
    case 8 => InRange(-0x8000_0000_0000_0000, v, 0x7FFF_FFFF_FFFF_FFFF)
    case 9 => InRange(0, v, 0xFFFF_FFFF_FFFF_FFFF)
    case 10 => v.Bits? && |v.bits| == 4
    case 11 => v.Bits? && |v.bits| == 8
    case 12 => v.Str?
    case 13 => v.Date? && TimeFits(v.ms)
    case 14 => v.Uuid?
    case 15 => v.Str?
    case 19 => v.Num?
    case _ => false
  }

  lemma Powers()
    ensures Pow256(1) == 0x100 && Pow256(2) == 0x1_0000
    ensures Pow256(4) == 0x1_0000_0000 && Pow256(8) == 0x1_0000_0000_0000_0000
  {
    assert Pow256(2) == 0x1_0000;
    assert Pow256(4) == 0x1_0000_0000;
    assert Pow256(8) == 0x1_0000_0000_0000_0000;
  }

  /** A scalar is written exactly if its type can hold it. */
  lemma ScalarAccepted(t: int, v: Value)
    ensures ScalarBytes(t, v).Ok? <==> ValueFits(t, v)
  {
    Powers();
    hide LE, Pow256;
    GuidAccepted(v);
    hide Guid.GuidBytes;
  }

  lemma GuidAccepted(v: Value)
    ensures v.Uuid? ==> Guid.GuidBytes(v.guid).Ok?
  {
    if v.Uuid? {
      Guid.GuidRoundTrip(v.guid, []);
    }
  }

  /** A value of the kind its type asks for. */
  predicate RightKind(t: int, v: Value) {
    match t
    case 1 => v.Bool?
    case 10 => v.Bits? && |v.bits| == 4
    case 11 => v.Bits? && |v.bits| == 8
    case 12 => v.Str?
    case 13 => v.Date?
    case 14 => v.Uuid?
    case 15 => v.Str?
    case _ => v.Num?
  }

  const BUILTIN_NUMBERS: set<int> := {1, 2, 3, 4, 5, 6, 7, 8, 9, 10, 11, 12, 13, 14, 15, 19}

  /** Otherwise the type is unknown to the writer, or the value of another kind, or out of range. */
  lemma ScalarRefused(t: int, v: Value)
    ensures t !in BUILTIN_NUMBERS ==> ScalarBytes(t, v) == Err(UnsupportedBuiltInType)
    ensures t in BUILTIN_NUMBERS && !RightKind(t, v) ==> ScalarBytes(t, v) == Err(TypeMismatch)
    ensures t in BUILTIN_NUMBERS && RightKind(t, v) && !ValueFits(t, v) ==> ScalarBytes(t, v) == Err(OutOfRange)
  {
    ScalarAccepted(t, v);
    GuidAccepted(v);
    hide LE, Guid.GuidBytes, ValueFits, Pow256;
  }

  lemma {:induction false} ScalarsAccepted(t: int, vs: seq<Value>)
    ensures ScalarsBytes(t, vs).Ok? <==> forall i :: 0 <= i < |vs| ==> ValueFits(t, vs[i])
  {
    hide ScalarBytes, ValueFits;
    if vs != [] {
      ScalarAccepted(t, vs[0]);
      ScalarsAccepted(t, vs[1..]);
      assert vs == [vs[0]] + vs[1..];
    }
  }

  // ----- fields

  /** A type that exists, and a scalar it can hold or at most 2^31 - 1 of them. */
  predicate VariantFits(v: Variant) {
    match v
    case NullVariant => true
    case Variant(dataType, Scalar(x), _) => dataType.Number() != 0 && ValueFits(dataType.Number(), x)
    case Variant(dataType, Array(xs), _) =>
      && dataType.Number() != 0 && |xs| < 0x8000_0000
      && forall i :: 0 <= i < |xs| ==> ValueFits(dataType.Number(), xs[i])
  }

  lemma LengthAccepted(n: nat)
    ensures Signed(n, 4).Ok? <==> n < 0x8000_0000
  {
    Powers();
    hide LE, Pow256;
  }

  lemma VariantAccepted(v: Variant)
    ensures VariantBytes(v).Ok? <==> VariantFits(v)
  {
    hide ScalarBytes, ScalarsBytes, ValueFits, Signed, TypeRef.Number;
    match v
    case NullVariant =>
    case Variant(dataType, Scalar(x), _) => ScalarAccepted(dataType.Number(), x);
    case Variant(dataType, Array(xs), _) =>
      ScalarsAccepted(dataType.Number(), xs);
      LengthAccepted(|xs|);
  }

  /** Absent, or a number of this many bytes. */
  predicate NumberFits(v: Option<int>, limit: int) {
    v.Some? ==> 0 <= v.value < limit
  }

  predicate OptionalTimeFits(v: Option<int>) {
    v.Some? ==> TimeFits(v.value)
  }

  lemma OptionalAccepted(v: Option<int>)
    ensures OptionalUnsigned(v, 2).Ok? <==> NumberFits(v, 0x1_0000)
    ensures OptionalUnsigned(v, 4).Ok? <==> NumberFits(v, 0x1_0000_0000)
    ensures OptionalDateTime(v).Ok? <==> OptionalTimeFits(v)
    ensures OptionalUnsigned(NormalStatus(v), 4).Ok?
  {
    Powers();
    hide LE, Pow256;
  }

  /** The status code may be any integer; it is written modulo 2^32. */
  predicate DataValueFits(dv: Option<DataValue>) {
    dv.Some? ==>
      var d := dv.value;
      && (d.value.Some? ==> VariantFits(d.value.value))
      && OptionalTimeFits(d.sourceTimestamp) && OptionalTimeFits(d.serverTimestamp)
      && NumberFits(d.sourcePicoseconds, 0x1_0000) && NumberFits(d.serverPicoseconds, 0x1_0000)
  }

  lemma DataValueAccepted(dv: Option<DataValue>)
    ensures DataValueBytes(dv).Ok? <==> DataValueFits(dv)
  {
    if dv.Some? {
      var d := dv.value;
      hide OptionalUnsigned, OptionalDateTime, VariantBytes, VariantFits, NumberFits, OptionalTimeFits, NormalStatus,
           DataValueMask;
      if d.value.Some? {
        VariantAccepted(d.value.value);
        NullFits();
      }
      OptionalAccepted(d.statusCode);
      OptionalAccepted(d.sourceTimestamp);
      OptionalAccepted(d.serverTimestamp);
      OptionalAccepted(d.sourcePicoseconds);
      OptionalAccepted(d.serverPicoseconds);
    }
  }

  lemma NullFits()
    ensures VariantFits(NullVariant)
  {
  }

  /** RawData takes a scalar of a known type, the other encodings what they are named after. */
  predicate FieldFits(e: FieldEncoding, f: Field) {
    match e
    case AsVariant => f.VariantField? && VariantFits(f.variant)
    case AsDataValue => f.DataValueField? && DataValueFits(f.dataValue)
    case AsRawData => f.VariantField? && f.variant.Variant? && f.variant.content.Scalar? && VariantFits(f.variant)
  }

  lemma FieldAccepted(e: FieldEncoding, f: Field)
    ensures FieldBytes(e, f).Ok? <==> FieldFits(e, f)
  {
    hide ScalarBytes, ValueFits, DataValueBytes, DataValueFits, TypeRef.Number;
    match f
    case VariantField(v) =>
      VariantAccepted(v);
      if v.Variant? && v.content.Scalar? {
        ScalarAccepted(v.dataType.Number(), v.content.value);
      }
      hide VariantBytes;
    case DataValueField(dv) => DataValueAccepted(dv);
  }

  predicate NamedFieldFits(e: FieldEncoding, f: (Text, Field)) {
    |f.0| < 0x1_0000 && FieldFits(e, f.1)
  }

  lemma CountAccepted(n: nat)
    ensures Unsigned(n, 1).Ok? <==> n < 0x100
    ensures Unsigned(n, 2).Ok? <==> n < 0x1_0000
  {
    Powers();
    hide LE, Pow256;
  }

  lemma {:induction false} NamedFieldsAccepted(e: FieldEncoding, fs: seq<(Text, Field)>)
    ensures NamedFieldsBytes(e, fs).Ok? <==> forall i :: 0 <= i < |fs| ==> NamedFieldFits(e, fs[i])
  {
    hide FieldBytes, FieldFits, Unsigned;
    if fs != [] {
      CountAccepted(|fs[0].0|);
      FieldAccepted(e, fs[0].1);
      NamedFieldsAccepted(e, fs[1..]);
      assert fs == [fs[0]] + fs[1..];
    }
  }

  // ----- messages

  predicate TimesFit(timestamp: Option<int>, picoseconds: Option<int>) {
    OptionalTimeFits(timestamp) && (timestamp.Some? ==> NumberFits(picoseconds, 0x1_0000))
  }

  lemma TimesAccepted(timestamp: Option<int>, picoseconds: Option<int>)
    ensures TimeBytes(timestamp, picoseconds).Ok? <==> TimesFit(timestamp, picoseconds)
  {
    hide OptionalUnsigned, OptionalDateTime;
    OptionalAccepted(timestamp);
    OptionalAccepted(picoseconds);
    OptionalAccepted(None);
  }

  /** Header numbers of their width, and, except in a KeepAlive, less than 65536 fields that fit. */
  predicate DataSetFits(m: DataSetMessage) {
    && NumberFits(m.sequenceNumber, 0x1_0000) && NumberFits(m.status, 0x1_0000)
    && NumberFits(m.major, 0x1_0000_0000) && NumberFits(m.minor, 0x1_0000_0000)
    && TimesFit(m.timestamp, m.picoseconds)
    && (m.messageType != KeepAlive ==>
          |m.fields| < 0x1_0000 && forall i :: 0 <= i < |m.fields| ==> NamedFieldFits(m.fieldEncoding, m.fields[i]))
  }

  lemma DataSetAccepted(m: DataSetMessage)
    ensures DataSetMessageBytes(m).Ok? <==> DataSetFits(m)
  {
    hide OptionalUnsigned, TimeBytes, TimesFit, NumberFits, NamedFieldsBytes, NamedFieldFits, Unsigned,
         DataSetFlagBytes;
    OptionalAccepted(m.sequenceNumber);
    OptionalAccepted(m.status);
    OptionalAccepted(m.major);
    OptionalAccepted(m.minor);
    TimesAccepted(m.timestamp, m.picoseconds);
    CountAccepted(|m.fields|);
    NamedFieldsAccepted(m.fieldEncoding, m.fields);
  }

  lemma {:induction false} PayloadAccepted(ms: seq<DataSetMessage>)
    ensures PayloadBuffers(ms).Ok? <==> forall i :: 0 <= i < |ms| ==> DataSetFits(ms[i])
    ensures PayloadBuffers(ms).Ok? ==> |PayloadBuffers(ms).value| == |ms|
    ensures PayloadBuffers(ms).Ok? ==>
              forall i :: 0 <= i < |ms| ==> DataSetMessageBytes(ms[i]) == Ok(PayloadBuffers(ms).value[i])
  {
    hide DataSetMessageBytes, DataSetFits;
    if ms != [] {
      DataSetAccepted(ms[0]);
      PayloadAccepted(ms[1..]);
      assert ms == [ms[0]] + ms[1..];
    }
  }

  lemma {:induction false} UInt16sAccepted(ns: seq<int>)
    ensures UInt16sBytes(ns).Ok? <==> forall i :: 0 <= i < |ns| ==> 0 <= ns[i] < 0x1_0000
  {
    hide Unsigned;
    if ns != [] {
      NumberAccepted(ns[0]);
      UInt16sAccepted(ns[1..]);
      assert ns == [ns[0]] + ns[1..];
    }
  }

  lemma NumberAccepted(n: int)
    ensures Unsigned(n, 2).Ok? <==> 0 <= n < 0x1_0000
    ensures Unsigned(n, 4).Ok? <==> 0 <= n < 0x1_0000_0000
    ensures Unsigned(n, 8).Ok? <==> 0 <= n < 0x1_0000_0000_0000_0000
  {
    Powers();
    hide LE, Pow256;
  }

  predicate GroupFits(g: GroupHeader) {
    && NumberFits(g.writerGroupId, 0x1_0000) && NumberFits(g.groupVersion, 0x1_0000_0000)
    && NumberFits(g.networkMessageNumber, 0x1_0000) && NumberFits(g.sequenceNumber, 0x1_0000)
  }

  lemma GroupAccepted(g: GroupHeader)
    ensures GroupHeaderBytes(g).Ok? <==> GroupFits(g)
  {
    NumberAccepted(g.writerGroupId.GetOr(0));
    NumberAccepted(g.groupVersion.GetOr(0));
    NumberAccepted(g.networkMessageNumber.GetOr(0));
    NumberAccepted(g.sequenceNumber.GetOr(0));
    hide Unsigned;
  }

  /** A Number of at most 32 bits, a BigInt of at most 64, or any string. */
  predicate IdFits(p: Option<PublisherId>) {
    match p
    case Some(NumberId(n)) => 0 <= n < 0x1_0000_0000
    case Some(BigIntId(n)) => 0 <= n < 0x1_0000_0000_0000_0000
    case Some(NullId) => false
    case _ => true
  }

  predicate HeaderFits(nm: NetworkMessage) {
    && IdFits(nm.publisherId)
    && (nm.groupHeader.Some? ==> GroupFits(nm.groupHeader.value))
    && |nm.writerIds| < 0x100 && (forall i :: 0 <= i < |nm.writerIds| ==> 0 <= nm.writerIds[i] < 0x1_0000)
    && TimesFit(nm.timestamp, nm.picoseconds)
  }

  lemma IdAccepted(nm: NetworkMessage)
    requires FlagsOf(nm).Ok?
    ensures OptionalPublisherId(nm, FlagsOf(nm).value).Ok? <==> IdFits(nm.publisherId)
  {
    FlagsNeedAnId(nm);
    UadpRoundTrip.FlagBits(nm);
    hide FlagsOf, Has, Unsigned, NullableText;
    match nm.publisherId
    case Some(NumberId(n)) => IdNumberAccepted(n);
    case Some(BigIntId(n)) => NumberAccepted(n);
    case Some(StringId(t)) => TextAccepted(t);
    case _ =>
  }

  lemma IdNumberAccepted(n: int)
    ensures 0 <= n < 0x100 ==> Unsigned(n, 1).Ok?
    ensures 0 <= n < 0x1_0000 ==> Unsigned(n, 2).Ok?
    ensures 0 <= n < 0x1_0000_0000 ==> Unsigned(n, 4).Ok?
  {
    NumberAccepted(n);
    if n >= 0 {
      CountAccepted(n);
    }
    hide Unsigned;
  }

  lemma TextAccepted(t: Text)
    ensures NullableText(Some(t)).Ok?
  {
    NullableTextRoundTrip(Some(t), []);
  }

  lemma HeaderAccepted(nm: NetworkMessage)
    ensures HeaderBytes(nm).Ok? <==> HeaderFits(nm)
  {
    FlagsNeedAnId(nm);
    if FlagsOf(nm).Ok? {
      IdAccepted(nm);
    }
    if nm.dataSetClassId.Some? {
      GuidAccepted(Uuid(nm.dataSetClassId.value));
    }
    if nm.groupHeader.Some? {
      GroupAccepted(nm.groupHeader.value);
    }
    CountAccepted(|nm.writerIds|);
    UInt16sAccepted(nm.writerIds);
    TimesAccepted(nm.timestamp, nm.picoseconds);
    hide FlagsOf, FlagBytes, OptionalPublisherId, Guid.GuidBytes, GroupHeaderBytes, GroupFits, Unsigned, UInt16sBytes,
         TimeBytes, TimesFit;
  }

  /** With ids, and more than one message, every message needs a size of 16 bits. */
  predicate SizesFit(nm: NetworkMessage) {
    |nm.writerIds| > 0 && |nm.payload| > 1 ==>
      forall i :: 0 <= i < |nm.payload| && DataSetMessageBytes(nm.payload[i]).Ok? ==>
        |DataSetMessageBytes(nm.payload[i]).value| < 0x1_0000
  }

  /**
   The messages the encoder accepts: everything in range for its width, no promoted fields, and messages
   below 64 KiB where there is a size array. Nothing else is asked for.
   */
  predicate MessageFits(nm: NetworkMessage) {
    && HeaderFits(nm) && !nm.promotedFields && (forall i :: 0 <= i < |nm.payload| ==> DataSetFits(nm.payload[i]))
    && SizesFit(nm)
  }

  lemma MessageAccepted(nm: NetworkMessage)
    ensures WholeBytes(nm).Ok? <==> MessageFits(nm)
  {
    hide HeaderBytes, HeaderFits, PayloadBuffers, DataSetFits, DataSetMessageBytes, UInt16sBytes;
    HeaderAccepted(nm);
    PayloadAccepted(nm.payload);
    if PayloadBuffers(nm.payload).Ok? {
      var buffers := PayloadBuffers(nm.payload).value;
      UInt16sAccepted(Sizes(buffers));
      SizesOf(nm.payload, buffers);
    }
  }

  lemma SizesOf(ms: seq<DataSetMessage>, buffers: seq<Bytes>)
    requires |buffers| == |ms| && forall i :: 0 <= i < |ms| ==> DataSetMessageBytes(ms[i]) == Ok(buffers[i])
    ensures (forall i :: 0 <= i < |buffers| ==> 0 <= Sizes(buffers)[i] < 0x1_0000)
       <==> forall i :: 0 <= i < |ms| ==> |DataSetMessageBytes(ms[i]).value| < 0x1_0000
  {
    hide DataSetMessageBytes;
    assert forall i :: 0 <= i < |buffers| ==> Sizes(buffers)[i] == |DataSetMessageBytes(ms[i]).value|;
  }
}
