/**
 Reading undoes writing: each reader consumes exactly the bytes its writer produced, leaves any suffix
 untouched, and gives the normal form of what was written.
 */
module UadpRoundTrip {
  import opened Wrappers
  import opened Wire
  import opened UadpModel
  import opened UadpSpec
  import Guid
  import JsMap

  // ----- flag bytes

  /** Masks do not overlap: each flag of a byte reads back as it was set. */
  lemma ByteBits(low: int, b3: bool, b4: bool, b5: bool, b6: bool, b7: bool)
    requires 0 <= low < 8
    ensures var f := low + Flag(b3, 0x08) + Flag(b4, 0x10) + Flag(b5, 0x20) + Flag(b6, 0x40) + Flag(b7, 0x80);
            && 0 <= f < 256 && f % 8 == low
            && Has(f, 0x08) == b3 && Has(f, 0x10) == b4 && Has(f, 0x20) == b5 && Has(f, 0x40) == b6
            && Has(f, 0x80) == b7
  {
    var f := low + Flag(b3, 0x08) + Flag(b4, 0x10) + Flag(b5, 0x20) + Flag(b6, 0x40) + Flag(b7, 0x80);
    var q7 := Flag(b7, 1);
    var q6 := Flag(b6, 1) + 2 * q7;
    var q5 := Flag(b5, 1) + 2 * q6;
    var q4 := Flag(b4, 1) + 2 * q5;
    var q3 := Flag(b3, 1) + 2 * q4;
    assert f / 0x08 == q3 && f / 0x10 == q4 && f / 0x20 == q5 && f / 0x40 == q6 && f / 0x80 == q7;
  }

  // ----- optional header values

  lemma OptionalUnsignedRoundTrip(v: Option<int>, n: nat, rest: Bytes)
    requires OptionalUnsigned(v, n).Ok?
    ensures ReadOptionalUnsigned(v.Some?, OptionalUnsigned(v, n).value + rest, n) == Got(v, rest)
  {
    if v.Some? {
      UnsignedRoundTrip(v.value, n, rest);
    } else {
      assert [] + rest == rest;
    }
  }

  lemma OptionalDateTimeRoundTrip(ms: Option<int>, rest: Bytes)
    requires OptionalDateTime(ms).Ok?
    ensures ReadOptionalDateTime(ms.Some?, OptionalDateTime(ms).value + rest) == Got(ms, rest)
  {
    if ms.Some? {
      DateTimeRoundTrip(ms.value, rest);
    } else {
      assert [] + rest == rest;
    }
  }

  // ----- Variant

  lemma ReadOneByte(b: Byte, rest: Bytes)
    ensures ReadUnsigned([b] + rest, 1) == Got(b, rest)
  {
    assert Pow256(1) == 256 && LE(b, 1) == [b];
    UnsignedRoundTrip(b, 1, rest);
  }

  lemma ScalarRoundTrip(t: int, v: Value, rest: Bytes)
    requires ScalarBytes(t, v).Ok?
    ensures ReadScalar(t, ScalarBytes(t, v).value + rest) == Got(NormalValue(t, v), rest)
  {
    if t == 1 {
      ReadOneByte(if v.b then 1 else 0, rest);
    } else if IsSignedType(t) {
      SignedRoundTrip(v.n, Width(t), rest);
    } else if IsUnsignedType(t) {
      UnsignedRoundTrip(v.n, Width(t), rest);
    } else if t == 10 || t == 11 {
      assert (v.bits + rest)[..Width(t)] == v.bits && (v.bits + rest)[Width(t)..] == rest;
    } else if t == 12 || t == 15 {
      NullableTextRoundTrip(v.text, rest);
    } else if t == 13 {
      DateTimeRoundTrip(v.ms, rest);
    } else if t == 14 {
      Guid.GuidRoundTrip(v.guid, rest);
    } else {
      assert Pow256(4) == 0x1_0000_0000;
      UnsignedRoundTrip(v.n % 0x1_0000_0000, 4, rest);
    }
  }

  /** Only the sixteen supported types have a scalar encoding, so the six bits of the wire keep the type. */
  lemma SupportedTypes(t: int, v: Value)
    requires ScalarBytes(t, v).Ok?
    ensures 0 < t < 20
  {
  }

  lemma {:induction false} ScalarsRoundTrip(t: int, vs: seq<Value>, rest: Bytes)
    requires ScalarsBytes(t, vs).Ok?
    ensures ReadScalars(t, ScalarsBytes(t, vs).value + rest, |vs|)
         == Got(NormalValues(t, vs), rest)
  {
    if vs == [] {
      assert [] + rest == rest;
    } else {
      var first, tail := ScalarBytes(t, vs[0]).value, ScalarsBytes(t, vs[1..]).value;
      assert first + tail + rest == first + (tail + rest);
      hide ScalarBytes, ReadScalar, NormalValue;
      ScalarRoundTrip(t, vs[0], tail + rest);
      ScalarsRoundTrip(t, vs[1..], rest);
      assert NormalValues(t, vs) == [NormalValue(t, vs[0])] + NormalValues(t, vs[1..]);
    }
  }

  lemma ScalarVariantRoundTrip(t: int, x: Value, rest: Bytes)
    requires t != 0 && ScalarBytes(t, x).Ok?
    ensures 0 < t < 64
    ensures ReadVariant([t] + ScalarBytes(t, x).value + rest)
         == Got(Variant(Ordinal(t), Scalar(NormalValue(t, x)), None), rest)
  {
    hide ScalarBytes, ReadScalar, ReadScalars, NormalValue, ReadUnsigned, ReadInts;
    SupportedTypes(t, x);
    var body := ScalarBytes(t, x).value;
    Regroup([t], body, rest);
    ReadOneByte(t, body + rest);
    ScalarRoundTrip(t, x, rest);
  }

  lemma ArrayElementsRoundTrip(t: int, xs: seq<Value>, rest: Bytes)
    requires ScalarsBytes(t, xs).Ok?
    ensures ReadScalars(t % 64, ScalarsBytes(t, xs).value + rest, |xs|) == Got(NormalValues(t, xs), rest)
  {
    hide ScalarBytes, ReadScalar, NormalValue;
    if xs == [] {
      assert [] + rest == rest;
      assert NormalValues(t, xs) == [];
    } else {
      SupportedElements(t, xs);
      ScalarsRoundTrip(t, xs, rest);
    }
  }

  lemma SupportedElements(t: int, xs: seq<Value>)
    requires xs != [] && ScalarsBytes(t, xs).Ok?
    ensures 0 < t < 20
  {
    hide ScalarBytes;
    SupportedTypes(t, xs[0]);
  }

  lemma ArrayContentRoundTrip(t: int, xs: seq<Value>, rest: Bytes)
    requires Signed(|xs|, 4).Ok? && ScalarsBytes(t, xs).Ok?
    ensures ReadContent(t % 64, true, Signed(|xs|, 4).value + (ScalarsBytes(t, xs).value + rest))
         == Got(Array(NormalValues(t, xs)), rest)
  {
    hide ScalarsBytes, ReadScalars, ReadScalar, NormalValues, ReadSigned, Signed;
    var body := ScalarsBytes(t, xs).value;
    SignedRoundTrip(|xs|, 4, body + rest);
    ArrayElementsRoundTrip(t, xs, rest);
  }

  lemma ArrayEncodingByte(t: int)
    ensures var e := t % 64 + 0x40; 0 < e < 256 && e % 64 == t % 64 && Has(e, 0x40) && !Has(e, 0x80)
  {
  }

  lemma ArrayVariantRoundTrip(t: int, xs: seq<Value>, rest: Bytes)
    requires Signed(|xs|, 4).Ok? && ScalarsBytes(t, xs).Ok?
    ensures ReadVariant([t % 64 + 0x40] + Signed(|xs|, 4).value + ScalarsBytes(t, xs).value + rest)
         == Got(Variant(Ordinal(t % 64), Array(NormalValues(t, xs)), None), rest)
  {
    var e := t % 64 + 0x40;
    ArrayEncodingByte(t);
    hide ReadContent, ReadUnsigned, Signed, ScalarsBytes, NormalValues, Has;
    var len, body := Signed(|xs|, 4).value, ScalarsBytes(t, xs).value;
    Regroup([e] + len, body, rest);
    Regroup([e], len, body + rest);
    ReadOneByte(e, len + (body + rest));
    ArrayContentRoundTrip(t, xs, rest);
  }

  lemma NullVariantRoundTrip(rest: Bytes)
    ensures ReadVariant([0] + rest) == Got(NullVariant, rest)
  {
    hide ReadContent, ReadDimensions;
    ReadOneByte(0, rest);
  }

  lemma VariantRoundTrip(v: Variant, rest: Bytes)
    requires VariantBytes(v).Ok?
    ensures ReadVariant(VariantBytes(v).value + rest) == Got(NormalVariant(v), rest)
  {
    hide ScalarBytes, ScalarsBytes, NormalValue, NormalValues, ReadVariant, Signed, TypeRef.Number;
    match v
    case NullVariant =>
      NullVariantRoundTrip(rest);
    case Variant(dataType, Scalar(x), _) =>
      ScalarVariantRoundTrip(dataType.Number(), x, rest);
    case Variant(dataType, Array(xs), _) =>
      ArrayVariantRoundTrip(dataType.Number(), xs, rest);
  }

  // ----- DataValue

  lemma OptionalVariantRoundTrip(v: Option<Variant>, rest: Bytes)
    requires OptionalVariant(v).Ok?
    ensures var present := v.Some? && !v.value.NullVariant?;
            ReadOptionalVariant(present, OptionalVariant(v).value + rest)
            == Got(if present then Some(NormalVariant(v.value)) else None, rest)
  {
    if v.None? || v.value.NullVariant? {
      assert [] + rest == rest;
    } else {
      VariantRoundTrip(v.value, rest);
    }
  }

  lemma DataValueMaskBits(d: DataValue)
    ensures var m := DataValueMask(d);
            && Has(m, 0x01) == (d.value.Some? && !d.value.value.NullVariant?)
            && Has(m, 0x02) == d.statusCode.Some?
            && Has(m, 0x04) == d.sourceTimestamp.Some?
            && Has(m, 0x08) == d.serverTimestamp.Some?
            && Has(m, 0x10) == d.sourcePicoseconds.Some?
            && Has(m, 0x20) == d.serverPicoseconds.Some?
  {
    var low := Flag(d.value.Some? && !d.value.value.NullVariant?, 0x01) + Flag(d.statusCode.Some?, 0x02)
               + Flag(d.sourceTimestamp.Some?, 0x04);
    ByteBits(low, d.serverTimestamp.Some?, d.sourcePicoseconds.Some?, d.serverPicoseconds.Some?, false, false);
  }

  lemma DataValueRoundTrip(dv: Option<DataValue>, rest: Bytes)
    requires DataValueBytes(dv).Ok?
    ensures ReadDataValue(DataValueBytes(dv).value + rest) == Got(NormalDataValue(dv), rest)
  {
    match dv
    case None =>
      EmptyDataValueRoundTrip(rest);
    case Some(d) =>
      hide ReadDataValue, DataValueBytes;
      PresentDataValueRoundTrip(d, rest);
  }

  lemma EmptyDataValueRoundTrip(rest: Bytes)
    ensures ReadDataValue([0] + rest) == Got(EMPTY_DATA_VALUE, rest)
  {
    assert !Has(0, 0x01) && !Has(0, 0x02) && !Has(0, 0x04) && !Has(0, 0x08) && !Has(0, 0x10) && !Has(0, 0x20);
    hide Has, ReadUnsigned, ReadVariant, ReadDateTime;
    ReadOneByte(0, rest);
  }

  lemma PresentDataValueRoundTrip(d: DataValue, rest: Bytes)
    requires DataValueBytes(Some(d)).Ok?
    ensures ReadDataValue(DataValueBytes(Some(d)).value + rest) == Got(NormalDataValue(Some(d)), rest)
  {
    DataValueMaskBits(d);
    hide DataValueMask, OptionalVariant, ReadOptionalVariant, OptionalUnsigned, ReadOptionalUnsigned, OptionalDateTime,
         ReadOptionalDateTime, ReadUnsigned, NormalVariant, NormalStatus, Has;
    var status, mask := NormalStatus(d.statusCode), DataValueMask(d);
    StatusStaysPresent(d.statusCode);
    var b1 := OptionalVariant(d.value).value;
    var b2 := OptionalUnsigned(status, 4).value;
    var b3 := OptionalDateTime(d.sourceTimestamp).value;
    var b4 := OptionalDateTime(d.serverTimestamp).value;
    var b5 := OptionalUnsigned(d.sourcePicoseconds, 2).value;
    var b6 := OptionalUnsigned(d.serverPicoseconds, 2).value;
    var t5 := b6 + rest;
    var t4 := b5 + t5;
    var t3 := b4 + t4;
    var t2 := b3 + t3;
    var t1 := b2 + t2;
    var t0 := b1 + t1;
    assert DataValueBytes(Some(d)).value + rest == [mask] + t0 by {
      Regroup6([mask] + b1, b2, b3, b4, b5, b6, rest);
      Regroup([mask], b1, t1);
    }
    ReadOneByte(mask, t0);
    OptionalVariantRoundTrip(d.value, t1);
    assert ReadOptionalVariant(Has(mask, 0x01), t0) == Got(NormalDataValue(Some(d)).value, t1);
    OptionalUnsignedRoundTrip(status, 4, t2);
    assert ReadOptionalUnsigned(Has(mask, 0x02), t1, 4) == Got(status, t2);
    OptionalDateTimeRoundTrip(d.sourceTimestamp, t3);
    OptionalDateTimeRoundTrip(d.serverTimestamp, t4);
    assert ReadOptionalDateTime(Has(mask, 0x04), t2) == Got(d.sourceTimestamp, t3);
    assert ReadOptionalDateTime(Has(mask, 0x08), t3) == Got(d.serverTimestamp, t4);
    OptionalUnsignedRoundTrip(d.sourcePicoseconds, 2, t5);
    OptionalUnsignedRoundTrip(d.serverPicoseconds, 2, rest);
  }

  lemma StatusStaysPresent(s: Option<int>)
    ensures NormalStatus(s).Some? == s.Some?
  {
  }

  // ----- DataSetMessage

  lemma FieldRoundTrip(e: FieldEncoding, f: Field, rest: Bytes)
    requires e != AsRawData && FieldBytes(e, f).Ok?
    ensures ReadField(e, FieldBytes(e, f).value + rest) == Got(NormalField(f), rest)
  {
    if e == AsVariant {
      VariantRoundTrip(f.variant, rest);
    } else {
      DataValueRoundTrip(f.dataValue, rest);
    }
  }

  lemma NamedFieldRoundTrip(e: FieldEncoding, name: Text, f: Field, rest: Bytes)
    requires e != AsRawData && NamedFieldBytes(e, name, f).Ok?
    ensures ReadNamedField(e, NamedFieldBytes(e, name, f).value + rest) == Got((name, NormalField(f)), rest)
  {
    var body := FieldBytes(e, f).value;
    var tail := name + (body + rest);
    assert LE(|name|, 2) + name + body + rest == LE(|name|, 2) + tail;
    UnsignedRoundTrip(|name|, 2, tail);
    assert tail[..|name|] == name && tail[|name|..] == body + rest;
    FieldRoundTrip(e, f, rest);
  }

  lemma NextField(all: Fields, k: nat)
    requires k < |all|
    ensures JsMap.Set(NormalFields(all)[..k], all[k].0, NormalField(all[k].1)) == NormalFields(all)[..k + 1]
  {
    hide NormalField;
    var done := NormalFields(all)[..k];
    assert forall i :: 0 <= i < k ==> done[i].0 == all[i].0 != all[k].0;
    assert JsMap.IndexOf(done, all[k].0) == k;
  }

  /** The fields read so far are an initial part; each further field has a new name and goes to the end. */
  lemma {:induction false} NamedFieldsRoundTrip(e: FieldEncoding, all: Fields, k: nat, rest: Bytes)
    requires e != AsRawData && k <= |all| && NamedFieldsBytes(e, all[k..]).Ok?
    ensures ReadNamedFields(e, NamedFieldsBytes(e, all[k..]).value + rest, |all| - k, NormalFields(all)[..k])
         == Got(NormalFields(all), rest)
    decreases |all| - k
  {
    hide ReadNamedField, NamedFieldBytes, NormalField, JsMap.Set;
    var done := NormalFields(all)[..k];
    if k == |all| {
      assert [] + rest == rest;
      assert done == NormalFields(all);
    } else {
      var (name, f) := all[k];
      assert all[k..][0] == (name, f) && all[k..][1..] == all[k + 1..];
      var first, tail := NamedFieldBytes(e, name, f).value, NamedFieldsBytes(e, all[k + 1..]).value;
      assert first + tail + rest == first + (tail + rest);
      NamedFieldRoundTrip(e, name, f, tail + rest);
      NextField(all, k);
      NamedFieldsRoundTrip(e, all, k + 1, rest);
    }
  }

  lemma AllFieldsRoundTrip(e: FieldEncoding, fs: Fields, rest: Bytes)
    requires e != AsRawData && NamedFieldsBytes(e, fs).Ok?
    ensures ReadNamedFields(e, NamedFieldsBytes(e, fs).value + rest, |fs|, []) == Got(NormalFields(fs), rest)
  {
    hide ReadNamedFields, NamedFieldsBytes, NormalFields;
    assert fs[0..] == fs && NormalFields(fs)[..0] == [];
    NamedFieldsRoundTrip(e, fs, 0, rest);
  }

  lemma FieldsRoundTrip(m: DataSetMessage, rest: Bytes)
    requires m.fieldEncoding != AsRawData && FieldsBytes(m).Ok?
    ensures ReadFields(m.fieldEncoding, m.messageType, FieldsBytes(m).value + rest)
         == Got(NormalDataSetMessage(m).fields, rest)
  {
    hide ReadNamedFields, NamedFieldsBytes, NormalField, Unsigned, ReadUnsigned;
    if m.messageType == KeepAlive {
      assert [] + rest == rest;
    } else {
      var count, body := Unsigned(|m.fields|, 2).value, NamedFieldsBytes(m.fieldEncoding, m.fields).value;
      Regroup(count, body, rest);
      UnsignedRoundTrip(|m.fields|, 2, body + rest);
      AllFieldsRoundTrip(m.fieldEncoding, m.fields, rest);
    }
  }

  lemma DataSetFlagsBits(m: DataSetMessage)
    ensures var f1, f2 := DataSetFlags1(m), DataSetFlags2(m);
            && Has(f1, 0x01) == m.valid
            && FieldEncodingOf(f1 / 2 % 4) == m.fieldEncoding
            && Has(f1, 0x08) == m.sequenceNumber.Some?
            && Has(f1, 0x10) == m.status.Some?
            && Has(f1, 0x20) == m.major.Some?
            && Has(f1, 0x40) == m.minor.Some?
            && Has(f1, 0x80) == (f2 != 0)
            && MessageTypeOf(f2 % 16) == m.messageType
            && Has(f2, 0x10) == m.timestamp.Some?
            && Has(f2, 0x20) == (m.timestamp.Some? && m.picoseconds.Some?)
  {
    var f2 := DataSetFlags2(m);
    var low := Flag(m.valid, 1) + FieldEncodingBits(m.fieldEncoding) * 2;
    ByteBits(low, m.sequenceNumber.Some?, m.status.Some?, m.major.Some?, m.minor.Some?, f2 != 0);
    LowBits(DataSetFlags1(m), m.valid, FieldEncodingBits(m.fieldEncoding));
    ByteBits(MessageTypeBits(m.messageType), false, m.timestamp.Some?, m.picoseconds.Some? && m.timestamp.Some?,
             false, false);
    LowNibble(m);
  }

  lemma LowBits(f: int, valid: bool, encoding: int)
    requires 0 <= encoding < 4 && f % 8 == Flag(valid, 1) + encoding * 2
    ensures f / 2 % 4 == encoding && Has(f, 1) == valid
  {
  }

  lemma LowNibble(m: DataSetMessage)
    ensures DataSetFlags2(m) % 16 == MessageTypeBits(m.messageType)
  {
  }

  lemma DataSetFlagsRoundTrip(m: DataSetMessage, rest: Bytes)
    ensures var f1, f2 := DataSetFlags1(m), DataSetFlags2(m);
            ReadDataSetFlags([f1] + ((if f2 != 0 then [f2] else []) + rest)) == Got((f1, f2), rest)
  {
    DataSetFlagsBits(m);
    hide DataSetFlags1, DataSetFlags2, Has, ReadUnsigned;
    var f1, f2 := DataSetFlags1(m), DataSetFlags2(m);
    var s1 := (if f2 != 0 then [f2] else []) + rest;
    ReadOneByte(f1, s1);
    if f2 != 0 {
      ReadOneByte(f2, rest);
    } else {
      assert s1 == rest;
    }
  }

  lemma DataSetHeaderRoundTrip(m: DataSetMessage, rest: Bytes)
    requires DataSetHeaderBytes(m).Ok?
    ensures ReadDataSetHeader(DataSetHeaderBytes(m).value + rest) == Got(NormalDataSetMessage(m).(fields := []), rest)
  {
    DataSetFlagsBits(m);
    hide DataSetFlags1, DataSetFlags2, Has, FieldEncodingOf, MessageTypeOf, OptionalUnsigned, ReadOptionalUnsigned,
         OptionalDateTime, ReadOptionalDateTime, ReadDataSetFlags, NormalFields;
    var f1, f2 := DataSetFlags1(m), DataSetFlags2(m);
    var pico := SentPicoseconds(m.timestamp, m.picoseconds);
    var b2 := if f2 != 0 then [f2] else [];
    var b3 := OptionalUnsigned(m.sequenceNumber, 2).value;
    var b4 := OptionalUnsigned(m.status, 2).value;
    var b5 := OptionalUnsigned(m.major, 4).value;
    var b6 := OptionalUnsigned(m.minor, 4).value;
    var b7 := OptionalDateTime(m.timestamp).value;
    var b8 := OptionalUnsigned(pico, 2).value;
    var t7 := b8 + rest;
    var t6 := b7 + t7;
    var t5 := b6 + t6;
    var t4 := b5 + t5;
    var t3 := b4 + t4;
    var t2 := b3 + t3;
    var t1 := b2 + t2;
    assert DataSetHeaderBytes(m).value == [f1] + b2 + (b3 + b4 + b5 + b6) + (b7 + b8);
    Regroup([f1] + b2 + (b3 + b4 + b5 + b6), b7 + b8, rest);
    Regroup(b7, b8, rest);
    Regroup([f1] + b2, b3 + b4 + b5 + b6, t6);
    Regroup(b3 + b4 + b5, b6, t6);
    Regroup(b3 + b4, b5, t5);
    Regroup(b3, b4, t4);
    Regroup([f1], b2, t2);
    DataSetFlagsRoundTrip(m, t2);
    OptionalUnsignedRoundTrip(m.sequenceNumber, 2, t3);
    OptionalUnsignedRoundTrip(m.status, 2, t4);
    OptionalUnsignedRoundTrip(m.major, 4, t5);
    OptionalUnsignedRoundTrip(m.minor, 4, t6);
    OptionalDateTimeRoundTrip(m.timestamp, t7);
    OptionalUnsignedRoundTrip(pico, 2, rest);
  }

  /** Every message that is not RawData reads back; a RawData message, whatever it holds, is refused. */
  lemma DataSetMessageRoundTrip(m: DataSetMessage, rest: Bytes)
    requires DataSetMessageBytes(m).Ok?
    ensures ReadDataSetMessage(DataSetMessageBytes(m).value + rest)
         == if m.fieldEncoding == AsRawData then Threw(RawDataNeedsMetadata) else Got(NormalDataSetMessage(m), rest)
  {
    var header, body := DataSetHeaderBytes(m).value, FieldsBytes(m).value;
    assert header + body + rest == header + (body + rest);
    DataSetHeaderRoundTrip(m, body + rest);
    if m.fieldEncoding != AsRawData {
      FieldsRoundTrip(m, rest);
    }
  }

  // ----- NetworkMessage header

  lemma PublisherIdRoundTrip(p: PublisherId, rest: Bytes)
    requires PublisherIdTypeBits(p).Ok? && PublisherIdBytes(p, PublisherIdTypeBits(p).value).Ok?
    ensures var bits := PublisherIdTypeBits(p).value;
            ReadPublisherId(bits, PublisherIdBytes(p, bits).value + rest) == Got(p, rest)
  {
    match p
    case StringId(text) => NullableTextRoundTrip(Some(text), rest);
    case BigIntId(n) => UnsignedRoundTrip(n, 8, rest);
    case NumberId(n) => UnsignedRoundTrip(n, PublisherIdWidth(PublisherIdTypeBits(p).value), rest);
  }

  lemma GroupHeaderRoundTrip(g: GroupHeader, rest: Bytes)
    requires GroupHeaderBytes(g).Ok?
    ensures ReadGroupHeader(GroupHeaderBytes(g).value + rest) == Got(NormalGroupHeader(g), rest)
  {
    var n := NormalGroupHeader(g);
    var (a, b, c, d) := (LE(n.writerGroupId.value, 2), LE(n.groupVersion.value, 4),
                         LE(n.networkMessageNumber.value, 2), LE(n.sequenceNumber.value, 2));
    assert a + b + c + d + rest == a + (b + (c + (d + rest)));
    UnsignedRoundTrip(n.writerGroupId.value, 2, b + (c + (d + rest)));
    UnsignedRoundTrip(n.groupVersion.value, 4, c + (d + rest));
    UnsignedRoundTrip(n.networkMessageNumber.value, 2, d + rest);
    UnsignedRoundTrip(n.sequenceNumber.value, 2, rest);
  }

  lemma {:induction false} UInt16sRoundTrip(ns: seq<int>, rest: Bytes)
    requires UInt16sBytes(ns).Ok?
    ensures ReadUInt16s(UInt16sBytes(ns).value + rest, |ns|) == Got(ns, rest)
  {
    if ns == [] {
      assert [] + rest == rest;
    } else {
      var first, tail := Unsigned(ns[0], 2).value, UInt16sBytes(ns[1..]).value;
      assert first + tail + rest == first + (tail + rest);
      hide Unsigned, ReadUnsigned;
      UnsignedRoundTrip(ns[0], 2, tail + rest);
      UInt16sRoundTrip(ns[1..], rest);
      assert ns == [ns[0]] + ns[1..];
    }
  }

  lemma WriterIdsRoundTrip(ids: seq<int>, rest: Bytes)
    requires WriterIdsBytes(ids).Ok?
    ensures ReadWriterIds(WriterIdsBytes(ids).value + rest) == Got(ids, rest)
  {
    var count, body := LE(|ids|, 1), UInt16sBytes(ids).value;
    assert count + body + rest == count + (body + rest);
    UnsignedRoundTrip(|ids|, 1, body + rest);
    UInt16sRoundTrip(ids, rest);
  }

  lemma FlagBits(nm: NetworkMessage)
    requires FlagsOf(nm).Ok?
    ensures var f := FlagsOf(nm).value;
            && f.uadp % 16 == UADP_VERSION
            && Has(f.uadp, 0x10) == nm.publisherId.Some?
            && Has(f.uadp, 0x20) == nm.groupHeader.Some?
            && Has(f.uadp, 0x40) == (nm.writerIds != [])
            && Has(f.uadp, 0x80) == (f.ext1 != 0)
            && f.ext1 % 8 == (if nm.publisherId.Some? then PublisherIdTypeBits(nm.publisherId.value).value else 0)
            && Has(f.ext1, 0x08) == nm.dataSetClassId.Some?
            && Has(f.ext1, 0x20) == nm.timestamp.Some?
            && Has(f.ext1, 0x40) == (nm.timestamp.Some? && nm.picoseconds.Some?)
            && Has(f.ext1, 0x80) == (f.ext2 != 0)
            && Has(f.ext2, 0x01) == nm.chunk.Some?
            && Has(f.ext2, 0x02) == nm.promotedFields
  {
    var f := FlagsOf(nm).value;
    var bits := if nm.publisherId.Some? then PublisherIdTypeBits(nm.publisherId.value).value else 0;
    ByteBits(bits, nm.dataSetClassId.Some?, false, nm.timestamp.Some?, nm.picoseconds.Some? && nm.timestamp.Some?,
             f.ext2 != 0);
    ByteBits(1, false, nm.publisherId.Some?, nm.groupHeader.Some?, |nm.writerIds| > 0, f.ext1 != 0);
    assert f.uadp % 16 == 1;
  }

  lemma FlagsRoundTrip(nm: NetworkMessage, rest: Bytes)
    requires FlagsOf(nm).Ok?
    ensures ReadFlags(FlagBytes(FlagsOf(nm).value) + rest) == Got(FlagsOf(nm).value, rest)
  {
    FlagBits(nm);
    var f := FlagsOf(nm).value;
    var b1 := if Has(f.uadp, 0x80) then [f.ext1] else [];
    var b2 := if Has(f.uadp, 0x80) && Has(f.ext1, 0x80) then [f.ext2] else [];
    assert FlagBytes(f) + rest == [f.uadp] + (b1 + (b2 + rest));
    ReadOneByte(f.uadp, b1 + (b2 + rest));
    if Has(f.uadp, 0x80) {
      ReadOneByte(f.ext1, b2 + rest);
      if Has(f.ext1, 0x80) {
        ReadOneByte(f.ext2, rest);
      } else {
        assert b2 + rest == rest;
      }
    } else {
      assert b1 + (b2 + rest) == rest;
    }
  }

  lemma OptionalPublisherIdRoundTrip(nm: NetworkMessage, rest: Bytes)
    requires FlagsOf(nm).Ok? && OptionalPublisherId(nm, FlagsOf(nm).value).Ok?
    ensures var f := FlagsOf(nm).value;
            ReadOptionalPublisherId(f, OptionalPublisherId(nm, f).value + rest) == Got(nm.publisherId, rest)
  {
    FlagBits(nm);
    PublisherIdBitsKnown(nm);
    hide Has, FlagsOf, PublisherIdTypeBits, PublisherIdBytes, ReadPublisherId;
    if nm.publisherId.Some? {
      PublisherIdRoundTrip(nm.publisherId.value, rest);
    } else {
      assert [] + rest == rest;
    }
  }

  lemma PublisherIdBitsKnown(nm: NetworkMessage)
    requires FlagsOf(nm).Ok?
    ensures nm.publisherId.Some? ==> PublisherIdTypeBits(nm.publisherId.value).Ok?
  {
  }

  lemma OptionalClassIdRoundTrip(nm: NetworkMessage, rest: Bytes)
    requires FlagsOf(nm).Ok?
    ensures OptionalClassId(nm).Ok?
    ensures ReadOptionalClassId(FlagsOf(nm).value, OptionalClassId(nm).value + rest)
         == Got(NormalNetworkMessage(nm).dataSetClassId, rest)
  {
    FlagBits(nm);
    hide Has, FlagsOf, Guid.GuidBytes, Guid.ReadGuid, NormalPayload;
    if nm.dataSetClassId.Some? {
      Guid.GuidRoundTrip(nm.dataSetClassId.value, rest);
    } else {
      assert [] + rest == rest;
    }
  }

  lemma OptionalGroupHeaderRoundTrip(nm: NetworkMessage, rest: Bytes)
    requires FlagsOf(nm).Ok? && OptionalGroupHeader(nm).Ok?
    ensures ReadOptionalGroupHeader(FlagsOf(nm).value, OptionalGroupHeader(nm).value + rest)
         == Got(NormalNetworkMessage(nm).groupHeader, rest)
  {
    FlagBits(nm);
    hide Has, FlagsOf, GroupHeaderBytes, ReadGroupHeader, NormalPayload;
    if nm.groupHeader.Some? {
      GroupHeaderRoundTrip(nm.groupHeader.value, rest);
    } else {
      assert [] + rest == rest;
    }
  }

  lemma OptionalWriterIdsRoundTrip(nm: NetworkMessage, rest: Bytes)
    requires FlagsOf(nm).Ok? && OptionalWriterIds(nm).Ok?
    ensures ReadOptionalWriterIds(FlagsOf(nm).value, OptionalWriterIds(nm).value + rest) == Got(nm.writerIds, rest)
  {
    FlagBits(nm);
    hide Has, FlagsOf, WriterIdsBytes, ReadWriterIds;
    if nm.writerIds != [] {
      WriterIdsRoundTrip(nm.writerIds, rest);
    } else {
      assert [] + rest == rest;
    }
  }

  lemma HeaderFieldsRoundTrip(nm: NetworkMessage, rest: Bytes)
    requires FlagsOf(nm).Ok? && HeaderFieldsBytes(nm, FlagsOf(nm).value).Ok?
    ensures var f := FlagsOf(nm).value;
            ReadHeaderFields(f, HeaderFieldsBytes(nm, f).value + rest)
            == Got(NormalNetworkMessage(nm).(promotedFields := false, chunk := None, payload := []), rest)
  {
    FlagBits(nm);
    hide FlagsOf, Has, OptionalPublisherId, OptionalClassId, OptionalGroupHeader, OptionalWriterIds, OptionalUnsigned,
         OptionalDateTime, ReadOptionalPublisherId, ReadOptionalClassId, ReadOptionalGroupHeader, ReadOptionalWriterIds,
         ReadOptionalUnsigned, ReadOptionalDateTime;
    var f := FlagsOf(nm).value;
    var pico := SentPicoseconds(nm.timestamp, nm.picoseconds);
    var b1 := OptionalPublisherId(nm, f).value;
    var b2 := OptionalClassId(nm).value;
    var b3 := OptionalGroupHeader(nm).value;
    var b4 := OptionalWriterIds(nm).value;
    var b5 := OptionalDateTime(nm.timestamp).value;
    var b6 := OptionalUnsigned(pico, 2).value;
    var t5 := b6 + rest;
    var t4 := b5 + t5;
    var t3 := b4 + t4;
    var t2 := b3 + t3;
    var t1 := b2 + t2;
    assert HeaderFieldsBytes(nm, f).value == (b1 + b2 + b3) + b4 + (b5 + b6);
    Regroup(b1 + b2 + b3 + b4, b5 + b6, rest);
    Regroup(b5, b6, rest);
    Regroup(b1 + b2 + b3, b4, t4);
    Regroup(b1 + b2, b3, t3);
    Regroup(b1, b2, t2);
    OptionalPublisherIdRoundTrip(nm, t1);
    OptionalClassIdRoundTrip(nm, t2);
    OptionalGroupHeaderRoundTrip(nm, t3);
    OptionalWriterIdsRoundTrip(nm, t4);
    OptionalDateTimeRoundTrip(nm.timestamp, t5);
    OptionalUnsignedRoundTrip(pico, 2, rest);
  }

  // ----- NetworkMessage body

  predicate NoRawData(ms: seq<DataSetMessage>) {
    forall m :: m in ms ==> m.fieldEncoding != AsRawData
  }

  lemma {:induction false} PayloadBuffersLength(ms: seq<DataSetMessage>)
    requires PayloadBuffers(ms).Ok?
    ensures |PayloadBuffers(ms).value| == |ms|
  {
    if ms != [] {
      PayloadBuffersLength(ms[1..]);
    }
  }

  lemma {:induction false} SizedRoundTrip(ms: seq<DataSetMessage>, rest: Bytes)
    requires PayloadBuffers(ms).Ok?
    ensures var bs := PayloadBuffers(ms).value;
            ReadSized(Concat(bs) + rest, Sizes(bs))
            == if NoRawData(ms) then Got(NormalPayload(ms), rest) else Threw(RawDataNeedsMetadata)
  {
    hide DataSetMessageBytes, ReadDataSetMessage, NormalDataSetMessage;
    var bs := PayloadBuffers(ms).value;
    if ms == [] {
      assert [] + rest == rest;
    } else {
      var b, tail := bs[0], Concat(bs[1..]);
      assert bs[1..] == PayloadBuffers(ms[1..]).value;
      assert Sizes(bs)[1..] == Sizes(bs[1..]);
      Regroup(b, tail, rest);
      ReadBytesRoundTrip(b, tail + rest);
      DataSetMessageRoundTrip(ms[0], []);
      assert b + [] == b;
      SizedRoundTrip(ms[1..], rest);
      assert ms == [ms[0]] + ms[1..];
      assert NormalPayload(ms) == [NormalDataSetMessage(ms[0])] + NormalPayload(ms[1..]);
    }
  }

  /** The messages the decoder expects after a payload header with these ids are those the encoder wrote. */
  predicate CountsAgree(nm: NetworkMessage) {
    if |nm.writerIds| > 1 then |nm.payload| == |nm.writerIds| else |nm.payload| <= 1
  }

  lemma SinglePayload(nm: NetworkMessage)
    requires |nm.payload| == 1 && BodyBytes(nm).Ok?
    ensures DataSetMessageBytes(nm.payload[0]).Ok?
    ensures BodyBytes(nm).value == DataSetMessageBytes(nm.payload[0]).value != []
  {
    hide DataSetMessageBytes;
    var first := DataSetMessageBytes(nm.payload[0]);
    var bs := PayloadBuffers(nm.payload).value;
    assert nm.payload[1..] == [] && PayloadBuffers(nm.payload[1..]) == Ok([]);
    assert first.Ok? && bs == [first.value];
    assert bs[1..] == [];
    assert Concat(bs) == bs[0] + Concat(bs[1..]) == bs[0];
    NotEmpty(nm.payload[0]);
  }

  lemma NotEmpty(m: DataSetMessage)
    requires DataSetMessageBytes(m).Ok?
    ensures DataSetMessageBytes(m).value != []
  {
  }

  lemma BodyRoundTrip(nm: NetworkMessage)
    requires CountsAgree(nm) && BodyBytes(nm).Ok?
    ensures var p := ReadPayload(nm.writerIds, BodyBytes(nm).value);
            p == if NoRawData(nm.payload) then Got(NormalPayload(nm.payload), []) else Threw(RawDataNeedsMetadata)
  {
    if nm.payload == [] {
      EmptyBody(nm);
      assert NormalPayload(nm.payload) == [];
    } else {
      BodyIgnoresSuffix(nm, []);
      assert BodyBytes(nm).value + [] == BodyBytes(nm).value;
    }
  }

  /** How many messages the decoder can give, from the number of ids alone. */
  lemma {:induction false} ReadSizedCount(s: Bytes, sizes: seq<int>)
    requires forall i :: 0 <= i < |sizes| ==> sizes[i] >= 0
    ensures ReadSized(s, sizes).Got? ==> |ReadSized(s, sizes).value| == |sizes|
  {
    if sizes != [] && |s| >= sizes[0] {
      ReadSizedCount(s[sizes[0]..], sizes[1..]);
    }
  }

  lemma ReadPayloadCount(ids: seq<int>, s: Bytes)
    ensures var p := ReadPayload(ids, s);
            p.Got? ==> if |ids| > 1 then |p.value| == |ids| else |p.value| <= 1
  {
    if |ids| > 1 && ReadUInt16s(s, |ids|).Got? {
      ReadUInt16sShape(s, |ids|);
      ReadSizedCount(ReadUInt16s(s, |ids|).rest, ReadUInt16s(s, |ids|).value);
    }
  }

  // ----- the whole message

  /** What the decoder does with an encoded header followed by anything. */
  lemma HeaderRoundTrip(nm: NetworkMessage, rest: Bytes)
    requires HeaderBytes(nm).Ok? && !nm.promotedFields
    ensures ReadNetworkMessage(HeaderBytes(nm).value + rest)
         == var header := NormalNetworkMessage(nm).(promotedFields := false, chunk := None, payload := []);
            if nm.chunk.Some? then
              match ReadChunk(rest)
              case Got(c, after) => Got(header.(chunk := Some(c)), after)
              case Threw(e) => Threw(e)
            else
              match ReadPayload(nm.writerIds, rest)
              case Got(payload, after) => Got(header.(payload := payload), after)
              case Threw(e) => Threw(e)
  {
    FlagBits(nm);
    hide FlagsOf, Has, FlagBytes, HeaderFieldsBytes, ReadFlags, ReadHeaderFields, ReadChunk, ReadPayload,
         NormalNetworkMessage;
    var f := FlagsOf(nm).value;
    var fields := HeaderFieldsBytes(nm, f).value;
    assert FlagBytes(f) + fields + rest == FlagBytes(f) + (fields + rest);
    FlagsRoundTrip(nm, fields + rest);
    HeaderFieldsRoundTrip(nm, rest);
  }

  /**
   The round trip, and exactly when it holds: whatever the encoder accepts reads back as its normal form
   if and only if no message is RawData and the numbers of ids and messages agree.
   */
  lemma NetworkMessageRoundTrip(nm: NetworkMessage)
    requires WholeBytes(nm).Ok? && nm.chunk.None?
    ensures Decode(WholeBytes(nm).value) == Ok(NormalNetworkMessage(nm))
       <==> CountsAgree(nm) && NoRawData(nm.payload)
  {
    hide ReadNetworkMessage, HeaderBytes, BodyBytes, ReadPayload, NormalDataSetMessage;
    var body := BodyBytes(nm).value;
    HeaderRoundTrip(nm, body);
    if CountsAgree(nm) {
      BodyRoundTrip(nm);
    } else {
      ReadPayloadCount(nm.writerIds, body);
    }
  }

  /** A payload that is not empty is read from its own bytes, whatever follows. */
  lemma BodyIgnoresSuffix(nm: NetworkMessage, suffix: Bytes)
    requires CountsAgree(nm) && BodyBytes(nm).Ok? && nm.payload != []
    ensures ReadPayload(nm.writerIds, BodyBytes(nm).value + suffix)
         == if NoRawData(nm.payload) then Got(NormalPayload(nm.payload), suffix) else Threw(RawDataNeedsMetadata)
  {
    hide DataSetMessageBytes, ReadDataSetMessage, UInt16sBytes, ReadUInt16s, ReadSized, NormalDataSetMessage;
    var bs := PayloadBuffers(nm.payload).value;
    var body := BodyBytes(nm).value;
    PayloadBuffersLength(nm.payload);
    if |nm.writerIds| > 1 {
      var sizes := UInt16sBytes(Sizes(bs)).value;
      assert body + suffix == sizes + (Concat(bs) + suffix);
      UInt16sRoundTrip(Sizes(bs), Concat(bs) + suffix);
      SizedRoundTrip(nm.payload, suffix);
    } else {
      SinglePayload(nm);
      DataSetMessageRoundTrip(nm.payload[0], suffix);
      assert NormalPayload(nm.payload) == [NormalDataSetMessage(nm.payload[0])];
      assert nm.payload == [nm.payload[0]];
    }
  }

  /** Without a payload and without several ids, anything that follows is taken for a message. */
  lemma SuffixReadAsMessage(ids: seq<int>, suffix: Bytes)
    requires |ids| <= 1 && suffix != []
    ensures var p := ReadPayload(ids, suffix); p.Got? ==> |p.value| == 1
  {
    hide ReadDataSetMessage;
  }

  /**
   A message followed by other bytes reads the same, and the other bytes are left, if and only if it would
   be read back at all and there is a DataSetMessage in it, or nothing follows.
   */
  lemma NetworkMessageIgnoresSuffix(nm: NetworkMessage, suffix: Bytes)
    requires WholeBytes(nm).Ok? && nm.chunk.None?
    ensures ReadNetworkMessage(WholeBytes(nm).value + suffix) == Got(NormalNetworkMessage(nm), suffix)
       <==> CountsAgree(nm) && NoRawData(nm.payload) && (nm.payload != [] || suffix == [])
  {
    hide ReadNetworkMessage, HeaderBytes, BodyBytes, ReadPayload, NormalDataSetMessage;
    var header, body := HeaderBytes(nm).value, BodyBytes(nm).value;
    assert header + body + suffix == header + (body + suffix);
    HeaderRoundTrip(nm, body + suffix);
    if !CountsAgree(nm) {
      ReadPayloadCount(nm.writerIds, body + suffix);
    } else if nm.payload != [] {
      BodyIgnoresSuffix(nm, suffix);
    } else {
      EmptyBody(nm);
      if suffix == [] {
        assert body + suffix == body;
        BodyRoundTrip(nm);
      } else {
        assert body + suffix == suffix;
        SuffixReadAsMessage(nm.writerIds, suffix);
      }
    }
  }

  lemma EmptyBody(nm: NetworkMessage)
    requires nm.payload == []
    ensures BodyBytes(nm) == Ok([])
  {
    var none: Bytes := [];
    assert PayloadBuffers(nm.payload) == Ok([]) && Concat([]) == none && none + none == none;
  }
}
