/**
 Encoding what was decoded: the normal form has the same bytes as the message it came from, with one
 exception, an empty array whose type number is a multiple of 64 and so reaches the wire as type 0.
 */
module UadpReencode {
  import opened Wrappers
  import opened Wire
  import opened UadpModel
  import opened UadpSpec
  import opened UadpRoundTrip
  import Guid

  predicate VariantReencodes(v: Variant) {
    v.NullVariant? || v.dataType.Number() % 64 != 0
  }

  predicate FieldReencodes(f: Field) {
    match f
    case VariantField(v) => VariantReencodes(v)
    case DataValueField(dv) => dv.None? || dv.value.value.None? || VariantReencodes(dv.value.value.value)
  }

  predicate FieldsReencode(fs: seq<(Text, Field)>) {
    forall i :: 0 <= i < |fs| ==> FieldReencodes(fs[i].1)
  }

  predicate MessageReencodes(m: DataSetMessage) {
    m.messageType == KeepAlive || FieldsReencode(m.fields)
  }

  predicate Reencodes(ms: seq<DataSetMessage>) {
    forall m :: m in ms ==> MessageReencodes(m)
  }

  /** The bytes again, or the error a type of 0 raises. */
  function Again(same: bool, e: Encoded): Encoded {
    if same then e else Err(UnknownType)
  }

  lemma ScalarAgain(t: int, v: Value)
    requires ScalarBytes(t, v).Ok?
    ensures ScalarBytes(t, NormalValue(t, v)) == ScalarBytes(t, v)
  {
    hide Guid.GuidBytes, Guid.Upper, Guid.IsUuid, LE, Signed, Unsigned, NullableText, DateTime;
    if t == 14 {
      Guid.GuidBytesOfUpper(v.guid);
    } else if t == 19 {
      assert v.n % 0x1_0000_0000 % 0x1_0000_0000 == v.n % 0x1_0000_0000;
    } else {
      assert NormalValue(t, v) == v;
    }
  }

  lemma {:induction false} ScalarsAgain(t: int, vs: seq<Value>)
    requires ScalarsBytes(t, vs).Ok?
    ensures ScalarsBytes(t, NormalValues(t, vs)) == ScalarsBytes(t, vs)
  {
    hide ScalarBytes, NormalValue;
    if vs != [] {
      ScalarAgain(t, vs[0]);
      ScalarsAgain(t, vs[1..]);
      assert NormalValues(t, vs)[1..] == NormalValues(t, vs[1..]);
    } else {
      assert NormalValues(t, vs) == [];
    }
  }

  lemma VariantAgain(v: Variant)
    requires VariantBytes(v).Ok?
    ensures VariantBytes(NormalVariant(v)) == Again(VariantReencodes(v), VariantBytes(v))
  {
    hide ScalarBytes, ScalarsBytes, NormalValue, NormalValues, Signed, TypeRef.Number;
    match v
    case NullVariant =>
    case Variant(dataType, content, _) =>
      var t := dataType.Number();
      NumberOfOrdinal(t % 64);
      SmallType(t, content);
      match content {
        case Scalar(x) => ScalarAgain(t, x);
        case Array(xs) =>
          ScalarsAgain(t, xs);
          NormalValuesLength(t, xs);
          if xs == [] {
            EmptyScalars(t);
            EmptyScalars(t % 64);
          }
      }
  }

  lemma NumberOfOrdinal(k: int)
    ensures Ordinal(k).Number() == k
  {
  }

  lemma NormalValuesLength(t: int, vs: seq<Value>)
    ensures |NormalValues(t, vs)| == |vs|
  {
  }

  lemma EmptyScalars(t: int)
    ensures ScalarsBytes(t, []) == Ok([]) && NormalValues(t, []) == []
  {
  }

  /** A type that encoded some scalar is one of the sixteen, so the wire keeps it. */
  lemma SmallType(t: int, c: Content)
    ensures c.Scalar? && ScalarBytes(t, c.value).Ok? ==> 0 < t < 20
    ensures c.Array? && c.values != [] && ScalarsBytes(t, c.values).Ok? ==> 0 < t < 20
  {
    if c.Scalar? && ScalarBytes(t, c.value).Ok? {
      SupportedTypes(t, c.value);
    } else if c.Array? && c.values != [] && ScalarsBytes(t, c.values).Ok? {
      SupportedElements(t, c.values);
    }
  }

  lemma DataValueAgain(dv: Option<DataValue>)
    requires DataValueBytes(dv).Ok?
    ensures DataValueBytes(Some(NormalDataValue(dv))) == Again(FieldReencodes(DataValueField(dv)), DataValueBytes(dv))
  {
    match dv
    case None =>
      var none: Bytes := [];
      assert [0] + none + none + none + none + none + none == [0];
      assert DataValueMask(EMPTY_DATA_VALUE) == 0;
    case Some(d) =>
      hide VariantBytes, OptionalUnsigned, OptionalDateTime, NormalVariant, VariantReencodes;
      var n := NormalDataValue(dv);
      StatusAgain(d.statusCode);
      if d.value.Some? && !d.value.value.NullVariant? {
        VariantAgain(d.value.value);
        NormalVariantNotNull(d.value.value);
      } else if d.value.Some? {
        NullReencodes();
      }
  }

  lemma NullReencodes()
    ensures VariantReencodes(NullVariant)
  {
  }

  lemma NormalVariantNotNull(v: Variant)
    requires v.Variant?
    ensures NormalVariant(v).Variant?
  {
  }

  lemma StatusAgain(s: Option<int>)
    ensures NormalStatus(NormalStatus(s)) == NormalStatus(s) && NormalStatus(s).Some? == s.Some?
  {
  }

  lemma FieldAgain(e: FieldEncoding, f: Field)
    requires FieldBytes(e, f).Ok?
    ensures FieldBytes(e, NormalField(f)) == Again(FieldReencodes(f), FieldBytes(e, f))
  {
    hide VariantBytes, DataValueBytes, ScalarBytes, NormalValue, NormalDataValue, TypeRef.Number;
    match f
    case VariantField(v) =>
      if e == AsRawData {
        var t := v.dataType.Number();
        SupportedTypes(t, v.content.value);
        NumberOfOrdinal(t % 64);
        ScalarAgain(t, v.content.value);
      } else {
        VariantAgain(v);
      }
    case DataValueField(dv) => DataValueAgain(dv);
  }

  lemma NamedFieldAgain(e: FieldEncoding, name: Text, f: Field)
    requires NamedFieldBytes(e, name, f).Ok?
    ensures NamedFieldBytes(e, name, NormalField(f)) == Again(FieldReencodes(f), NamedFieldBytes(e, name, f))
  {
    hide FieldBytes, FieldReencodes, NormalField;
    FieldAgain(e, f);
  }

  lemma {:induction false} NamedFieldsAgain(e: FieldEncoding, fs: Fields)
    requires NamedFieldsBytes(e, fs).Ok?
    ensures NamedFieldsBytes(e, NormalFields(fs)) == Again(FieldsReencode(fs), NamedFieldsBytes(e, fs))
  {
    hide NamedFieldBytes, FieldReencodes, NormalField;
    if fs != [] {
      NamedFieldAgain(e, fs[0].0, fs[0].1);
      NamedFieldsAgain(e, fs[1..]);
      assert NormalFields(fs)[1..] == NormalFields(fs[1..]);
      assert fs == [fs[0]] + fs[1..];
    }
  }

  lemma DataSetMessageAgain(m: DataSetMessage)
    requires DataSetMessageBytes(m).Ok?
    ensures DataSetMessageBytes(NormalDataSetMessage(m)) == Again(MessageReencodes(m), DataSetMessageBytes(m))
  {
    DataSetHeaderAgain(m);
    hide DataSetHeaderBytes, NamedFieldsBytes, FieldsReencode, NormalFields, Unsigned;
    if m.messageType != KeepAlive {
      NamedFieldsAgain(m.fieldEncoding, m.fields);
      NormalFieldsLength(m.fields);
    }
  }

  lemma NormalFieldsLength(fs: Fields)
    ensures |NormalFields(fs)| == |fs|
  {
  }

  lemma DataSetHeaderAgain(m: DataSetMessage)
    ensures DataSetHeaderBytes(NormalDataSetMessage(m)) == DataSetHeaderBytes(m)
  {
    hide OptionalUnsigned, OptionalDateTime, NormalFields;
    assert DataSetFlagBytes(NormalDataSetMessage(m)) == DataSetFlagBytes(m);
  }

  lemma {:induction false} PayloadAgain(ms: seq<DataSetMessage>)
    requires PayloadBuffers(ms).Ok?
    ensures PayloadBuffers(NormalPayload(ms))
         == if Reencodes(ms) then PayloadBuffers(ms) else Err(UnknownType)
  {
    hide DataSetMessageBytes, NormalDataSetMessage, MessageReencodes;
    if ms != [] {
      DataSetMessageAgain(ms[0]);
      PayloadAgain(ms[1..]);
      assert NormalPayload(ms)[1..] == NormalPayload(ms[1..]);
      assert ms == [ms[0]] + ms[1..];
    } else {
      assert NormalPayload(ms) == [];
    }
  }

  lemma HeaderAgain(nm: NetworkMessage)
    requires HeaderBytes(nm).Ok?
    ensures HeaderBytes(NormalNetworkMessage(nm)) == HeaderBytes(nm)
  {
    hide NormalPayload, OptionalDateTime, OptionalUnsigned, PublisherIdBytes, WriterIdsBytes, Unsigned,
         Guid.GuidBytes, Guid.Upper, Guid.IsUuid;
    var n := NormalNetworkMessage(nm);
    assert FlagsOf(n) == FlagsOf(nm);
    if nm.dataSetClassId.Some? {
      Guid.GuidBytesOfUpper(nm.dataSetClassId.value);
    }
    assert OriginBytes(n, FlagsOf(nm).value) == OriginBytes(nm, FlagsOf(nm).value);
  }

  /** Re-encoding a decoded message gives the same bytes, exactly when no empty array lost its type. */
  lemma NetworkMessageAgain(nm: NetworkMessage)
    requires WholeBytes(nm).Ok?
    ensures WholeBytes(NormalNetworkMessage(nm)) == Again(Reencodes(nm.payload), WholeBytes(nm))
  {
    hide HeaderBytes, PayloadBuffers, NormalPayload, Reencodes, UInt16sBytes, Concat, Guid.Upper, Guid.IsUuid;
    HeaderAgain(nm);
    PayloadAgain(nm.payload);
  }

  /** The same of what the decoder returned: its message is written as the bytes it was read from. */
  lemma DecodedAgain(nm: NetworkMessage, m: NetworkMessage)
    requires WholeBytes(nm).Ok? && nm.chunk.None? && CountsAgree(nm) && NoRawData(nm.payload)
    requires Decode(WholeBytes(nm).value) == Ok(m)
    ensures WholeBytes(m) == Again(Reencodes(nm.payload), WholeBytes(nm))
  {
    hide WholeBytes, Decode, NormalNetworkMessage, CountsAgree, NoRawData, Reencodes, Again;
    NetworkMessageRoundTrip(nm);
    NetworkMessageAgain(nm);
  }

  /** The exception is real: type number 64, no elements. */
  lemma EmptyArrayOfType64()
    ensures var v := Variant(Ordinal(64), Array([]), None);
            && VariantBytes(v) == Ok([0x40, 0, 0, 0, 0])
            && ReadVariant([0x40, 0, 0, 0, 0]) == Got(Variant(Ordinal(0), Array([]), None), [])
            && VariantBytes(Variant(Ordinal(0), Array([]), None)) == Err(UnknownType)
  {
    var v := Variant(Ordinal(64), Array([]), None);
    assert VariantBytes(Variant(Ordinal(0), Array([]), None)) == Err(UnknownType);
    assert LE(0, 4) == [0, 0, 0, 0] && Pow256(4) == 0x1_0000_0000;
    EmptyScalars(64);
    assert [0x40] + [0, 0, 0, 0] + [] == [0x40, 0, 0, 0, 0];
    VariantRoundTrip(v, []);
    hide ReadVariant, VariantBytes;
    assert VariantBytes(v).value + [] == [0x40, 0, 0, 0, 0];
  }
}
