/** One value of every built-in type, byte by byte, and the other shapes a field can have. */
module UadpTypes {
  import opened Wrappers
  import opened Wire
  import opened UadpModel
  import opened UadpSpec
  import opened UadpVectors
  import Guid

  /** A scalar behind its type number. */
  lemma Typed(name: string, t: int, v: Value, body: Bytes)
    requires name in BUILTIN_TYPE && BUILTIN_TYPE[name] == t && 0 < t < 64 && ScalarBytes(t, v) == Ok(body)
    ensures VariantBytes(Variant(TypeName(name), Scalar(v), None)) == Ok([t] + body)
  {
    hide ScalarBytes;
  }

  /** Two's complement of a negative number. */
  lemma Negative(v: int, n: nat, s: Bytes)
    requires 0 <= 2 * v + Pow256(n) && v < 0 && Unsigned(v + Pow256(n), n) == Ok(s)
    ensures Signed(v, n) == Ok(s)
  {
    hide LE, Pow256;
  }

  lemma BooleanBytes()
    ensures VariantBytes(Variant(TypeName("Boolean"), Scalar(Bool(true)), None)) == Ok([1] + [1])
    ensures VariantBytes(Variant(TypeName("Boolean"), Scalar(Bool(false)), None)) == Ok([1] + [0])
  {
    hide VariantBytes;
    Typed("Boolean", 1, Bool(true), [1]);
    Typed("Boolean", 1, Bool(false), [0]);
  }

  lemma ByteBytes()
    ensures VariantBytes(Variant(TypeName("SByte"), Scalar(Num(-2)), None)) == Ok([2] + [0xFE])
    ensures VariantBytes(Variant(TypeName("Byte"), Scalar(Num(200)), None)) == Ok([3] + [200])
  {
    assert Pow256(1) == 0x100;
    hide VariantBytes, Signed, LE, Pow256;
    Spelled1(0xFE);
    Spelled1(200);
    Negative(-2, 1, [0xFE]);
    hide Unsigned;
    Typed("SByte", 2, Num(-2), [0xFE]);
    Typed("Byte", 3, Num(200), [200]);
  }

  lemma Int16Bytes()
    ensures VariantBytes(Variant(TypeName("Int16"), Scalar(Num(-2)), None)) == Ok([4] + [0xFE, 0xFF])
    ensures VariantBytes(Variant(TypeName("UInt16"), Scalar(Num(0x1234)), None)) == Ok([5] + [0x34, 0x12])
  {
    assert Pow256(2) == 0x1_0000;
    hide VariantBytes, Signed, LE, Pow256;
    Spelled2(0xFFFE, 0xFE, 0xFF);
    Spelled2(0x1234, 0x34, 0x12);
    Negative(-2, 2, [0xFE, 0xFF]);
    hide Unsigned;
    Typed("Int16", 4, Num(-2), [0xFE, 0xFF]);
    Typed("UInt16", 5, Num(0x1234), [0x34, 0x12]);
  }

  lemma Int32Bytes()
    ensures VariantBytes(Variant(TypeName("Int32"), Scalar(Num(-2)), None)) == Ok([6] + [0xFE, 0xFF, 0xFF, 0xFF])
    ensures VariantBytes(Variant(TypeName("UInt32"), Scalar(Num(0x12345678)), None))
         == Ok([7] + [0x78, 0x56, 0x34, 0x12])
  {
    assert Pow256(4) == 0x1_0000_0000;
    hide VariantBytes, Signed, LE, Pow256;
    Spelled4(0xFFFF_FFFE, 0xFE, 0xFF, 0xFF, 0xFF);
    Spelled4(0x12345678, 0x78, 0x56, 0x34, 0x12);
    Negative(-2, 4, [0xFE, 0xFF, 0xFF, 0xFF]);
    hide Unsigned;
    Typed("Int32", 6, Num(-2), [0xFE, 0xFF, 0xFF, 0xFF]);
    Typed("UInt32", 7, Num(0x12345678), [0x78, 0x56, 0x34, 0x12]);
  }

  lemma Int64Bytes()
    ensures VariantBytes(Variant(TypeName("Int64"), Scalar(Num(-2)), None))
         == Ok([8] + [0xFE, 0xFF, 0xFF, 0xFF, 0xFF, 0xFF, 0xFF, 0xFF])
  {
    assert Pow256(8) == 0x1_0000_0000_0000_0000;
    hide VariantBytes, Signed, LE, Pow256;
    Spelled8(0xFFFF_FFFF_FFFF_FFFE, 0xFE, 0xFF, 0xFF, 0xFF, 0xFF, 0xFF, 0xFF, 0xFF);
    Negative(-2, 8, [0xFE, 0xFF, 0xFF, 0xFF, 0xFF, 0xFF, 0xFF, 0xFF]);
    hide Unsigned;
    Typed("Int64", 8, Num(-2), [0xFE, 0xFF, 0xFF, 0xFF, 0xFF, 0xFF, 0xFF, 0xFF]);
  }

  lemma UInt64Bytes()
    ensures VariantBytes(Variant(TypeName("UInt64"), Scalar(Num(0x1234567890ABCDEF)), None))
         == Ok([9] + [0xEF, 0xCD, 0xAB, 0x90, 0x78, 0x56, 0x34, 0x12])
  {
    hide VariantBytes, Unsigned;
    Spelled8(0x1234567890ABCDEF, 0xEF, 0xCD, 0xAB, 0x90, 0x78, 0x56, 0x34, 0x12);
    Typed("UInt64", 9, Num(0x1234567890ABCDEF), [0xEF, 0xCD, 0xAB, 0x90, 0x78, 0x56, 0x34, 0x12]);
  }

  /** Floating-point numbers are their four or eight IEEE bytes. */
  lemma FloatBytes(b: Bytes)
    ensures |b| == 4 ==> VariantBytes(Variant(TypeName("Float"), Scalar(Bits(b)), None)) == Ok([10] + b)
    ensures |b| == 8 ==> VariantBytes(Variant(TypeName("Double"), Scalar(Bits(b)), None)) == Ok([11] + b)
    ensures |b| != 4 ==> VariantBytes(Variant(TypeName("Float"), Scalar(Bits(b)), None)) == Err(TypeMismatch)
    ensures |b| != 8 ==> VariantBytes(Variant(TypeName("Double"), Scalar(Bits(b)), None)) == Err(TypeMismatch)
  {
    if |b| == 4 {
      Typed("Float", 10, Bits(b), b);
    }
    if |b| == 8 {
      Typed("Double", 11, Bits(b), b);
    }
  }

  /** "ab", and null. */
  lemma StringBytes()
    ensures VariantBytes(Variant(TypeName("String"), Scalar(Str(Some([0x61, 0x62]))), None))
         == Ok([12] + ([2, 0, 0, 0] + [0x61, 0x62]))
    ensures VariantBytes(Variant(TypeName("ByteString"), Scalar(Str(Some([0x61, 0x62]))), None))
         == Ok([15] + ([2, 0, 0, 0] + [0x61, 0x62]))
    ensures VariantBytes(Variant(TypeName("String"), Scalar(Str(None)), None)) == Ok([12] + [0xFF, 0xFF, 0xFF, 0xFF])
    ensures VariantBytes(Variant(TypeName("ByteString"), Scalar(Str(None)), None))
         == Ok([15] + [0xFF, 0xFF, 0xFF, 0xFF])
  {
    var text: Text := [0x61, 0x62];
    Spelled4(2, 2, 0, 0, 0);
    Spelled4(0xFFFF_FFFF, 0xFF, 0xFF, 0xFF, 0xFF);
    hide VariantBytes, Unsigned;
    assert NullableText(Some(text)) == Ok([2, 0, 0, 0] + text);
    assert NullableText(None) == Ok([0xFF, 0xFF, 0xFF, 0xFF]);
    hide NullableText;
    Typed("String", 12, Str(Some(text)), [2, 0, 0, 0] + text);
    Typed("ByteString", 15, Str(Some(text)), [2, 0, 0, 0] + text);
    Typed("String", 12, Str(None), [0xFF, 0xFF, 0xFF, 0xFF]);
    Typed("ByteString", 15, Str(None), [0xFF, 0xFF, 0xFF, 0xFF]);
  }

  /** One millisecond after the start of 1601, and a GUID. */
  lemma DateTimeAndGuidBytes()
    ensures VariantBytes(Variant(TypeName("DateTime"), Scalar(Date(MS1)), None))
         == Ok([13] + [0x10, 0x27, 0, 0, 0, 0, 0, 0])
    ensures Guid.IsUuid(CLASS_ID)
    ensures VariantBytes(Variant(TypeName("Guid"), Scalar(Uuid(CLASS_ID)), None)) == Ok([14] + CLASS_ID_BYTES)
  {
    hide VariantBytes, DateTime, Guid.GuidBytes;
    Timestamps();
    ClassIdBytes();
    Typed("DateTime", 13, Date(MS1), [0x10, 0x27, 0, 0, 0, 0, 0, 0]);
    Typed("Guid", 14, Uuid(CLASS_ID), CLASS_ID_BYTES);
  }

  /** A status code keeps its low 32 bits, whatever its sign. */
  lemma StatusCodeBytes()
    ensures VariantBytes(Variant(TypeName("StatusCode"), Scalar(Num(0x80350000)), None))
         == Ok([19] + [0, 0, 0x35, 0x80])
    ensures VariantBytes(Variant(TypeName("StatusCode"), Scalar(Num(-1)), None)) == Ok([19] + [0xFF, 0xFF, 0xFF, 0xFF])
  {
    Spelled4(0x80350000, 0, 0, 0x35, 0x80);
    Spelled4(0xFFFF_FFFF, 0xFF, 0xFF, 0xFF, 0xFF);
    hide VariantBytes, LE, Pow256;
    Typed("StatusCode", 19, Num(0x80350000), [0, 0, 0x35, 0x80]);
    Typed("StatusCode", 19, Num(-1), [0xFF, 0xFF, 0xFF, 0xFF]);
  }

  /** No other name is a built-in type, and a type is refused by any name or number that is not one. */
  lemma OtherNames(name: string, content: Content, dims: Option<seq<int>>)
    requires name !in {"Boolean", "SByte", "Byte", "Int16", "UInt16", "Int32", "UInt32", "Int64", "UInt64", "Float",
                       "Double", "String", "DateTime", "Guid", "ByteString", "StatusCode"}
    ensures VariantBytes(Variant(TypeName(name), content, dims)) == Err(UnknownType)
    ensures VariantBytes(Variant(Ordinal(0), content, dims)) == Err(UnknownType)
  {
  }

  // ----- arrays and nulls

  lemma ArrayBytes()
    ensures VariantBytes(Variant(TypeName("UInt16"), Array([Num(0x0102), Num(0x0304)]), None))
         == Ok([0x45] + [2, 0, 0, 0] + ([2, 1] + [4, 3]))
    ensures VariantBytes(Variant(TypeName("UInt16"), Array([]), None)) == Ok([0x45] + [0, 0, 0, 0] + [])
  {
    Spelled2(0x0102, 2, 1);
    Spelled2(0x0304, 4, 3);
    assert Pow256(4) == 0x1_0000_0000;
    Spelled4(2, 2, 0, 0, 0);
    Spelled4(0, 0, 0, 0, 0);
    hide Unsigned;
    assert Signed(2, 4) == Ok([2, 0, 0, 0]) && Signed(0, 4) == Ok([0, 0, 0, 0]) by { NotNegative(); }
    hide Signed;
    var vs := [Num(0x0102), Num(0x0304)];
    assert ScalarBytes(5, vs[0]) == Ok([2, 1]) && ScalarBytes(5, vs[1]) == Ok([4, 3]);
    hide ScalarBytes;
    assert vs[1..] == [vs[1]] && vs[1..][1..] == [];
    assert ScalarsBytes(5, vs[1..][1..]) == Ok([]);
    assert [4, 3] + [] == [4, 3];
    assert ScalarsBytes(5, vs[1..]) == Ok([4, 3]);
    assert ScalarsBytes(5, vs) == Ok([2, 1] + [4, 3]);
  }

  lemma NotNegative()
    ensures Signed(2, 4) == Unsigned(2, 4) && Signed(0, 4) == Unsigned(0, 4)
  {
    assert Pow256(4) == 0x1_0000_0000;
    hide LE;
  }

  lemma Nulls()
    ensures VariantBytes(NullVariant) == Ok([0]) == DataValueBytes(None)
    ensures DataValueBytes(Some(EMPTY_DATA_VALUE)) == Ok([0] + [] + [] + [] + [] + [] + [])
  {
  }

  /** Absent group numbers are sent as 0. */
  lemma AbsentGroupNumbers()
    ensures GroupHeaderBytes(GroupHeader(None, None, None, None)) == Ok([0, 0] + [0, 0, 0, 0] + [0, 0] + [0, 0])
  {
    hide Unsigned;
    Spelled2(0, 0, 0);
    Spelled4(0, 0, 0, 0, 0);
  }

  // ----- an ordinary keyframe

  /** What a publisher sends: valid, numbered, one Int32 field named "a". */
  const KEYFRAME: DataSetMessage := DataSetMessage(
    Some(7), true, AsVariant, KeyFrame, Some(0x0102), None, None, None, None, None, [([0x61], VariantField(MINUS_TWO))])

  lemma KeyFrameBytes()
    ensures DataSetMessageBytes(KEYFRAME)
         == Ok([0x09] + ([0x02, 0x01] + [] + [] + []) + ([] + [])
               + [0x01, 0x00, 0x01, 0x00, 0x61, 0x06, 0xFE, 0xFF, 0xFF, 0xFF])
  {
    assert DataSetFlagBytes(KEYFRAME) == [0x09];
    FullFields();
    Spelled2(0x0102, 0x02, 0x01);
    hide DataSetFlagBytes, Unsigned, NamedFieldsBytes;
    assert FieldsBytes(KEYFRAME) == FieldsBytes(FULL);
    hide FieldsBytes;
  }

  lemma UInt32Publisher()
    ensures WholeBytes(EMPTY.(publisherId := Some(NumberId(0x12345678)))) == Ok([0x91, 0x02] + [0x78, 0x56, 0x34, 0x12])
  {
    hide WholeBytes, TimeBytes, Unsigned, FlagBytes;
    var nm := EMPTY.(publisherId := Some(NumberId(0x12345678)));
    NoTime();
    Spelled4(0x12345678, 0x78, 0x56, 0x34, 0x12);
    OneExtendedByte(0x91, 0x02);
    HeaderOnly(nm, HeaderFlags(0x91, 0x02, 0), [0x78, 0x56, 0x34, 0x12], [], []);
    assert [0x91, 0x02] + [0x78, 0x56, 0x34, 0x12] + [] + [] == [0x91, 0x02] + [0x78, 0x56, 0x34, 0x12];
  }
}
