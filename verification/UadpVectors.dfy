/** Fixed messages and their bytes: the layout pinned down, independently of what reads it back. */
module UadpVectors {
  import opened Wrappers
  import opened Wire
  import opened UadpModel
  import opened UadpSpec
  import opened UadpChunks
  import Guid

  const EMPTY := NetworkMessage(None, None, None, [], None, None, false, None, [])

  /** A number is written as the bytes that spell it. */
  lemma Spelled(v: nat, s: Bytes)
    requires FromLE(s) == v
    ensures Unsigned(v, |s|) == Ok(s)
  {
    LEOfFromLE(s);
  }

  lemma Spelled2(v: nat, a: Byte, b: Byte)
    requires v == a + 0x100 * b
    ensures Unsigned(v, 2) == Ok([a, b])
  {
    var s: Bytes := [a, b];
    assert s[1..] == [b] && s[1..][1..] == [];
    assert FromLE(s[1..]) == b;
    Spelled(v, s);
  }

  lemma From4(a: Byte, b: Byte, c: Byte, d: Byte, rest: Bytes)
    ensures FromLE([a, b, c, d] + rest) == a + 0x100 * b + 0x1_0000 * c + 0x100_0000 * d + 0x1_0000_0000 * FromLE(rest)
  {
    var s4: Bytes := [d] + rest;
    var s3: Bytes := [c] + s4;
    var s2: Bytes := [b] + s3;
    var s1: Bytes := [a] + s2;
    assert s4[1..] == rest && s3[1..] == s4 && s2[1..] == s3 && s1[1..] == s2;
    assert FromLE(s3) == c + 0x100 * FromLE(s4) && FromLE(s1) == a + 0x100 * FromLE(s2);
    assert s1 == [a, b, c, d] + rest;
  }

  lemma Spelled4(v: nat, a: Byte, b: Byte, c: Byte, d: Byte)
    requires v == a + 0x100 * b + 0x1_0000 * c + 0x100_0000 * d
    ensures Unsigned(v, 4) == Ok([a, b, c, d])
  {
    From4(a, b, c, d, []);
    assert [a, b, c, d] + [] == [a, b, c, d];
    Spelled(v, [a, b, c, d]);
  }

  lemma Spelled8(v: nat, a: Byte, b: Byte, c: Byte, d: Byte, e: Byte, f: Byte, g: Byte, h: Byte)
    requires v == a + 0x100 * b + 0x1_0000 * c + 0x100_0000 * d
                  + 0x1_0000_0000 * (e + 0x100 * f + 0x1_0000 * g + 0x100_0000 * h)
    ensures Unsigned(v, 8) == Ok([a, b, c, d, e, f, g, h])
  {
    From4(e, f, g, h, []);
    From4(a, b, c, d, [e, f, g, h]);
    assert [e, f, g, h] + [] == [e, f, g, h];
    assert [a, b, c, d] + [e, f, g, h] == [a, b, c, d, e, f, g, h];
    Spelled(v, [a, b, c, d, e, f, g, h]);
  }

  /** A message without payload is its header: the flag bytes, then what the flags announce, in order. */
  lemma HeaderOnly(nm: NetworkMessage, f: HeaderFlags, publisher: Bytes, class_: Bytes, time: Bytes)
    requires nm.payload == [] && nm.writerIds == [] && nm.groupHeader.None? && !nm.promotedFields
    requires FlagsOf(nm) == Ok(f) && OptionalPublisherId(nm, f) == Ok(publisher) && OptionalClassId(nm) == Ok(class_)
    requires TimeBytes(nm.timestamp, nm.picoseconds) == Ok(time)
    ensures WholeBytes(nm) == Ok(FlagBytes(f) + publisher + class_ + time)
  {
    hide FlagsOf, FlagBytes, OptionalPublisherId, OptionalClassId, TimeBytes;
    assert FlagBytes(f) + (publisher + class_ + [] + [] + time) + ([] + []) == FlagBytes(f) + publisher + class_ + time;
  }

  lemma NoTime()
    ensures TimeBytes(None, None) == Ok([])
  {
    var nothing: Bytes := [];
    assert nothing + nothing == nothing;
  }

  lemma MinimalMessage()
    ensures WholeBytes(EMPTY) == Ok([0x01])
  {
    NoTime();
    hide TimeBytes, WholeBytes;
    HeaderOnly(EMPTY, HeaderFlags(0x01, 0, 0), [], [], []);
    assert FlagBytes(HeaderFlags(0x01, 0, 0)) == [0x01];
    assert [0x01] + [] + [] + [] == [0x01];
  }

  /** And that byte is what is sent. */
  lemma MinimalMessageIsSent()
    ensures Encode(EMPTY, 1400) == Ok(Single([0x01]))
  {
    MinimalMessage();
    hide WholeBytes;
  }

  const UINT64_PUBLISHER := EMPTY.(publisherId := Some(BigIntId(0x1234567890ABCDEF)))

  lemma UInt64Publisher()
    ensures WholeBytes(UINT64_PUBLISHER) == Ok([0x91, 0x03, 0xEF, 0xCD, 0xAB, 0x90, 0x78, 0x56, 0x34, 0x12])
  {
    hide WholeBytes, TimeBytes, Unsigned, FlagBytes;
    var f, id: Bytes := HeaderFlags(0x91, 0x03, 0), [0xEF, 0xCD, 0xAB, 0x90, 0x78, 0x56, 0x34, 0x12];
    NoTime();
    Spelled8(0x1234567890ABCDEF, 0xEF, 0xCD, 0xAB, 0x90, 0x78, 0x56, 0x34, 0x12);
    OneExtendedByte(0x91, 0x03);
    HeaderOnly(UINT64_PUBLISHER, f, id, [], []);
    assert [0x91, 0x03] + id + [] + [] == [0x91, 0x03, 0xEF, 0xCD, 0xAB, 0x90, 0x78, 0x56, 0x34, 0x12];
  }

  lemma OneExtendedByte(uadp: Byte, ext1: Byte)
    requires uadp >= 0x80 && ext1 < 0x80
    ensures FlagBytes(HeaderFlags(uadp, ext1, 0)) == [uadp, ext1]
  {
    assert Has(uadp, 0x80) && !Has(ext1, 0x80);
  }

  /** 13 May 2026, midnight UTC. */
  const WITH_TIMESTAMP := EMPTY.(publisherId := Some(NumberId(5)), timestamp := Some(1_778_630_400_000))

  lemma WithTimestamp()
    ensures WholeBytes(WITH_TIMESTAMP) == Ok([0x91, 0x20, 0x05, 0x00, 0x00, 0x08, 0x71, 0x6B, 0xE2, 0xDC, 0x01])
  {
    hide WholeBytes, Unsigned, FlagBytes;
    var f, time: Bytes := HeaderFlags(0x91, 0x20, 0), [0x00, 0x00, 0x08, 0x71, 0x6B, 0xE2, 0xDC, 0x01];
    Spelled8(134_231_040_000_000_000, 0x00, 0x00, 0x08, 0x71, 0x6B, 0xE2, 0xDC, 0x01);
    assert time + [] == time;
    assert TimeBytes(WITH_TIMESTAMP.timestamp, None) == Ok(time);
    Spelled1(5);
    OneExtendedByte(0x91, 0x20);
    hide TimeBytes;
    HeaderOnly(WITH_TIMESTAMP, f, [5], [], time);
    assert [0x91, 0x20] + [5] + [] + time == [0x91, 0x20, 0x05, 0x00, 0x00, 0x08, 0x71, 0x6B, 0xE2, 0xDC, 0x01];
  }

  lemma Spelled1(b: Byte)
    ensures Unsigned(b, 1) == Ok([b])
  {
    assert [b][1..] == [];
    Spelled(b, [b]);
  }

  /** "publisher-A" */
  const PUBLISHER_A: Text := [0x70, 0x75, 0x62, 0x6C, 0x69, 0x73, 0x68, 0x65, 0x72, 0x2D, 0x41]

  lemma StringPublisher()
    ensures WholeBytes(EMPTY.(publisherId := Some(StringId(PUBLISHER_A))))
         == Ok([0x91, 0x04, 0x0B, 0x00, 0x00, 0x00] + PUBLISHER_A)
  {
    hide WholeBytes, TimeBytes, Unsigned, FlagBytes;
    var nm, f := EMPTY.(publisherId := Some(StringId(PUBLISHER_A))), HeaderFlags(0x91, 0x04, 0);
    NoTime();
    Spelled4(11, 11, 0, 0, 0);
    OneExtendedByte(0x91, 0x04);
    HeaderOnly(nm, f, [11, 0, 0, 0] + PUBLISHER_A, [], []);
    assert [0x91, 0x04] + ([11, 0, 0, 0] + PUBLISHER_A) + [] + [] == [0x91, 0x04, 0x0B, 0x00, 0x00, 0x00] + PUBLISHER_A;
  }

  // ----- a GUID

  lemma ParseHexSnoc(s: string, c: char)
    requires Guid.AllHex(s) && Guid.IsHex(c)
    ensures Guid.ParseHex(s + [c]) == 16 * Guid.ParseHex(s) + Guid.Nibble(c)
  {
    assert (s + [c])[..|s|] == s;
  }

  /** Four hexadecimal digits after others. */
  lemma ParseHex4(s: string, a: char, b: char, c: char, d: char)
    requires Guid.AllHex(s) && Guid.IsHex(a) && Guid.IsHex(b) && Guid.IsHex(c) && Guid.IsHex(d)
    ensures Guid.ParseHex(s + [a, b, c, d])
         == 0x1_0000 * Guid.ParseHex(s)
            + 0x1000 * Guid.Nibble(a) + 0x100 * Guid.Nibble(b) + 0x10 * Guid.Nibble(c) + Guid.Nibble(d)
  {
    hide Guid.ParseHex, Guid.Nibble;
    ParseHexSnoc(s, a);
    ParseHexSnoc(s + [a], b);
    ParseHexSnoc(s + [a] + [b], c);
    ParseHexSnoc(s + [a] + [b] + [c], d);
    assert s + [a] + [b] + [c] + [d] == s + [a, b, c, d];
  }

  lemma TwoBytes(s: string, m: Byte, n: Byte)
    requires |s| == 4 && Guid.AllHex(s)
    requires m == 16 * Guid.Nibble(s[0]) + Guid.Nibble(s[1]) && n == 16 * Guid.Nibble(s[2]) + Guid.Nibble(s[3])
    ensures Guid.HexToBytes(s) == [m, n]
  {
    hide Guid.Nibble;
    assert s[2..][2..] == "";
    assert Guid.HexToBytes(s[2..]) == [n];
  }

  lemma LastEight()
    ensures Guid.HexToBytes("80B4" + ("00C0" + ("4FD4" + "30C8")))
         == [0x80, 0xB4] + ([0x00, 0xC0] + ([0x4F, 0xD4] + [0x30, 0xC8]))
  {
    hide Guid.HexToBytes;
    TwoBytes("80B4", 0x80, 0xB4);
    TwoBytes("00C0", 0x00, 0xC0);
    TwoBytes("4FD4", 0x4F, 0xD4);
    TwoBytes("30C8", 0x30, 0xC8);
    Guid.HexToBytesOfConcat("4FD4", "30C8");
    Guid.HexToBytesOfConcat("00C0", "4FD4" + "30C8");
    Guid.HexToBytesOfConcat("80B4", "00C0" + ("4FD4" + "30C8"));
  }

  lemma PartsOfDashed(p1: string, p2: string, p3: string, p4: string, p5: string)
    requires |p1| == 8 && |p2| == |p3| == |p4| == 4 && |p5| == 12
    ensures var g := Guid.Dashed(p1, p2, p3, p4, p5);
            |g| == 36 && g[..8] == p1 && g[9..13] == p2 && g[14..18] == p3 && g[19..23] == p4 && g[24..] == p5
  {
  }

  const CLASS_ID: string := Guid.Dashed("6BA7" + "B810", "9DAD", "11D1", "80B4", "00C0" + ("4FD4" + "30C8"))

  const CLASS_ID_BYTES: Bytes :=
    [0x10, 0xB8, 0xA7, 0x6B] + [0xAD, 0x9D] + [0xD1, 0x11]
    + ([0x80, 0xB4] + ([0x00, 0xC0] + ([0x4F, 0xD4] + [0x30, 0xC8])))

  /** The first three fields are little-endian numbers; the last eight bytes stand in reading order. */
  lemma ClassIdBytes()
    ensures Guid.IsUuid(CLASS_ID)
    ensures Guid.GuidBytes(CLASS_ID) == Ok(CLASS_ID_BYTES)
  {
    assert Guid.ParseHex("") == 0;
    hide Guid.ParseHex, Guid.HexToBytes, Unsigned, Guid.Dashed;
    Guid.DashedIsUuid("6BA7" + "B810", "9DAD", "11D1", "80B4", "00C0" + ("4FD4" + "30C8"));
    PartsOfDashed("6BA7" + "B810", "9DAD", "11D1", "80B4", "00C0" + ("4FD4" + "30C8"));
    LastEight();
    assert Guid.ParseHex("6BA7" + "B810") == 0x6BA7B810 by {
      ParseHex4("", '6', 'B', 'A', '7');
      ParseHex4("6BA7", 'B', '8', '1', '0');
      assert "" + "6BA7" == "6BA7";
    }
    assert Guid.ParseHex("9DAD") == 0x9DAD by {
      ParseHex4("", '9', 'D', 'A', 'D');
      assert "" + "9DAD" == "9DAD";
    }
    assert Guid.ParseHex("11D1") == 0x11D1 by {
      ParseHex4("", '1', '1', 'D', '1');
      assert "" + "11D1" == "11D1";
    }
    Spelled4(0x6BA7B810, 0x10, 0xB8, 0xA7, 0x6B);
    Spelled2(0x9DAD, 0xAD, 0x9D);
    Spelled2(0x11D1, 0xD1, 0x11);
  }

  lemma WithDataSetClassId()
    ensures Guid.IsUuid(CLASS_ID)
    ensures WholeBytes(EMPTY.(publisherId := Some(NumberId(0x1234)), dataSetClassId := Some(CLASS_ID)))
         == Ok([0x91, 0x09] + [0x34, 0x12] + CLASS_ID_BYTES)
  {
    hide WholeBytes, TimeBytes, Unsigned, FlagBytes, Guid.GuidBytes;
    ClassIdBytes();
    var nm := EMPTY.(publisherId := Some(NumberId(0x1234)), dataSetClassId := Some(CLASS_ID));
    var f := HeaderFlags(0x91, 0x09, 0);
    NoTime();
    Spelled2(0x1234, 0x34, 0x12);
    OneExtendedByte(0x91, 0x09);
    HeaderOnly(nm, f, [0x34, 0x12], CLASS_ID_BYTES, []);
    assert [0x91, 0x09] + [0x34, 0x12] + CLASS_ID_BYTES + [] == [0x91, 0x09] + [0x34, 0x12] + CLASS_ID_BYTES;
  }

  // ----- a DataValue and a DataSetMessage with everything in them

  /** What is there is written in this order, whatever it is. */
  lemma DataValueParts(d: DataValue, b1: Bytes, b2: Bytes, b3: Bytes, b4: Bytes, b5: Bytes, b6: Bytes)
    requires OptionalVariant(d.value) == Ok(b1) && OptionalUnsigned(NormalStatus(d.statusCode), 4) == Ok(b2)
    requires OptionalDateTime(d.sourceTimestamp) == Ok(b3) && OptionalDateTime(d.serverTimestamp) == Ok(b4)
    requires OptionalUnsigned(d.sourcePicoseconds, 2) == Ok(b5) && OptionalUnsigned(d.serverPicoseconds, 2) == Ok(b6)
    ensures DataValueBytes(Some(d)) == Ok([DataValueMask(d)] + b1 + b2 + b3 + b4 + b5 + b6)
  {
    hide OptionalVariant, OptionalUnsigned, OptionalDateTime, NormalStatus, DataValueMask;
  }

  /** One and two milliseconds after the start of 1601. */
  const MS1 := 1 - FILETIME_EPOCH_OFFSET_MS
  const MS2 := 2 - FILETIME_EPOCH_OFFSET_MS

  lemma Timestamps()
    ensures OptionalDateTime(Some(MS1)) == Ok([0x10, 0x27, 0, 0, 0, 0, 0, 0])
    ensures OptionalDateTime(Some(MS2)) == Ok([0x20, 0x4E, 0, 0, 0, 0, 0, 0])
  {
    hide Unsigned;
    Spelled8(10_000, 0x10, 0x27, 0, 0, 0, 0, 0, 0);
    Spelled8(20_000, 0x20, 0x4E, 0, 0, 0, 0, 0, 0);
  }

  const MINUS_TWO := Variant(Ordinal(6), Scalar(Num(-2)), None)

  lemma MinusTwo()
    ensures VariantBytes(MINUS_TWO) == Ok([0x06, 0xFE, 0xFF, 0xFF, 0xFF])
  {
    assert Pow256(4) == 0x1_0000_0000;
    Spelled4(0xFFFF_FFFE, 0xFE, 0xFF, 0xFF, 0xFF);
    hide LE, Pow256;
    assert Signed(-2, 4) == Ok([0xFE, 0xFF, 0xFF, 0xFF]);
    hide Signed, Unsigned;
    assert [0x06] + [0xFE, 0xFF, 0xFF, 0xFF] == [0x06, 0xFE, 0xFF, 0xFF, 0xFF];
  }

  /** The value, its status, both timestamps, both picoseconds, behind the mask. */
  lemma DataValueVector()
    ensures DataValueBytes(Some(DataValue(Some(MINUS_TWO), Some(0x80350000), Some(MS1), Some(MS2),
                                          Some(0x0102), Some(0x0304))))
         == Ok([0x3F] + [0x06, 0xFE, 0xFF, 0xFF, 0xFF] + [0x00, 0x00, 0x35, 0x80] + [0x10, 0x27, 0, 0, 0, 0, 0, 0]
               + [0x20, 0x4E, 0, 0, 0, 0, 0, 0] + [0x02, 0x01] + [0x04, 0x03])
  {
    hide VariantBytes, Unsigned, OptionalDateTime, DataValueBytes;
    var d := DataValue(Some(MINUS_TWO), Some(0x80350000), Some(MS1), Some(MS2), Some(0x0102), Some(0x0304));
    MinusTwo();
    Timestamps();
    Spelled4(0x80350000, 0x00, 0x00, 0x35, 0x80);
    Spelled2(0x0102, 0x02, 0x01);
    Spelled2(0x0304, 0x04, 0x03);
    DataValueParts(d, [0x06, 0xFE, 0xFF, 0xFF, 0xFF], [0x00, 0x00, 0x35, 0x80], [0x10, 0x27, 0, 0, 0, 0, 0, 0],
                   [0x20, 0x4E, 0, 0, 0, 0, 0, 0], [0x02, 0x01], [0x04, 0x03]);
  }

  /** A delta frame whose every header field is present, with one Int32 field named "a". */
  const FULL: DataSetMessage := DataSetMessage(
    Some(7), true, AsVariant, DeltaFrame, Some(0x0102), Some(0x0304), Some(0x05060708), Some(0x090A0B0C),
    Some(MS1), Some(0x0D0E), [([0x61], VariantField(MINUS_TWO))])

  lemma FullState()
    ensures DataSetStateBytes(FULL) == Ok([0x02, 0x01, 0x04, 0x03, 0x08, 0x07, 0x06, 0x05, 0x0C, 0x0B, 0x0A, 0x09])
  {
    hide Unsigned;
    Spelled2(0x0102, 0x02, 0x01);
    Spelled2(0x0304, 0x04, 0x03);
    Spelled4(0x05060708, 0x08, 0x07, 0x06, 0x05);
    Spelled4(0x090A0B0C, 0x0C, 0x0B, 0x0A, 0x09);
    assert [0x02, 0x01] + [0x04, 0x03] + [0x08, 0x07, 0x06, 0x05] + [0x0C, 0x0B, 0x0A, 0x09]
        == [0x02, 0x01, 0x04, 0x03, 0x08, 0x07, 0x06, 0x05, 0x0C, 0x0B, 0x0A, 0x09];
  }

  lemma FullTime()
    ensures TimeBytes(FULL.timestamp, FULL.picoseconds) == Ok([0x10, 0x27, 0, 0, 0, 0, 0, 0, 0x0E, 0x0D])
  {
    hide Unsigned, OptionalDateTime;
    Timestamps();
    Spelled2(0x0D0E, 0x0E, 0x0D);
    assert [0x10, 0x27, 0, 0, 0, 0, 0, 0] + [0x0E, 0x0D] == [0x10, 0x27, 0, 0, 0, 0, 0, 0, 0x0E, 0x0D];
  }

  lemma FullFields()
    ensures FieldsBytes(FULL) == Ok([0x01, 0x00, 0x01, 0x00, 0x61, 0x06, 0xFE, 0xFF, 0xFF, 0xFF])
  {
    hide Unsigned, VariantBytes;
    Spelled2(1, 0x01, 0x00);
    MinusTwo();
    var fields: seq<(Text, Field)> := FULL.fields;
    assert fields[1..] == [];
    assert NamedFieldsBytes(AsVariant, []) == Ok([]);
    assert NamedFieldBytes(AsVariant, [0x61], VariantField(MINUS_TWO))
        == Ok([0x01, 0x00] + [0x61] + [0x06, 0xFE, 0xFF, 0xFF, 0xFF]);
    assert [0x01, 0x00] + ([0x01, 0x00] + [0x61] + [0x06, 0xFE, 0xFF, 0xFF, 0xFF] + [])
        == [0x01, 0x00, 0x01, 0x00, 0x61, 0x06, 0xFE, 0xFF, 0xFF, 0xFF];
  }

  /** Flags, sequence number, status, versions, timestamp, picoseconds, then the count, name and value of the field. */
  lemma DataSetMessageVector()
    ensures DataSetMessageBytes(FULL)
         == Ok([0xF9, 0x31]
               + [0x02, 0x01, 0x04, 0x03, 0x08, 0x07, 0x06, 0x05, 0x0C, 0x0B, 0x0A, 0x09]
               + [0x10, 0x27, 0, 0, 0, 0, 0, 0, 0x0E, 0x0D]
               + [0x01, 0x00, 0x01, 0x00, 0x61, 0x06, 0xFE, 0xFF, 0xFF, 0xFF])
  {
    assert DataSetFlagBytes(FULL) == [0xF9, 0x31];
    hide DataSetFlagBytes, DataSetStateBytes, TimeBytes, FieldsBytes;
    FullState();
    FullTime();
    FullFields();
  }

  // ----- a whole message: two KeepAlives of two writers

  const GROUP := GroupHeader(Some(0x0102), Some(0x03040506), Some(0x0708), Some(0x090A))

  function Alive(number: int): DataSetMessage {
    DataSetMessage(None, true, AsVariant, KeepAlive, Some(number), None, None, None, None, None, [])
  }

  const TWO_KEEP_ALIVES := NetworkMessage(
    Some(NumberId(5)), None, Some(GROUP), [0x0B0C, 0x0D0E], Some(MS1), None, false, None,
    [Alive(0x0F10), Alive(0x1112)])

  lemma GroupVector()
    ensures GroupHeaderBytes(GROUP) == Ok([0x02, 0x01] + [0x06, 0x05, 0x04, 0x03] + [0x08, 0x07] + [0x0A, 0x09])
  {
    hide Unsigned;
    Spelled2(0x0102, 0x02, 0x01);
    Spelled4(0x03040506, 0x06, 0x05, 0x04, 0x03);
    Spelled2(0x0708, 0x08, 0x07);
    Spelled2(0x090A, 0x0A, 0x09);
  }

  lemma TwoNumbers(a: int, b: int, s: Bytes, t: Bytes)
    requires Unsigned(a, 2) == Ok(s) && Unsigned(b, 2) == Ok(t)
    ensures UInt16sBytes([a, b]) == Ok(s + t)
  {
    hide Unsigned;
    assert [a, b][1..] == [b] && [b][1..] == [];
    assert t + [] == t;
    assert UInt16sBytes([b]) == Ok(t);
  }

  lemma AliveBytes(number: int, s: Bytes)
    requires OptionalUnsigned(Some(number), 2) == Ok(s)
    ensures DataSetMessageBytes(Alive(number)) == Ok([0x89, 0x03] + s)
  {
    var m := Alive(number);
    assert DataSetFlagBytes(m) == [0x89, 0x03];
    hide OptionalUnsigned, DataSetFlagBytes, TimeBytes;
    NoTime();
    assert OptionalUnsigned(None, 2) == Ok([]) == OptionalUnsigned(None, 4) by { NothingOptional(); }
    assert s + [] + [] + [] == s;
    assert [0x89, 0x03] + s + [] + [] == [0x89, 0x03] + s;
  }

  lemma NothingOptional()
    ensures OptionalUnsigned(None, 2) == Ok([]) == OptionalUnsigned(None, 4)
  {
  }

  lemma TwoBuffers(m1: DataSetMessage, m2: DataSetMessage, b1: Bytes, b2: Bytes)
    requires DataSetMessageBytes(m1) == Ok(b1) && DataSetMessageBytes(m2) == Ok(b2)
    ensures PayloadBuffers([m1, m2]) == Ok([b1, b2]) && Sizes([b1, b2]) == [|b1|, |b2|] && Concat([b1, b2]) == b1 + b2
  {
    hide DataSetMessageBytes;
    assert [m1, m2][1..] == [m2] && [m2][1..] == [];
    assert [b1, b2][1..] == [b2] && [b2][1..] == [];
    var none: seq<Bytes> := [];
    assert PayloadBuffers([m2][1..]) == Ok(none) && [b2] + none == [b2];
    assert PayloadBuffers([m2]) == Ok([b2]) && [b1] + [b2] == [b1, b2];
    assert Concat([b2]) == b2 + [] == b2;
  }

  lemma TwoKeepAlivesBody()
    ensures BodyBytes(TWO_KEEP_ALIVES)
         == Ok(([0x04, 0x00] + [0x04, 0x00]) + (([0x89, 0x03] + [0x10, 0x0F]) + ([0x89, 0x03] + [0x12, 0x11])))
  {
    hide DataSetMessageBytes, Unsigned, PayloadBuffers, Sizes, Concat, UInt16sBytes;
    Spelled2(0x0F10, 0x10, 0x0F);
    Spelled2(0x1112, 0x12, 0x11);
    AliveBytes(0x0F10, [0x10, 0x0F]);
    AliveBytes(0x1112, [0x12, 0x11]);
    var b1, b2: Bytes := [0x89, 0x03] + [0x10, 0x0F], [0x89, 0x03] + [0x12, 0x11];
    TwoBuffers(Alive(0x0F10), Alive(0x1112), b1, b2);
    Spelled2(4, 0x04, 0x00);
    TwoNumbers(4, 4, [0x04, 0x00], [0x04, 0x00]);
  }

  lemma TwoKeepAlivesHeader()
    ensures HeaderBytes(TWO_KEEP_ALIVES)
         == Ok([0xF1, 0x20]
               + (([0x05] + [] + ([0x02, 0x01] + [0x06, 0x05, 0x04, 0x03] + [0x08, 0x07] + [0x0A, 0x09]))
                  + ([0x02] + ([0x0C, 0x0B] + [0x0E, 0x0D])) + ([0x10, 0x27, 0, 0, 0, 0, 0, 0] + [])))
  {
    hide Unsigned, FlagBytes, GroupHeaderBytes, UInt16sBytes, OptionalDateTime;
    OneExtendedByte(0xF1, 0x20);
    Spelled1(5);
    GroupVector();
    Spelled1(2);
    Spelled2(0x0B0C, 0x0C, 0x0B);
    Spelled2(0x0D0E, 0x0E, 0x0D);
    TwoNumbers(0x0B0C, 0x0D0E, [0x0C, 0x0B], [0x0E, 0x0D]);
    Timestamps();
  }

  /** Header: flags, publisher, group, ids, time. Body: the sizes of the messages, then the messages. */
  lemma TwoKeepAlivesVector()
    ensures WholeBytes(TWO_KEEP_ALIVES)
         == Ok([0xF1, 0x20]
               + (([0x05] + [] + ([0x02, 0x01] + [0x06, 0x05, 0x04, 0x03] + [0x08, 0x07] + [0x0A, 0x09]))
                  + ([0x02] + ([0x0C, 0x0B] + [0x0E, 0x0D])) + ([0x10, 0x27, 0, 0, 0, 0, 0, 0] + []))
               + (([0x04, 0x00] + [0x04, 0x00]) + (([0x89, 0x03] + [0x10, 0x0F]) + ([0x89, 0x03] + [0x12, 0x11]))))
  {
    hide HeaderBytes, BodyBytes;
    TwoKeepAlivesHeader();
    TwoKeepAlivesBody();
  }

  // ----- a chunk

  /** Message number, offset, total, the length of the data, the data. */
  lemma ChunkVector()
    ensures ChunkStructBytes(Chunk(0x0102, 0x03040506, 0x0708090A, [0x0B, 0x0C]))
         == Ok([0x02, 0x01] + [0x06, 0x05, 0x04, 0x03] + [0x0A, 0x09, 0x08, 0x07] + [0x02, 0x00, 0x00, 0x00]
               + [0x0B, 0x0C])
  {
    hide Unsigned;
    Spelled2(0x0102, 0x02, 0x01);
    Spelled4(0x03040506, 0x06, 0x05, 0x04, 0x03);
    Spelled4(0x0708090A, 0x0A, 0x09, 0x08, 0x07);
    Spelled4(2, 0x02, 0x00, 0x00, 0x00);
  }
}
