/**
 The flag bytes and the dimension list, described bit by bit from the message and from the bytes, without
 the functions that make or read them.
 */
module UadpLayout {
  import opened Wrappers
  import opened Wire
  import opened UadpModel
  import opened UadpSpec
  import opened UadpRoundTrip
  import Guid

  // ----- the flag bytes of a DataSetMessage

  /**
   What a DataSetMessage begins with. A keyframe without timestamp has one flag byte; everything else has
   two, and the first one says so.
   */
  lemma DataSetFlagLayout(m: DataSetMessage)
    ensures var b := DataSetFlagBytes(m);
            && 1 <= |b| <= 2 && (|b| == 2 <==> m.messageType != KeyFrame || m.timestamp.Some?)
            && (b[0] >= 0x80 <==> |b| == 2)
            && (b[0] % 2 == 1 <==> m.valid)
            && b[0] / 2 % 4 == (match m.fieldEncoding case AsVariant => 0 case AsRawData => 1 case AsDataValue => 2)
            && (b[0] / 0x08 % 2 == 1 <==> m.sequenceNumber.Some?)
            && (b[0] / 0x10 % 2 == 1 <==> m.status.Some?)
            && (b[0] / 0x20 % 2 == 1 <==> m.major.Some?)
            && (b[0] / 0x40 % 2 == 1 <==> m.minor.Some?)
    ensures var b := DataSetFlagBytes(m);
            |b| == 2 ==>
              && b[1] % 16 == (match m.messageType
                               case KeyFrame => 0 case DeltaFrame => 1 case Event => 2 case KeepAlive => 3)
              && (b[1] / 0x10 % 2 == 1 <==> m.timestamp.Some?)
              && (b[1] / 0x20 % 2 == 1 <==> m.timestamp.Some? && m.picoseconds.Some?)
              && b[1] < 0x40
  {
    DataSetFlagsBits(m);
    LowNibble(m);
    LowBits(DataSetFlags1(m), m.valid, FieldEncodingBits(m.fieldEncoding)) by { FirstBits(m); }
    HighBit(DataSetFlags1(m));
    SecondFlags(m);
    hide DataSetFlags1, DataSetFlags2;
  }

  lemma FirstBits(m: DataSetMessage)
    ensures DataSetFlags1(m) % 8 == Flag(m.valid, 1) + FieldEncodingBits(m.fieldEncoding) * 2
  {
    var low := Flag(m.valid, 1) + FieldEncodingBits(m.fieldEncoding) * 2;
    ByteBits(low, m.sequenceNumber.Some?, m.status.Some?, m.major.Some?, m.minor.Some?, DataSetFlags2(m) != 0);
  }

  lemma HighBit(b: Byte)
    ensures Has(b, 0x80) <==> b >= 0x80
  {
  }

  lemma SecondFlags(m: DataSetMessage)
    ensures DataSetFlags2(m) < 0x40
    ensures DataSetFlags2(m) != 0 <==> m.messageType != KeyFrame || m.timestamp.Some?
  {
  }

  lemma FirstByte(s: Bytes)
    requires s != []
    ensures ReadUnsigned(s, 1) == Got(s[0], s[1..])
  {
    ReadOneByte(s[0], s[1..]);
    assert s == [s[0]] + s[1..];
  }

  /** Whatever the bytes: what the decoder takes from the flag bytes of a DataSetMessage. */
  lemma DataSetFlagsReadAs(s: Bytes)
    ensures var p := ReadDataSetHeader(s);
            p.Got? ==>
              && s != [] && (s[0] >= 0x80 ==> |s| > 1)
              && var f1, f2 := s[0], if s[0] >= 0x80 then s[1] else 0;
              var m := p.value;
              && (m.valid <==> f1 % 2 == 1)
              && m.fieldEncoding == (if f1 / 2 % 4 == 1 then AsRawData else if f1 / 2 % 4 == 2 then AsDataValue
                                     else AsVariant)
              && (m.sequenceNumber.Some? <==> f1 / 0x08 % 2 == 1) && (m.status.Some? <==> f1 / 0x10 % 2 == 1)
              && (m.major.Some? <==> f1 / 0x20 % 2 == 1) && (m.minor.Some? <==> f1 / 0x40 % 2 == 1)
              && (f2 % 16 == 0 ==> m.messageType == KeyFrame) && (f2 % 16 == 1 ==> m.messageType == DeltaFrame)
              && (f2 % 16 == 2 ==> m.messageType == Event) && (f2 % 16 == 3 ==> m.messageType == KeepAlive)
              && (f2 % 16 > 3 ==> m.messageType == KeyFrame)
              && (m.timestamp.Some? <==> f2 / 0x10 % 2 == 1) && (m.picoseconds.Some? <==> f2 / 0x20 % 2 == 1)
  {
    hide ReadUnsigned, ReadDateTime;
    if ReadDataSetHeader(s).Got? {
      BothFlags(s);
      hide ReadDataSetFlags;
    }
  }

  lemma BothFlags(s: Bytes)
    requires ReadDataSetFlags(s).Got?
    ensures s != [] && (s[0] >= 0x80 ==> |s| > 1)
    ensures ReadDataSetFlags(s).value == (s[0], if s[0] >= 0x80 then s[1] else 0)
  {
    assert s != [];
    FirstByte(s);
    HighBit(s[0]);
    if s[0] >= 0x80 {
      assert s[1..] != [];
      FirstByte(s[1..]);
    }
    hide ReadUnsigned;
  }

  // ----- the flag bytes of a NetworkMessage

  /** The type bits of a publisher id; the widths are those of a UInt16, a UInt32, a UInt64 and a string. */
  function IdKind(p: Option<PublisherId>): int {
    match p
    case None => 0
    case Some(NumberId(n)) => if n < 0x100 then 0 else if n < 0x1_0000 then 1 else 2
    case Some(BigIntId(_)) => 3
    case Some(StringId(_)) => 4
    case Some(NullId) => 0
  }

  /** What a NetworkMessage begins with: version 1, and one to three flag bytes, as many as needed. */
  lemma HeaderFlagLayout(nm: NetworkMessage)
    requires FlagsOf(nm).Ok?
    ensures var b := FlagBytes(FlagsOf(nm).value);
            && 1 <= |b| <= 3 && b[0] % 16 == 1
            && (b[0] / 0x10 % 2 == 1 <==> nm.publisherId.Some?)
            && (b[0] / 0x20 % 2 == 1 <==> nm.groupHeader.Some?)
            && (b[0] / 0x40 % 2 == 1 <==> nm.writerIds != [])
            && (b[0] >= 0x80 <==> |b| >= 2)
            && (|b| == 3 <==> nm.chunk.Some? || nm.promotedFields)
            && (|b| >= 2 <==> IdKind(nm.publisherId) != 0 || nm.dataSetClassId.Some? || nm.timestamp.Some? || |b| == 3)
    ensures var b := FlagBytes(FlagsOf(nm).value);
            |b| >= 2 ==>
              && b[1] % 8 == IdKind(nm.publisherId)
              && (b[1] / 0x08 % 2 == 1 <==> nm.dataSetClassId.Some?) && b[1] / 0x10 % 2 == 0
              && (b[1] / 0x20 % 2 == 1 <==> nm.timestamp.Some?)
              && (b[1] / 0x40 % 2 == 1 <==> nm.timestamp.Some? && nm.picoseconds.Some?)
              && (b[1] >= 0x80 <==> |b| == 3)
    ensures var b := FlagBytes(FlagsOf(nm).value);
            |b| == 3 ==> (b[2] % 2 == 1 <==> nm.chunk.Some?) && (b[2] / 2 % 2 == 1 <==> nm.promotedFields) && b[2] < 4
  {
    FlagBits(nm);
    var f := FlagsOf(nm).value;
    HighBit(f.uadp);
    HighBit(f.ext1);
    SecondExtended(nm);
    FirstExtended(nm);
    hide FlagsOf;
  }

  lemma SecondExtended(nm: NetworkMessage)
    requires FlagsOf(nm).Ok?
    ensures var f := FlagsOf(nm).value; f.ext2 < 4 && (f.ext2 != 0 <==> nm.chunk.Some? || nm.promotedFields)
  {
  }

  lemma FirstExtended(nm: NetworkMessage)
    requires FlagsOf(nm).Ok?
    ensures var f := FlagsOf(nm).value;
            && f.ext1 % 8 == IdKind(nm.publisherId) && f.ext1 / 0x10 % 2 == 0
            && (f.ext1 != 0 <==>
                  IdKind(nm.publisherId) != 0 || nm.dataSetClassId.Some? || nm.timestamp.Some? || f.ext2 != 0)
  {
    var f, bits := FlagsOf(nm).value, IdKind(nm.publisherId);
    ByteBits(bits, nm.dataSetClassId.Some?, false, nm.timestamp.Some?, nm.picoseconds.Some? && nm.timestamp.Some?,
             f.ext2 != 0);
  }

  /** Which publisher ids can be written. */
  lemma FlagsNeedAnId(nm: NetworkMessage)
    ensures FlagsOf(nm).Ok? <==>
              match nm.publisherId
              case Some(NumberId(n)) => 0 <= n < 0x1_0000_0000
              case Some(NullId) => false
              case _ => true
    ensures forall n :: nm.publisherId == Some(NumberId(n)) && n < 0 ==> FlagsOf(nm) == Err(InvalidPublisherId)
    ensures forall n :: nm.publisherId == Some(NumberId(n)) && n >= 0x1_0000_0000 ==>
              FlagsOf(nm) == Err(PublisherIdTooLarge)
    ensures nm.publisherId == Some(NullId) ==> FlagsOf(nm) == Err(UnsupportedPublisherId)
  {
  }

  // ----- what the decoder takes from the flag bytes, and what it refuses

  /** Up to three flag bytes, an absent one counting as 0. */
  lemma ThreeFlags(s: Bytes)
    ensures var p := ReadFlags(s);
            if s == [] then p == Threw(Truncated)
            else if s[0] % 16 != 1 then p == Threw(UnsupportedVersion)
            else if s[0] < 0x80 then p == Got(HeaderFlags(s[0], 0, 0), s[1..])
            else if |s| < 2 then p == Threw(Truncated)
            else if s[1] < 0x80 then p == Got(HeaderFlags(s[0], s[1], 0), s[2..])
            else if |s| < 3 then p == Threw(Truncated)
            else p == Got(HeaderFlags(s[0], s[1], s[2]), s[3..])
  {
    assert s == [] ==> ReadUnsigned(s, 1) == Threw(Truncated);
    if s != [] {
      FirstByte(s);
      HighBit(s[0]);
      assert !Has(0, 0x80);
      if |s| < 2 {
        assert ReadUnsigned(s[1..], 1) == Threw(Truncated);
      } else {
        FirstByte(s[1..]);
        HighBit(s[1]);
        assert s[1..][1..] == s[2..] && s[1..][0] == s[1];
        if |s| < 3 {
          assert ReadUnsigned(s[2..], 1) == Threw(Truncated);
        } else {
          FirstByte(s[2..]);
          assert s[2..][1..] == s[3..] && s[2..][0] == s[2];
        }
      }
    }
    hide ReadUnsigned, Has;
  }

  /** A buffer of another version, or with promoted fields, is never a message. */
  lemma VersionIsChecked(s: Bytes)
    ensures s == [] ==> Decode(s) == Err(Truncated)
    ensures s != [] && s[0] % 16 != 1 ==> Decode(s) == Err(UnsupportedVersion)
    ensures |s| >= 3 && s[0] >= 0x80 && s[1] >= 0x80 && s[2] / 2 % 2 == 1 ==> Decode(s).Err?
  {
    ThreeFlags(s);
    hide ReadFlags, ReadHeaderFields, ReadChunk, ReadPayload;
  }

  /** Which parts of a header are there: decided by the flag bytes, whatever the bytes. */
  lemma HeaderReadsAs(s: Bytes)
    requires Decode(s).Ok?
    ensures s != []
    ensures var f0 := s[0];
            var f1 := if s[0] >= 0x80 && |s| > 1 then s[1] else 0;
            var f2 := if f1 >= 0x80 && |s| > 2 then s[2] else 0;
            var nm := Decode(s).value;
            && f0 % 16 == 1
            && (nm.publisherId.Some? <==> f0 / 0x10 % 2 == 1) && (nm.groupHeader.Some? <==> f0 / 0x20 % 2 == 1)
            && (f0 / 0x40 % 2 == 0 ==> nm.writerIds == [])
            && (nm.dataSetClassId.Some? <==> f1 / 0x08 % 2 == 1)
            && (nm.timestamp.Some? <==> f1 / 0x20 % 2 == 1) && (nm.picoseconds.Some? <==> f1 / 0x40 % 2 == 1)
            && (nm.chunk.Some? <==> f2 % 2 == 1) && !nm.promotedFields && f2 / 2 % 2 == 0
            && (nm.chunk.Some? ==> nm.payload == [])
            && (nm.publisherId.Some? ==> KindIs(nm.publisherId.value, f1 % 8))
  {
    ThreeFlags(s);
    hide ReadFlags, ReadHeaderFields, ReadChunk, ReadPayload;
    var f := ReadFlags(s).value;
    FieldsReadAs(f, ReadFlags(s).rest);
  }

  /** The kind of a publisher id that these type bits stand for; a null string is read as null. */
  predicate KindIs(p: PublisherId, bits: int) {
    if bits <= 2 then p.NumberId? else if bits == 3 then p.BigIntId? else bits == 4 && (p.StringId? || p.NullId?)
  }

  lemma FieldsReadAs(f: HeaderFlags, s: Bytes)
    requires ReadHeaderFields(f, s).Got?
    ensures var nm := ReadHeaderFields(f, s).value;
            && (nm.publisherId.Some? <==> Has(f.uadp, 0x10)) && (nm.groupHeader.Some? <==> Has(f.uadp, 0x20))
            && (!Has(f.uadp, 0x40) ==> nm.writerIds == [])
            && (nm.dataSetClassId.Some? <==> Has(f.ext1, 0x08))
            && (nm.timestamp.Some? <==> Has(f.ext1, 0x20)) && (nm.picoseconds.Some? <==> Has(f.ext1, 0x40))
            && nm.chunk.None? && !nm.promotedFields && nm.payload == []
            && (nm.publisherId.Some? ==> KindIs(nm.publisherId.value, f.ext1 % 8))
  {
    hide ReadUnsigned, ReadWriterIds, ReadGroupHeader, Guid.ReadGuid, ReadDateTime, ReadNullableText, Has;
  }

  /** RawData is refused, and so are unknown types and publisher id kinds. */
  lemma Refusals(s: Bytes, t: int)
    ensures t !in {1, 2, 3, 4, 5, 6, 7, 8, 9, 10, 11, 12, 13, 14, 15, 19} ==>
              ReadScalar(t, s) == Threw(UnsupportedBuiltInType)
    ensures t > 4 ==> ReadPublisherId(t, s) == Threw(InvalidPublisherIdType)
    ensures ReadDataSetHeader(s).Got? && s[0] / 2 % 4 == 1 ==> ReadDataSetMessage(s) == Threw(RawDataNeedsMetadata)
  {
    if ReadDataSetHeader(s).Got? {
      DataSetFlagsReadAs(s);
    }
    hide ReadDataSetHeader, ReadFields;
  }

  // ----- dimensions

  /** A list of Int32, one after the other. */
  function Int32sBytes(ns: seq<int>): Encoded {
    if ns == [] then Ok([])
    else
      var first :- Signed(ns[0], 4);
      var rest :- Int32sBytes(ns[1..]);
      Ok(first + rest)
  }

  lemma {:induction false} IntsReadBack(ns: seq<int>, rest: Bytes)
    requires Int32sBytes(ns).Ok?
    ensures ReadInts(Int32sBytes(ns).value + rest, |ns|) == Got(ns, rest)
  {
    hide Signed, ReadSigned;
    if ns == [] {
      assert Int32sBytes(ns).value + rest == rest;
    } else {
      var first, more := Signed(ns[0], 4).value, Int32sBytes(ns[1..]).value;
      Regroup(first, more, rest);
      SignedRoundTrip(ns[0], 4, more + rest);
      IntsReadBack(ns[1..], rest);
      assert ns == [ns[0]] + ns[1..];
    }
  }

  /** A dimension list on the wire is its count and its numbers, and reads back as that list, in order. */
  lemma DimensionsReadBack(ns: seq<int>, rest: Bytes)
    requires Signed(|ns|, 4).Ok? && Int32sBytes(ns).Ok?
    ensures ReadDimensions(true, Signed(|ns|, 4).value + (Int32sBytes(ns).value + rest)) == Got(Some(ns), rest)
  {
    SignedRoundTrip(|ns|, 4, Int32sBytes(ns).value + rest);
    IntsReadBack(ns, rest);
    hide Signed, ReadSigned, Int32sBytes, ReadInts;
  }

  /** What follows the encoding byte of a Variant without the dimension bit is its content. */
  lemma ContentFollows(e: Byte, s: Bytes)
    requires 0 < e < 0x80 && ReadVariant([e] + s).Got?
    ensures var p := ReadVariant([e] + s);
            p.value.Variant? && ReadContent(e % 64, Has(e, 0x40), s) == Got(p.value.content, p.rest)
  {
    ReadOneByte(e, s);
    ArrayBit(e);
    hide ReadContent, ReadUnsigned, Has;
  }

  lemma ContentThenDimensions(e: Byte, s: Bytes, content: Content, ns: seq<int>, between: Bytes, rest: Bytes)
    requires e >= 0x80 && ReadContent(e % 64, Has(e, 0x40), s) == Got(content, between)
    requires ReadDimensions(true, between) == Got(Some(ns), rest)
    ensures ReadVariant([e] + s) == Got(Variant(Ordinal(e % 64), content, Some(ns)), rest)
  {
    ReadOneByte(e, s);
    HighBit(e);
    hide ReadContent, ReadUnsigned, Has, ReadDimensions;
  }

  /** An encoded Variant with the dimension bit set and a dimension list behind it reads as that Variant with them. */
  lemma VariantWithDimensions(v: Variant, ns: seq<int>, e: Byte, body: Bytes, rest: Bytes)
    requires v.Variant? && 0 < e < 0x80 && VariantBytes(v) == Ok([e] + body)
    requires Signed(|ns|, 4).Ok? && Int32sBytes(ns).Ok?
    ensures ReadVariant([e + 0x80] + (body + (Signed(|ns|, 4).value + (Int32sBytes(ns).value + rest))))
         == Got(Variant(Ordinal(e % 64), NormalContent(v.dataType.Number(), v.content), Some(ns)), rest)
  {
    var dims := Signed(|ns|, 4).value + (Int32sBytes(ns).value + rest);
    VariantRoundTrip(v, dims);
    DimensionsReadBack(ns, rest);
    Regroup([e], body, dims);
    hide VariantBytes, Signed, Int32sBytes, ReadDimensions, ReadVariant, ReadContent, NormalContent, TypeRef.Number;
    ContentFollows(e, body + dims);
    ArrayBit(e);
    ContentThenDimensions(e + 0x80, body + dims, NormalContent(v.dataType.Number(), v.content), ns, dims, rest);
  }

  lemma ArrayBit(e: Byte)
    requires e < 0x80
    ensures !Has(e, 0x80) && Has(e + 0x80, 0x80) && (Has(e + 0x80, 0x40) <==> Has(e, 0x40)) && (e + 0x80) % 64 == e % 64
  {
  }
}
