/**
 Decoding arbitrary bytes: every reader either fails or leaves a proper suffix of what it was given, and
 no count found on the wire makes it do more steps than there are bytes.
 */
module UadpTotality {
  import opened Wrappers
  import opened Wire
  import opened UadpModel
  import opened UadpSpec
  import Guid
  import JsMap

  /** `rest` is what remains of `s` after at least `n` bytes have been consumed. */
  predicate Consumed(s: Bytes, rest: Bytes, n: nat) {
    |rest| + n <= |s| && rest == s[|s| - |rest|..]
  }

  lemma ConsumedTwice(s: Bytes, s1: Bytes, s2: Bytes, n: nat, m: nat)
    requires Consumed(s, s1, n) && Consumed(s1, s2, m)
    ensures Consumed(s, s2, n + m)
  {
  }

  lemma UnsignedConsumes(s: Bytes, n: nat)
    ensures var p := ReadUnsigned(s, n); p.Got? ==> Consumed(s, p.rest, n)
    ensures var p := ReadSigned(s, n); p.Got? ==> Consumed(s, p.rest, n)
    ensures var p := ReadBytes(s, n); p.Got? ==> Consumed(s, p.rest, n)
  {
  }

  lemma TextConsumes(s: Bytes)
    ensures var p := ReadNullableText(s); p.Got? ==> Consumed(s, p.rest, 4)
  {
    UnsignedConsumes(s, 4);
    if ReadUnsigned(s, 4).Got? {
      UnsignedConsumes(s[4..], FromLE(s[..4]));
    }
  }

  lemma GuidConsumes(s: Bytes)
    ensures var p := Guid.ReadGuid(s); p.Got? ==> Consumed(s, p.rest, 16)
  {
    hide FromLE, Guid.GuidText;
    if Guid.ReadGuid(s).Got? {
      assert s[4..][2..] == s[6..] && s[6..][2..] == s[8..] && s[8..][2..] == s[10..] && s[10..][6..] == s[16..];
    }
  }

  lemma ScalarConsumes(t: int, s: Bytes)
    ensures var p := ReadScalar(t, s); p.Got? ==> Consumed(s, p.rest, 1)
  {
    hide ReadUnsigned, ReadSigned, ReadBytes, ReadNullableText, Guid.ReadGuid, Consumed, ReadDateTime;
    if t == 1 {
      UnsignedConsumes(s, 1);
    } else if IsSignedType(t) || IsUnsignedType(t) || t == 10 || t == 11 {
      FixedConsumes(s, Width(t));
    } else if t == 12 || t == 15 {
      TextConsumes(s);
      AtLeastOne(s, ReadNullableText(s), 4);
    } else if t == 13 {
      DateTimeConsumes(s);
    } else if t == 14 {
      GuidConsumes(s);
      AtLeastOne(s, Guid.ReadGuid(s), 16);
    } else if t == 19 {
      FixedConsumes(s, 4);
    }
  }

  lemma AtLeastOne<T>(s: Bytes, p: Parsed<T>, n: nat)
    requires n > 0 && (p.Got? ==> Consumed(s, p.rest, n))
    ensures p.Got? ==> Consumed(s, p.rest, 1)
  {
  }

  lemma FixedConsumes(s: Bytes, n: nat)
    requires n > 0
    ensures ReadUnsigned(s, n).Got? ==> Consumed(s, ReadUnsigned(s, n).rest, 1)
    ensures ReadSigned(s, n).Got? ==> Consumed(s, ReadSigned(s, n).rest, 1)
    ensures ReadBytes(s, n).Got? ==> Consumed(s, ReadBytes(s, n).rest, 1)
  {
    hide ReadUnsigned, ReadSigned, ReadBytes, Consumed;
    UnsignedConsumes(s, n);
    AtLeastOne(s, ReadUnsigned(s, n), n);
    AtLeastOne(s, ReadSigned(s, n), n);
    AtLeastOne(s, ReadBytes(s, n), n);
  }

  lemma DateTimeConsumes(s: Bytes)
    ensures ReadDateTime(s).Got? ==> Consumed(s, ReadDateTime(s).rest, 1)
  {
    hide ReadUnsigned, Consumed;
    FixedConsumes(s, 8);
  }

  /** An array of declared length `n`: as many elements as declared, each from at least one byte of its own. */
  lemma {:induction false} ScalarsBounded(t: int, s: Bytes, n: int)
    ensures var p := ReadScalars(t, s, n);
            p.Got? ==> Consumed(s, p.rest, |p.value|) && |p.value| == if n <= 0 then 0 else n
    decreases n
  {
    hide ReadScalar;
    if n > 0 && ReadScalar(t, s).Got? {
      ScalarConsumes(t, s);
      var s1 := ReadScalar(t, s).rest;
      ScalarsBounded(t, s1, n - 1);
      if ReadScalars(t, s1, n - 1).Got? {
        ConsumedTwice(s, s1, ReadScalars(t, s1, n - 1).rest, 1, |ReadScalars(t, s1, n - 1).value|);
      }
    }
  }

  /** The loop stops: a length above the number of bytes left fails after at most one step per byte and one more. */
  lemma {:induction false} ScalarsStop(t: int, s: Bytes, n: int)
    requires n > |s|
    ensures ReadScalars(t, s, n).Threw? && ReadScalars(t, s, n) == ReadScalars(t, s, |s| + 1)
    decreases n
  {
    hide ReadScalar;
    if ReadScalar(t, s).Got? {
      ScalarConsumes(t, s);
      var s1 := ReadScalar(t, s).rest;
      ScalarsStop(t, s1, n - 1);
      ScalarsStop(t, s1, |s|);
    }
  }

  lemma {:induction false} IntsBounded(s: Bytes, n: int)
    ensures var p := ReadInts(s, n);
            p.Got? ==> Consumed(s, p.rest, 4 * |p.value|) && |p.value| == if n <= 0 then 0 else n
    decreases n
  {
    hide ReadSigned;
    if n > 0 && ReadSigned(s, 4).Got? {
      UnsignedConsumes(s, 4);
      var s1 := ReadSigned(s, 4).rest;
      IntsBounded(s1, n - 1);
      if ReadInts(s1, n - 1).Got? {
        ConsumedTwice(s, s1, ReadInts(s1, n - 1).rest, 4, 4 * |ReadInts(s1, n - 1).value|);
      }
    }
  }

  lemma {:induction false} IntsStop(s: Bytes, n: int)
    requires n > |s|
    ensures ReadInts(s, n).Threw? && ReadInts(s, n) == ReadInts(s, |s| + 1)
    decreases n
  {
    hide ReadSigned;
    if ReadSigned(s, 4).Got? {
      UnsignedConsumes(s, 4);
      var s1 := ReadSigned(s, 4).rest;
      IntsStop(s1, n - 1);
      IntsStop(s1, |s|);
    }
  }

  lemma ContentConsumes(t: int, isArray: bool, s: Bytes)
    ensures var p := ReadContent(t, isArray, s); p.Got? ==> Consumed(s, p.rest, 1)
  {
    hide ReadScalar, ReadScalars, ReadSigned;
    if isArray {
      UnsignedConsumes(s, 4);
      if ReadSigned(s, 4).Got? {
        ScalarsBounded(t, ReadSigned(s, 4).rest, ReadSigned(s, 4).value);
      }
    } else {
      ScalarConsumes(t, s);
    }
  }

  lemma DimensionsConsume(present: bool, s: Bytes)
    ensures var p := ReadDimensions(present, s); p.Got? ==> Consumed(s, p.rest, 0)
  {
    hide ReadInts, ReadSigned;
    UnsignedConsumes(s, 4);
    if ReadSigned(s, 4).Got? {
      IntsBounded(ReadSigned(s, 4).rest, ReadSigned(s, 4).value);
    }
  }

  lemma VariantConsumes(s: Bytes)
    ensures var p := ReadVariant(s); p.Got? ==> Consumed(s, p.rest, 1)
  {
    hide ReadContent, ReadDimensions, ReadUnsigned, Has;
    UnsignedConsumes(s, 1);
    if ReadUnsigned(s, 1).Got? {
      var e, s1 := ReadUnsigned(s, 1).value, ReadUnsigned(s, 1).rest;
      ContentConsumes(e % 64, Has(e, 0x40), s1);
      if ReadContent(e % 64, Has(e, 0x40), s1).Got? {
        DimensionsConsume(Has(e, 0x80), ReadContent(e % 64, Has(e, 0x40), s1).rest);
      }
    }
  }

  lemma OptionalConsumes(present: bool, s: Bytes, n: nat)
    ensures var p := ReadOptionalUnsigned(present, s, n); p.Got? ==> Consumed(s, p.rest, 0)
    ensures var p := ReadOptionalDateTime(present, s); p.Got? ==> Consumed(s, p.rest, 0)
    ensures var p := ReadOptionalVariant(present, s); p.Got? ==> Consumed(s, p.rest, 0)
  {
    hide ReadUnsigned, ReadVariant;
    UnsignedConsumes(s, n);
    UnsignedConsumes(s, 8);
    VariantConsumes(s);
  }

  lemma DataValueConsumes(s: Bytes)
    ensures var p := ReadDataValue(s); p.Got? ==> Consumed(s, p.rest, 1)
  {
    hide ReadUnsigned, ReadOptionalUnsigned, ReadOptionalDateTime, ReadOptionalVariant, Has, Consumed;
    if ReadDataValue(s).Got? {
      UnsignedConsumes(s, 1);
      var (mask, s0) := ReadUnsigned(s, 1).Extract();
      OptionalConsumes(Has(mask, 0x01), s0, 0);
      var s1 := ReadOptionalVariant(Has(mask, 0x01), s0).rest;
      ConsumedTwice(s, s0, s1, 1, 0);
      OptionalConsumes(Has(mask, 0x02), s1, 4);
      var s2 := ReadOptionalUnsigned(Has(mask, 0x02), s1, 4).rest;
      ConsumedTwice(s, s1, s2, 1, 0);
      OptionalConsumes(Has(mask, 0x04), s2, 0);
      var s3 := ReadOptionalDateTime(Has(mask, 0x04), s2).rest;
      ConsumedTwice(s, s2, s3, 1, 0);
      OptionalConsumes(Has(mask, 0x08), s3, 0);
      var s4 := ReadOptionalDateTime(Has(mask, 0x08), s3).rest;
      ConsumedTwice(s, s3, s4, 1, 0);
      OptionalConsumes(Has(mask, 0x10), s4, 2);
      var s5 := ReadOptionalUnsigned(Has(mask, 0x10), s4, 2).rest;
      ConsumedTwice(s, s4, s5, 1, 0);
      OptionalConsumes(Has(mask, 0x20), s5, 2);
      ConsumedTwice(s, s5, ReadOptionalUnsigned(Has(mask, 0x20), s5, 2).rest, 1, 0);
    }
  }

  lemma NamedFieldConsumes(e: FieldEncoding, s: Bytes)
    requires e != AsRawData
    ensures var p := ReadNamedField(e, s); p.Got? ==> Consumed(s, p.rest, 3)
  {
    hide ReadUnsigned, ReadBytes, ReadVariant, ReadDataValue;
    if ReadNamedField(e, s).Got? {
      UnsignedConsumes(s, 2);
      var (len, s1) := ReadUnsigned(s, 2).Extract();
      UnsignedConsumes(s1, len);
      var s2 := ReadBytes(s1, len).rest;
      VariantConsumes(s2);
      DataValueConsumes(s2);
    }
  }

  /** A declared field count: each field takes at least three bytes, or the loop stops. */
  lemma {:induction false} NamedFieldsBounded(e: FieldEncoding, s: Bytes, n: nat, fields: Fields)
    requires e != AsRawData
    ensures var p := ReadNamedFields(e, s, n, fields); p.Got? ==> Consumed(s, p.rest, 3 * n)
    decreases n
  {
    hide ReadNamedField, JsMap.Set;
    if n > 0 && ReadNamedField(e, s).Got? {
      NamedFieldConsumes(e, s);
      var (f, s1) := ReadNamedField(e, s).Extract();
      var more := JsMap.Set(fields, f.0, f.1);
      NamedFieldsBounded(e, s1, n - 1, more);
      if ReadNamedFields(e, s1, n - 1, more).Got? {
        ConsumedTwice(s, s1, ReadNamedFields(e, s1, n - 1, more).rest, 3, 3 * (n - 1));
      }
    }
  }

  lemma {:induction false} NamedFieldsStop(e: FieldEncoding, s: Bytes, n: nat, fields: Fields)
    requires e != AsRawData && n > |s|
    ensures ReadNamedFields(e, s, n, fields).Threw?
    ensures ReadNamedFields(e, s, n, fields) == ReadNamedFields(e, s, |s| + 1, fields)
    decreases n
  {
    hide ReadNamedField, JsMap.Set;
    if ReadNamedField(e, s).Got? {
      NamedFieldConsumes(e, s);
      var (f, s1) := ReadNamedField(e, s).Extract();
      var more := JsMap.Set(fields, f.0, f.1);
      NamedFieldsStop(e, s1, n - 1, more);
      NamedFieldsStop(e, s1, |s|, more);
    }
  }

  lemma DataSetFlagsConsume(s: Bytes)
    ensures var p := ReadDataSetFlags(s); p.Got? ==> Consumed(s, p.rest, 1)
  {
    hide ReadUnsigned, Has, Consumed;
    if ReadDataSetFlags(s).Got? {
      UnsignedConsumes(s, 1);
      var (f1, s1) := ReadUnsigned(s, 1).Extract();
      UnsignedConsumes(s1, 1);
      Unmoved(s1);
      var (f2, s2) := (if Has(f1, 0x80) then ReadUnsigned(s1, 1) else Got(0, s1)).Extract();
      Weaken(s1, s2);
      ConsumedTwice(s, s1, s2, 1, 0);
    }
  }

  lemma DataSetHeaderConsumes(s: Bytes)
    ensures var p := ReadDataSetHeader(s); p.Got? ==> Consumed(s, p.rest, 1)
  {
    hide ReadDataSetFlags, ReadOptionalUnsigned, ReadOptionalDateTime, Has, Consumed, FieldEncodingOf, MessageTypeOf;
    if ReadDataSetHeader(s).Got? {
      DataSetFlagsConsume(s);
      var ((f1, f2), s2) := ReadDataSetFlags(s).Extract();
      OptionalConsumes(Has(f1, 0x08), s2, 2);
      var s3 := ReadOptionalUnsigned(Has(f1, 0x08), s2, 2).rest;
      ConsumedTwice(s, s2, s3, 1, 0);
      OptionalConsumes(Has(f1, 0x10), s3, 2);
      var s4 := ReadOptionalUnsigned(Has(f1, 0x10), s3, 2).rest;
      ConsumedTwice(s, s3, s4, 1, 0);
      OptionalConsumes(Has(f1, 0x20), s4, 4);
      var s5 := ReadOptionalUnsigned(Has(f1, 0x20), s4, 4).rest;
      ConsumedTwice(s, s4, s5, 1, 0);
      OptionalConsumes(Has(f1, 0x40), s5, 4);
      var s6 := ReadOptionalUnsigned(Has(f1, 0x40), s5, 4).rest;
      ConsumedTwice(s, s5, s6, 1, 0);
      OptionalConsumes(Has(f2, 0x10), s6, 0);
      var s7 := ReadOptionalDateTime(Has(f2, 0x10), s6).rest;
      ConsumedTwice(s, s6, s7, 1, 0);
      OptionalConsumes(Has(f2, 0x20), s7, 2);
      ConsumedTwice(s, s7, ReadOptionalUnsigned(Has(f2, 0x20), s7, 2).rest, 1, 0);
    }
  }

  lemma Unmoved(s: Bytes)
    ensures Consumed(s, s, 0)
  {
  }

  lemma Weaken(s: Bytes, rest: Bytes)
    ensures Consumed(s, rest, 1) ==> Consumed(s, rest, 0)
  {
  }

  lemma DataSetMessageConsumes(s: Bytes)
    ensures var p := ReadDataSetMessage(s); p.Got? ==> Consumed(s, p.rest, 1)
  {
    hide ReadDataSetHeader, ReadNamedFields, ReadUnsigned, Consumed;
    if ReadDataSetMessage(s).Got? {
      DataSetHeaderConsumes(s);
      var (m, s1) := ReadDataSetHeader(s).Extract();
      if m.messageType != KeepAlive {
        UnsignedConsumes(s1, 2);
        var (count, s2) := ReadUnsigned(s1, 2).Extract();
        NamedFieldsBounded(m.fieldEncoding, s2, count, []);
        var s3 := ReadNamedFields(m.fieldEncoding, s2, count, []).rest;
        ConsumedTwice(s, s1, s2, 1, 2);
        ConsumedTwice(s, s2, s3, 3, 3 * count);
        AtLeast(s, s3, 3 + 3 * count, 1);
      }
    }
  }

  lemma AtLeast(s: Bytes, rest: Bytes, n: nat, m: nat)
    requires Consumed(s, rest, n) && m <= n
    ensures Consumed(s, rest, m)
  {
  }

  // ----- the NetworkMessage

  lemma {:induction false} UInt16sBounded(s: Bytes, n: nat)
    ensures var p := ReadUInt16s(s, n);
            p.Got? ==> Consumed(s, p.rest, 2 * n) && |p.value| == n && forall i :: 0 <= i < n ==> p.value[i] >= 0
  {
    hide ReadUnsigned;
    if n > 0 && ReadUnsigned(s, 2).Got? {
      UnsignedConsumes(s, 2);
      var s1 := ReadUnsigned(s, 2).rest;
      UInt16sBounded(s1, n - 1);
      if ReadUInt16s(s1, n - 1).Got? {
        ConsumedTwice(s, s1, ReadUInt16s(s1, n - 1).rest, 2, 2 * (n - 1));
      }
    }
  }

  /** Two bytes each: a count above half the bytes left fails, as the loop cut off after that many and one more. */
  lemma {:induction false} UInt16sStop(s: Bytes, n: nat)
    requires 2 * n > |s|
    ensures ReadUInt16s(s, n).Threw? && ReadUInt16s(s, n) == ReadUInt16s(s, |s| / 2 + 1)
    decreases n
  {
    hide ReadUnsigned;
    if ReadUnsigned(s, 2).Got? {
      UnsignedConsumes(s, 2);
      var s1 := ReadUnsigned(s, 2).rest;
      assert s1 == s[2..] by { UnsignedTakes(s, 2); }
      UInt16sStop(s1, n - 1);
      UInt16sStop(s1, |s| / 2);
    } else {
      UnsignedTakes(s, 2);
    }
  }

  lemma UnsignedTakes(s: Bytes, n: nat)
    ensures ReadUnsigned(s, n).Got? <==> |s| >= n
    ensures |s| >= n ==> ReadUnsigned(s, n).rest == s[n..]
  {
  }

  /** The slices of the size array: each one holds a message, so there are no more messages than bytes. */
  lemma {:induction false} SizedBounded(s: Bytes, sizes: seq<int>)
    requires forall i :: 0 <= i < |sizes| ==> sizes[i] >= 0
    ensures var p := ReadSized(s, sizes); p.Got? ==> Consumed(s, p.rest, |sizes|) && |p.value| == |sizes|
  {
    hide ReadDataSetMessage;
    if sizes != [] && |s| >= sizes[0] {
      var slice := s[..sizes[0]];
      DataSetMessageConsumes(slice);
      SizedBounded(s[sizes[0]..], sizes[1..]);
      if ReadSized(s, sizes).Got? {
        ConsumedTwice(s, s[sizes[0]..], ReadSized(s, sizes).rest, 1, |sizes| - 1);
      }
    }
  }

  /** More sizes than bytes: some slice is empty or beyond the end, and the loop stops there. */
  lemma {:induction false} SizedStop(s: Bytes, sizes: seq<int>)
    requires (forall i :: 0 <= i < |sizes| ==> sizes[i] >= 0) && |sizes| > |s|
    ensures ReadSized(s, sizes).Threw? && ReadSized(s, sizes) == ReadSized(s, sizes[..|s| + 1])
    decreases |sizes|
  {
    hide ReadDataSetMessage;
    var k := sizes[0];
    if |s| >= k {
      var slice, s1 := s[..k], s[k..];
      DataSetMessageConsumes(slice);
      if ReadDataSetMessage(slice).Got? {
        var few := sizes[..|s| + 1];
        assert few[1..] == sizes[1..][..|s|] && few[1..][..|s1| + 1] == sizes[1..][..|s1| + 1];
        SizedStop(s1, sizes[1..]);
        SizedStop(s1, few[1..]);
      }
    }
  }

  lemma PayloadBounded(ids: seq<int>, s: Bytes)
    ensures var p := ReadPayload(ids, s); p.Got? ==> Consumed(s, p.rest, |p.value|)
  {
    hide ReadUInt16s, ReadSized, ReadDataSetMessage, Consumed;
    Unmoved(s);
    DataSetMessageConsumes(s);
    if |ids| > 1 && ReadUInt16s(s, |ids|).Got? {
      UInt16sBounded(s, |ids|);
      var (sizes, s1) := ReadUInt16s(s, |ids|).Extract();
      SizedBounded(s1, sizes);
      if ReadSized(s1, sizes).Got? {
        ConsumedTwice(s, s1, ReadSized(s1, sizes).rest, 2 * |ids|, |ids|);
        AtLeast(s, ReadSized(s1, sizes).rest, 3 * |ids|, |ids|);
      }
    }
  }

  lemma PublisherIdConsumes(bits: int, s: Bytes)
    ensures var p := ReadPublisherId(bits, s); p.Got? ==> Consumed(s, p.rest, 0)
  {
    hide ReadNullableText, ReadUnsigned;
    TextConsumes(s);
    UnsignedConsumes(s, PublisherIdWidth(bits));
  }

  lemma GroupHeaderConsumes(s: Bytes)
    ensures var p := ReadGroupHeader(s); p.Got? ==> Consumed(s, p.rest, 0)
  {
    hide FromLE;
  }

  lemma OriginConsumes(f: HeaderFlags, s: Bytes)
    ensures var p := ReadOrigin(f, s); p.Got? ==> Consumed(s, p.rest, 0)
  {
    hide ReadPublisherId, Guid.ReadGuid, ReadGroupHeader, Has, Consumed;
    if ReadOrigin(f, s).Got? {
      Unmoved(s);
      PublisherIdConsumes(f.ext1 % 8, s);
      var s1 := ReadOptionalPublisherId(f, s).rest;
      Unmoved(s1);
      GuidConsumes(s1);
      var s2 := ReadOptionalClassId(f, s1).rest;
      if Has(f.ext1, 0x08) {
        AtLeast(s1, s2, 16, 0);
      }
      ConsumedTwice(s, s1, s2, 0, 0);
      Unmoved(s2);
      GroupHeaderConsumes(s2);
      ConsumedTwice(s, s2, ReadOptionalGroupHeader(f, s2).rest, 0, 0);
    }
  }

  lemma WriterIdsBounded(f: HeaderFlags, s: Bytes)
    ensures var p := ReadOptionalWriterIds(f, s); p.Got? ==> Consumed(s, p.rest, 2 * |p.value|)
  {
    hide ReadUnsigned, ReadUInt16s, Has, Consumed;
    Unmoved(s);
    if Has(f.uadp, 0x40) && ReadUnsigned(s, 1).Got? {
      UnsignedConsumes(s, 1);
      var (count, s1) := ReadUnsigned(s, 1).Extract();
      UInt16sBounded(s1, count);
      if ReadUInt16s(s1, count).Got? {
        ConsumedTwice(s, s1, ReadUInt16s(s1, count).rest, 1, 2 * count);
        AtLeast(s, ReadUInt16s(s1, count).rest, 1 + 2 * count, 2 * count);
      }
    }
  }

  lemma HeaderFieldsConsume(f: HeaderFlags, s: Bytes)
    ensures var p := ReadHeaderFields(f, s); p.Got? ==> Consumed(s, p.rest, 2 * |p.value.writerIds|)
  {
    hide ReadOrigin, ReadOptionalWriterIds, ReadOptionalDateTime, ReadOptionalUnsigned, Has, Consumed;
    if ReadHeaderFields(f, s).Got? {
      OriginConsumes(f, s);
      var s1 := ReadOrigin(f, s).rest;
      WriterIdsBounded(f, s1);
      var (ids, s2) := ReadOptionalWriterIds(f, s1).Extract();
      ConsumedTwice(s, s1, s2, 0, 2 * |ids|);
      OptionalConsumes(Has(f.ext1, 0x20), s2, 0);
      var s3 := ReadOptionalDateTime(Has(f.ext1, 0x20), s2).rest;
      ConsumedTwice(s, s2, s3, 2 * |ids|, 0);
      OptionalConsumes(Has(f.ext1, 0x40), s3, 2);
      ConsumedTwice(s, s3, ReadOptionalUnsigned(Has(f.ext1, 0x40), s3, 2).rest, 2 * |ids|, 0);
    }
  }

  lemma ChunkConsumes(s: Bytes)
    ensures var p := ReadChunk(s); p.Got? ==> Consumed(s, p.rest, |p.value.chunkData|)
  {
    hide FromLE;
    if ReadChunk(s).Got? {
      assert s[2..][4..] == s[6..] && s[6..][4..] == s[10..] && s[10..][4..] == s[14..];
    }
  }

  lemma FlagsConsume(s: Bytes)
    ensures var p := ReadFlags(s); p.Got? ==> Consumed(s, p.rest, 1)
  {
    hide FromLE, Has;
    if ReadFlags(s).Got? {
      assert forall i :: 0 < i <= |s| - 1 ==> s[1..][i..] == s[i + 1..];
    }
  }

  /**
   Whatever the bytes, decoding ends with an error or with a message all of whose parts were read from
   them: what is left is a proper suffix, and ids, messages and chunk data are paid for byte by byte.
   */
  lemma NetworkMessageBounded(s: Bytes)
    ensures var p := ReadNetworkMessage(s);
            p.Got? ==>
              && Consumed(s, p.rest, 1)
              && 2 * |p.value.writerIds| + |p.value.payload| < |s|
              && (p.value.chunk.Some? ==> |p.value.chunk.value.chunkData| < |s|)
  {
    hide ReadFlags, ReadHeaderFields, ReadChunk, ReadPayload, Has;
    if ReadNetworkMessage(s).Got? {
      FlagsConsume(s);
      var (f, s1) := ReadFlags(s).Extract();
      HeaderFieldsConsume(f, s1);
      HeaderHasNoPayload(f, s1);
      var (nm, s2) := ReadHeaderFields(f, s1).Extract();
      ChunkConsumes(s2);
      PayloadBounded(nm.writerIds, s2);
    }
  }

  lemma HeaderHasNoPayload(f: HeaderFlags, s: Bytes)
    ensures var p := ReadHeaderFields(f, s); p.Got? ==> p.value.payload == [] && p.value.chunk.None?
  {
    hide ReadOptionalPublisherId, ReadOptionalClassId, ReadOptionalGroupHeader, ReadOptionalWriterIds,
         ReadOptionalDateTime, ReadOptionalUnsigned;
  }
}
