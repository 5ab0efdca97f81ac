/** The encoder, as it runs: values appended to a growing stream, proved against the wire format. */
module UadpEncoder {
  import opened Wrappers
  import opened Collections
  import opened Wire
  import opened UadpModel
  import opened UadpSpec
  import opened UadpChunks
  import opened BinaryStream
  import Guid
  import UadpRoundTrip

  /** What a sequence of writes still has to yield after `done` has been written. */
  ghost function After(done: Bytes, e: Encoded): Encoded {
    match e
    case Ok(b) => Ok(done + b)
    case Err(x) => Err(x)
  }

  lemma AfterNothing(e: Encoded)
    ensures After([], e) == e
  {
    if e.Ok? {
      assert [] + e.value == e.value;
    }
  }

  lemma AfterMore(done: Bytes, b: Bytes, e: Encoded)
    ensures After(done, After(b, e)) == After(done + b, e)
  {
    if e.Ok? {
      Regroup(done, b, e.value);
    }
  }

  /** The bytes written so far, after one more write. */
  lemma Wrote(start: Bytes, done: Bytes, b: Bytes) returns (more: Bytes)
    ensures more == done + b && start + done + b == start + more
  {
    Regroup(start, done, b);
    more := done + b;
  }

  /** The same for a list of buffers. */
  ghost function AfterBuffers(done: seq<Bytes>, r: Result<seq<Bytes>, Error>): Result<seq<Bytes>, Error> {
    match r
    case Ok(bs) => Ok(done + bs)
    case Err(x) => Err(x)
  }

  lemma AfterNoBuffers(r: Result<seq<Bytes>, Error>)
    ensures AfterBuffers([], r) == r
  {
    if r.Ok? {
      assert [] + r.value == r.value;
    }
  }

  lemma AfterMoreBuffers(done: seq<Bytes>, b: Bytes, r: Result<seq<Bytes>, Error>)
    ensures AfterBuffers(done, AfterBuffers([b], r)) == AfterBuffers(done + [b], r)
  {
    if r.Ok? {
      assert done + ([b] + r.value) == done + [b] + r.value;
    }
  }

  // ----- Variant and DataValue

  method WriteGuid(st: Stream, g: Guid.Uuid) returns (o: Outcome<Error>)
    requires st.Valid()
    modifies st, st.buf
    ensures st.Valid() && (st.buf == old(st.buf) || fresh(st.buf))
    ensures Appends(Guid.GuidBytes(g), old(st.Written()), o, st.Written())
  {
    hide Unsigned, Guid.HexToBytes, Guid.ParseHex;
    ghost var start := st.Written();
    Guid.UuidParts(g);
    o := st.WriteUnsigned(Guid.ParseHex(g[..8]), 4);
    if o.Pass? {
      o := st.WriteUnsigned(Guid.ParseHex(g[9..13]), 2);
      if o.Pass? {
        o := st.WriteUnsigned(Guid.ParseHex(g[14..18]), 2);
        if o.Pass? {
          st.WriteBytes(Guid.HexToBytes(g[19..23] + g[24..]));
        }
      }
    }
  }

  method WriteVariantScalar(st: Stream, t: int, v: Value) returns (o: Outcome<Error>)
    requires st.Valid()
    modifies st, st.buf
    ensures st.Valid() && (st.buf == old(st.buf) || fresh(st.buf))
    ensures Appends(ScalarBytes(t, v), old(st.Written()), o, st.Written())
  {
    hide Guid.GuidBytes, NullableText, DateTime, Signed, Unsigned, LE;
    o := Fail(TypeMismatch);
    if t == 1 {
      if v.Bool? {
        st.WriteBytes([if v.b then 1 else 0]);
        o := Pass;
      }
    } else if IsSignedType(t) {
      if v.Num? {
        o := st.WriteSigned(v.n, Width(t));
      }
    } else if IsUnsignedType(t) {
      if v.Num? {
        o := st.WriteUnsigned(v.n, Width(t));
      }
    } else if t == 10 || t == 11 {
      if v.Bits? && |v.bits| == Width(t) {
        st.WriteBytes(v.bits);
        o := Pass;
      }
    } else if t == 12 || t == 15 {
      if v.Str? {
        o := st.WriteNullableText(v.text);
      }
    } else if t == 13 {
      if v.Date? {
        o := st.WriteDateTime(v.ms);
      }
    } else if t == 14 {
      if v.Uuid? {
        o := WriteGuid(st, v.guid);
      }
    } else if t == 19 {
      if v.Num? {
        st.WriteBytes(LE(v.n % 0x1_0000_0000, 4));
        o := Pass;
      }
    } else {
      o := Fail(UnsupportedBuiltInType);
    }
  }

  method WriteScalars(st: Stream, t: int, vs: seq<Value>) returns (o: Outcome<Error>)
    requires st.Valid()
    modifies st, st.buf
    ensures st.Valid() && (st.buf == old(st.buf) || fresh(st.buf))
    ensures Appends(ScalarsBytes(t, vs), old(st.Written()), o, st.Written())
  {
    hide ScalarBytes;
    ghost var start, done := st.Written(), [];
    AfterNothing(ScalarsBytes(t, vs));
    assert vs[0..] == vs && start + [] == start;
    var i := 0;
    while i < |vs|
      invariant 0 <= i <= |vs|
      invariant st.Valid() && (st.buf == old(st.buf) || fresh(st.buf))
      invariant st.Written() == start + done
      invariant ScalarsBytes(t, vs) == After(done, ScalarsBytes(t, vs[i..]))
    {
      assert vs[i..][1..] == vs[i + 1..];
      o := WriteVariantScalar(st, t, vs[i]);
      if o.Fail? {
        return;
      }
      AfterMore(done, ScalarBytes(t, vs[i]).value, ScalarsBytes(t, vs[i + 1..]));
      Regroup(start, done, ScalarBytes(t, vs[i]).value);
      done := done + ScalarBytes(t, vs[i]).value;
      i := i + 1;
    }
    assert done + [] == done;
    o := Pass;
  }

  method WriteVariant(st: Stream, v: Variant) returns (o: Outcome<Error>)
    requires st.Valid()
    modifies st, st.buf
    ensures st.Valid() && (st.buf == old(st.buf) || fresh(st.buf))
    ensures Appends(VariantBytes(v), old(st.Written()), o, st.Written())
  {
    hide ScalarBytes, ScalarsBytes, Signed, TypeRef.Number;
    match v
    case NullVariant =>
      st.WriteBytes([0]);
      o := Pass;
    case Variant(dataType, content, _) =>
      var t := dataType.Number();
      if t == 0 {
        return Fail(UnknownType);
      }
      match content
      case Scalar(x) =>
        st.WriteBytes([t % 64]);
        o := WriteVariantScalar(st, t, x);
      case Array(xs) =>
        st.WriteBytes([t % 64 + 0x40]);
        o := st.WriteSigned(|xs|, 4);
        if o.Pass? {
          o := WriteScalars(st, t, xs);
        }
  }

  method WriteOptionalUnsigned(st: Stream, v: Option<int>, n: nat) returns (o: Outcome<Error>)
    requires st.Valid()
    modifies st, st.buf
    ensures st.Valid() && (st.buf == old(st.buf) || fresh(st.buf))
    ensures Appends(OptionalUnsigned(v, n), old(st.Written()), o, st.Written())
  {
    hide Unsigned;
    if v.Some? {
      o := st.WriteUnsigned(v.value, n);
    } else {
      o := Pass;
    }
  }

  method WriteOptionalDateTime(st: Stream, ms: Option<int>) returns (o: Outcome<Error>)
    requires st.Valid()
    modifies st, st.buf
    ensures st.Valid() && (st.buf == old(st.buf) || fresh(st.buf))
    ensures Appends(OptionalDateTime(ms), old(st.Written()), o, st.Written())
  {
    hide DateTime;
    if ms.Some? {
      o := st.WriteDateTime(ms.value);
    } else {
      o := Pass;
    }
  }

  method WriteOptionalVariant(st: Stream, v: Option<Variant>) returns (o: Outcome<Error>)
    requires st.Valid()
    modifies st, st.buf
    ensures st.Valid() && (st.buf == old(st.buf) || fresh(st.buf))
    ensures Appends(OptionalVariant(v), old(st.Written()), o, st.Written())
  {
    hide VariantBytes;
    if v.Some? && !v.value.NullVariant? {
      o := WriteVariant(st, v.value);
    } else {
      o := Pass;
    }
  }

  method WriteDataValue(st: Stream, dv: Option<DataValue>) returns (o: Outcome<Error>)
    requires st.Valid()
    modifies st, st.buf
    ensures st.Valid() && (st.buf == old(st.buf) || fresh(st.buf))
    ensures Appends(DataValueBytes(dv), old(st.Written()), o, st.Written())
  {
    hide Stream.Valid, Stream.Written, OptionalVariant, OptionalUnsigned, OptionalDateTime, DataValueMask, NormalStatus;
    if dv.None? {
      st.WriteBytes([0]);
      return Pass;
    }
    var d := dv.value;
    ghost var start, done := st.Written(), [DataValueMask(d)];
    st.WriteBytes([DataValueMask(d)]);
    o := WriteOptionalVariant(st, d.value);
    if o.Fail? { return; }
    done := Wrote(start, done, OptionalVariant(d.value).value);
    o := WriteOptionalUnsigned(st, NormalStatus(d.statusCode), 4);
    if o.Fail? { return; }
    done := Wrote(start, done, OptionalUnsigned(NormalStatus(d.statusCode), 4).value);
    o := WriteOptionalDateTime(st, d.sourceTimestamp);
    if o.Fail? { return; }
    done := Wrote(start, done, OptionalDateTime(d.sourceTimestamp).value);
    o := WriteOptionalDateTime(st, d.serverTimestamp);
    if o.Fail? { return; }
    done := Wrote(start, done, OptionalDateTime(d.serverTimestamp).value);
    o := WriteOptionalUnsigned(st, d.sourcePicoseconds, 2);
    if o.Fail? { return; }
    done := Wrote(start, done, OptionalUnsigned(d.sourcePicoseconds, 2).value);
    o := WriteOptionalUnsigned(st, d.serverPicoseconds, 2);
    if o.Fail? { return; }
    done := Wrote(start, done, OptionalUnsigned(d.serverPicoseconds, 2).value);
  }

  // ----- DataSetMessage

  method WriteField(st: Stream, e: FieldEncoding, f: Field) returns (o: Outcome<Error>)
    requires st.Valid()
    modifies st, st.buf
    ensures st.Valid() && (st.buf == old(st.buf) || fresh(st.buf))
    ensures Appends(FieldBytes(e, f), old(st.Written()), o, st.Written())
  {
    hide VariantBytes, DataValueBytes, ScalarBytes, TypeRef.Number;
    o := Fail(TypeMismatch);
    match e
    case AsVariant =>
      if f.VariantField? {
        o := WriteVariant(st, f.variant);
      }
    case AsDataValue =>
      if f.DataValueField? {
        o := WriteDataValue(st, f.dataValue);
      }
    case AsRawData =>
      if f.VariantField? && f.variant.Variant? {
        var t := f.variant.dataType.Number();
        if t == 0 {
          o := Fail(RawDataUnknownType);
        } else if f.variant.content.Scalar? {
          o := WriteVariantScalar(st, t, f.variant.content.value);
        }
      }
  }

  method WriteNamedField(st: Stream, e: FieldEncoding, name: Text, f: Field) returns (o: Outcome<Error>)
    requires st.Valid()
    modifies st, st.buf
    ensures st.Valid() && (st.buf == old(st.buf) || fresh(st.buf))
    ensures Appends(NamedFieldBytes(e, name, f), old(st.Written()), o, st.Written())
  {
    hide Unsigned, FieldBytes;
    o := st.WriteUnsigned(|name|, 2);
    if o.Fail? { return; }
    st.WriteBytes(name);
    o := WriteField(st, e, f);
  }

  method WriteFields(st: Stream, m: DataSetMessage) returns (o: Outcome<Error>)
    requires st.Valid()
    modifies st, st.buf
    ensures st.Valid() && (st.buf == old(st.buf) || fresh(st.buf))
    ensures Appends(FieldsBytes(m), old(st.Written()), o, st.Written())
  {
    hide NamedFieldBytes, Unsigned;
    if m.messageType == KeepAlive {
      return Pass;
    }
    var e, fs := m.fieldEncoding, m.fields;
    o := st.WriteUnsigned(|fs|, 2);
    if o.Fail? { return; }
    ghost var start, done := st.Written(), [];
    AfterNothing(NamedFieldsBytes(e, fs));
    assert fs[0..] == fs && start + [] == start;
    var i := 0;
    while i < |fs|
      invariant 0 <= i <= |fs|
      invariant st.Valid() && (st.buf == old(st.buf) || fresh(st.buf))
      invariant st.Written() == start + done
      invariant NamedFieldsBytes(e, fs) == After(done, NamedFieldsBytes(e, fs[i..]))
    {
      assert fs[i..][1..] == fs[i + 1..];
      o := WriteNamedField(st, e, fs[i].0, fs[i].1);
      if o.Fail? { return; }
      AfterMore(done, NamedFieldBytes(e, fs[i].0, fs[i].1).value, NamedFieldsBytes(e, fs[i + 1..]));
      Regroup(start, done, NamedFieldBytes(e, fs[i].0, fs[i].1).value);
      done := done + NamedFieldBytes(e, fs[i].0, fs[i].1).value;
      i := i + 1;
    }
    assert done + [] == done;
    o := Pass;
  }

  method WriteDataSetFlags(st: Stream, m: DataSetMessage)
    requires st.Valid()
    modifies st, st.buf
    ensures st.Valid() && (st.buf == old(st.buf) || fresh(st.buf))
    ensures st.Written() == old(st.Written()) + DataSetFlagBytes(m)
  {
    hide DataSetFlags1, DataSetFlags2;
    st.WriteBytes([DataSetFlags1(m)]);
    if DataSetFlags2(m) != 0 {
      st.WriteBytes([DataSetFlags2(m)]);
    }
  }

  method WriteDataSetState(st: Stream, m: DataSetMessage) returns (o: Outcome<Error>)
    requires st.Valid()
    modifies st, st.buf
    ensures st.Valid() && (st.buf == old(st.buf) || fresh(st.buf))
    ensures Appends(DataSetStateBytes(m), old(st.Written()), o, st.Written())
  {
    hide Stream.Valid, Stream.Written, OptionalUnsigned;
    ghost var start := st.Written();
    o := WriteOptionalUnsigned(st, m.sequenceNumber, 2);
    if o.Fail? { return; }
    ghost var done := OptionalUnsigned(m.sequenceNumber, 2).value;
    o := WriteOptionalUnsigned(st, m.status, 2);
    if o.Fail? { return; }
    done := Wrote(start, done, OptionalUnsigned(m.status, 2).value);
    o := WriteOptionalUnsigned(st, m.major, 4);
    if o.Fail? { return; }
    done := Wrote(start, done, OptionalUnsigned(m.major, 4).value);
    o := WriteOptionalUnsigned(st, m.minor, 4);
    if o.Fail? { return; }
    done := Wrote(start, done, OptionalUnsigned(m.minor, 4).value);
  }

  /** A timestamp and its picoseconds, each under its flag; the same in both kinds of header. */
  method WriteTime(st: Stream, timestamp: Option<int>, picoseconds: Option<int>) returns (o: Outcome<Error>)
    requires st.Valid()
    modifies st, st.buf
    ensures st.Valid() && (st.buf == old(st.buf) || fresh(st.buf))
    ensures Appends(TimeBytes(timestamp, picoseconds), old(st.Written()), o, st.Written())
  {
    hide Stream.Valid, Stream.Written, OptionalUnsigned, OptionalDateTime, SentPicoseconds;
    ghost var start := st.Written();
    o := WriteOptionalDateTime(st, timestamp);
    if o.Fail? { return; }
    ghost var done := OptionalDateTime(timestamp).value;
    o := WriteOptionalUnsigned(st, SentPicoseconds(timestamp, picoseconds), 2);
    if o.Fail? { return; }
    done := Wrote(start, done, OptionalUnsigned(SentPicoseconds(timestamp, picoseconds), 2).value);
  }

  method WriteDataSetHeader(st: Stream, m: DataSetMessage) returns (o: Outcome<Error>)
    requires st.Valid()
    modifies st, st.buf
    ensures st.Valid() && (st.buf == old(st.buf) || fresh(st.buf))
    ensures Appends(DataSetHeaderBytes(m), old(st.Written()), o, st.Written())
  {
    hide Stream.Valid, Stream.Written, DataSetFlagBytes, DataSetStateBytes, TimeBytes;
    ghost var start := st.Written();
    WriteDataSetFlags(st, m);
    ghost var done := DataSetFlagBytes(m);
    o := WriteDataSetState(st, m);
    if o.Fail? { return; }
    done := Wrote(start, done, DataSetStateBytes(m).value);
    o := WriteTime(st, m.timestamp, m.picoseconds);
    if o.Fail? { return; }
    done := Wrote(start, done, TimeBytes(m.timestamp, m.picoseconds).value);
  }

  method EncodeDataSetMessage(m: DataSetMessage) returns (r: Encoded)
    ensures r == DataSetMessageBytes(m)
  {
    hide DataSetHeaderBytes, FieldsBytes;
    var st := new Stream.ForWriting(256);
    var o := WriteDataSetHeader(st, m);
    if o.Fail? {
      return Err(o.error);
    }
    o := WriteFields(st, m);
    if o.Fail? {
      return Err(o.error);
    }
    var b := st.ToBuffer();
    assert b == DataSetHeaderBytes(m).value + FieldsBytes(m).value;
    r := Ok(b);
  }

  // ----- NetworkMessage

  method WritePublisherId(st: Stream, p: PublisherId, bits: int) returns (o: Outcome<Error>)
    requires st.Valid()
    modifies st, st.buf
    ensures st.Valid() && (st.buf == old(st.buf) || fresh(st.buf))
    ensures Appends(PublisherIdBytes(p, bits), old(st.Written()), o, st.Written())
  {
    hide Unsigned, NullableText;
    match p
    case StringId(text) =>
      o := st.WriteNullableText(Some(text));
    case BigIntId(n) =>
      o := st.WriteUnsigned(n, PublisherIdWidth(bits));
    case NumberId(n) =>
      o := st.WriteUnsigned(n, PublisherIdWidth(bits));
    case NullId =>
      o := Fail(UnsupportedPublisherId);
  }

  method WriteGroupHeader(st: Stream, g: GroupHeader) returns (o: Outcome<Error>)
    requires st.Valid()
    modifies st, st.buf
    ensures st.Valid() && (st.buf == old(st.buf) || fresh(st.buf))
    ensures Appends(GroupHeaderBytes(g), old(st.Written()), o, st.Written())
  {
    hide Unsigned;
    o := st.WriteUnsigned(g.writerGroupId.GetOr(0), 2);
    if o.Fail? { return; }
    o := st.WriteUnsigned(g.groupVersion.GetOr(0), 4);
    if o.Fail? { return; }
    o := st.WriteUnsigned(g.networkMessageNumber.GetOr(0), 2);
    if o.Fail? { return; }
    o := st.WriteUnsigned(g.sequenceNumber.GetOr(0), 2);
  }

  /** The loops over the writer ids and over the sizes. */
  method WriteUInt16s(st: Stream, ns: seq<int>) returns (o: Outcome<Error>)
    requires st.Valid()
    modifies st, st.buf
    ensures st.Valid() && (st.buf == old(st.buf) || fresh(st.buf))
    ensures Appends(UInt16sBytes(ns), old(st.Written()), o, st.Written())
  {
    hide Unsigned;
    ghost var start, done := st.Written(), [];
    AfterNothing(UInt16sBytes(ns));
    assert ns[0..] == ns && start + [] == start;
    var i := 0;
    while i < |ns|
      invariant 0 <= i <= |ns|
      invariant st.Valid() && (st.buf == old(st.buf) || fresh(st.buf))
      invariant st.Written() == start + done
      invariant UInt16sBytes(ns) == After(done, UInt16sBytes(ns[i..]))
    {
      assert ns[i..][1..] == ns[i + 1..];
      o := st.WriteUnsigned(ns[i], 2);
      if o.Fail? { return; }
      AfterMore(done, Unsigned(ns[i], 2).value, UInt16sBytes(ns[i + 1..]));
      Regroup(start, done, Unsigned(ns[i], 2).value);
      done := done + Unsigned(ns[i], 2).value;
      i := i + 1;
    }
    assert done + [] == done;
    o := Pass;
  }

  method WriteWriterIds(st: Stream, ids: seq<int>) returns (o: Outcome<Error>)
    requires st.Valid()
    modifies st, st.buf
    ensures st.Valid() && (st.buf == old(st.buf) || fresh(st.buf))
    ensures Appends(WriterIdsBytes(ids), old(st.Written()), o, st.Written())
  {
    hide Unsigned, UInt16sBytes;
    o := st.WriteUnsigned(|ids|, 1);
    if o.Fail? { return; }
    o := WriteUInt16s(st, ids);
  }

  method WriteOptionalPublisherId(st: Stream, nm: NetworkMessage, f: HeaderFlags) returns (o: Outcome<Error>)
    requires Has(f.uadp, 0x10) == nm.publisherId.Some?
    requires st.Valid()
    modifies st, st.buf
    ensures st.Valid() && (st.buf == old(st.buf) || fresh(st.buf))
    ensures Appends(OptionalPublisherId(nm, f), old(st.Written()), o, st.Written())
  {
    hide PublisherIdBytes, Has;
    o := Pass;
    if Has(f.uadp, 0x10) {
      o := WritePublisherId(st, nm.publisherId.value, if Has(f.uadp, 0x80) then f.ext1 % 8 else 0);
    }
  }

  method WriteOptionalClassId(st: Stream, nm: NetworkMessage, f: HeaderFlags) returns (o: Outcome<Error>)
    requires (Has(f.uadp, 0x80) && Has(f.ext1, 0x08)) == nm.dataSetClassId.Some?
    requires st.Valid()
    modifies st, st.buf
    ensures st.Valid() && (st.buf == old(st.buf) || fresh(st.buf))
    ensures Appends(OptionalClassId(nm), old(st.Written()), o, st.Written())
  {
    hide Guid.GuidBytes, Has;
    o := Pass;
    if Has(f.uadp, 0x80) && Has(f.ext1, 0x08) {
      o := WriteGuid(st, nm.dataSetClassId.value);
    }
  }

  method WriteOptionalGroupHeader(st: Stream, nm: NetworkMessage, f: HeaderFlags) returns (o: Outcome<Error>)
    requires Has(f.uadp, 0x20) == nm.groupHeader.Some?
    requires st.Valid()
    modifies st, st.buf
    ensures st.Valid() && (st.buf == old(st.buf) || fresh(st.buf))
    ensures Appends(OptionalGroupHeader(nm), old(st.Written()), o, st.Written())
  {
    hide GroupHeaderBytes, Has;
    o := Pass;
    if Has(f.uadp, 0x20) {
      o := WriteGroupHeader(st, nm.groupHeader.value);
    }
  }

  method WriteOptionalWriterIds(st: Stream, nm: NetworkMessage, f: HeaderFlags) returns (o: Outcome<Error>)
    requires Has(f.uadp, 0x40) == (nm.writerIds != [])
    requires st.Valid()
    modifies st, st.buf
    ensures st.Valid() && (st.buf == old(st.buf) || fresh(st.buf))
    ensures Appends(OptionalWriterIds(nm), old(st.Written()), o, st.Written())
  {
    hide WriterIdsBytes, Has;
    o := Pass;
    if Has(f.uadp, 0x40) {
      o := WriteWriterIds(st, nm.writerIds);
    }
  }

  method WriteOrigin(st: Stream, nm: NetworkMessage, f: HeaderFlags) returns (o: Outcome<Error>)
    requires FlagsOf(nm) == Ok(f)
    requires st.Valid()
    modifies st, st.buf
    ensures st.Valid() && (st.buf == old(st.buf) || fresh(st.buf))
    ensures Appends(OriginBytes(nm, f), old(st.Written()), o, st.Written())
  {
    ExtendedPresence(nm, f);
    hide Stream.Valid, Stream.Written, FlagsOf, Has, OptionalPublisherId, OptionalClassId, OptionalGroupHeader;
    ghost var start := st.Written();
    o := WriteOptionalPublisherId(st, nm, f);
    if o.Fail? { return; }
    ghost var done := OptionalPublisherId(nm, f).value;
    o := WriteOptionalClassId(st, nm, f);
    if o.Fail? { return; }
    done := Wrote(start, done, OptionalClassId(nm).value);
    o := WriteOptionalGroupHeader(st, nm, f);
    if o.Fail? { return; }
    done := Wrote(start, done, OptionalGroupHeader(nm).value);
  }

  method WriteHeaderFields(st: Stream, nm: NetworkMessage, f: HeaderFlags) returns (o: Outcome<Error>)
    requires FlagsOf(nm) == Ok(f)
    requires st.Valid()
    modifies st, st.buf
    ensures st.Valid() && (st.buf == old(st.buf) || fresh(st.buf))
    ensures Appends(HeaderFieldsBytes(nm, f), old(st.Written()), o, st.Written())
  {
    ExtendedPresence(nm, f);
    hide Stream.Valid, Stream.Written, FlagsOf, Has, OriginBytes, OptionalWriterIds, TimeBytes;
    ghost var start := st.Written();
    o := WriteOrigin(st, nm, f);
    if o.Fail? { return; }
    ghost var done := OriginBytes(nm, f).value;
    o := WriteOptionalWriterIds(st, nm, f);
    if o.Fail? { return; }
    done := Wrote(start, done, OptionalWriterIds(nm).value);
    o := WriteOptionalTime(st, nm, f);
    if o.Fail? { return; }
    done := Wrote(start, done, TimeBytes(nm.timestamp, nm.picoseconds).value);
  }

  method WriteOptionalTime(st: Stream, nm: NetworkMessage, f: HeaderFlags) returns (o: Outcome<Error>)
    requires FlagsOf(nm) == Ok(f)
    requires st.Valid()
    modifies st, st.buf
    ensures st.Valid() && (st.buf == old(st.buf) || fresh(st.buf))
    ensures Appends(TimeBytes(nm.timestamp, nm.picoseconds), old(st.Written()), o, st.Written())
  {
    ExtendedPresence(nm, f);
    hide Stream.Valid, Stream.Written, FlagsOf, Has, TimeBytes;
    var gate := Has(f.uadp, 0x80);
    var timestamp := if gate && Has(f.ext1, 0x20) then nm.timestamp else None;
    var picoseconds := if gate && Has(f.ext1, 0x40) then nm.picoseconds else None;
    SameTime(nm, timestamp, picoseconds);
    o := WriteTime(st, timestamp, picoseconds);
  }

  lemma SameTime(nm: NetworkMessage, timestamp: Option<int>, picoseconds: Option<int>)
    requires timestamp == nm.timestamp
    requires picoseconds == if nm.timestamp.Some? then nm.picoseconds else None
    ensures TimeBytes(timestamp, picoseconds) == TimeBytes(nm.timestamp, nm.picoseconds)
  {
    hide OptionalDateTime, OptionalUnsigned;
  }

  /** The gate bit of the first extended byte never hides a field. */
  lemma ExtendedPresence(nm: NetworkMessage, f: HeaderFlags)
    requires FlagsOf(nm) == Ok(f)
    ensures Has(f.uadp, 0x10) == nm.publisherId.Some?
    ensures Has(f.uadp, 0x20) == nm.groupHeader.Some?
    ensures Has(f.uadp, 0x40) == (nm.writerIds != [])
    ensures (Has(f.uadp, 0x80) && Has(f.ext1, 0x08)) == nm.dataSetClassId.Some?
    ensures (Has(f.uadp, 0x80) && Has(f.ext1, 0x20)) == nm.timestamp.Some?
    ensures (Has(f.uadp, 0x80) && Has(f.ext1, 0x40)) == (nm.timestamp.Some? && nm.picoseconds.Some?)
  {
    UadpRoundTrip.FlagBits(nm);
    hide FlagsOf;
  }

  /** Flag bytes and header fields: shared by the plain and the chunk encoder. */
  method WriteHeader(st: Stream, nm: NetworkMessage) returns (o: Outcome<Error>)
    requires st.Valid()
    modifies st, st.buf
    ensures st.Valid() && (st.buf == old(st.buf) || fresh(st.buf))
    ensures Appends(HeaderBytes(nm), old(st.Written()), o, st.Written())
  {
    hide ExtendedFlags1, ExtendedFlags2, UadpFlags, HeaderFieldsBytes, Has;
    var ext2 := ExtendedFlags2(nm);
    var ext1 := ExtendedFlags1(nm, ext2);
    if ext1.Err? {
      return Fail(ext1.error);
    }
    var f := HeaderFlags(UadpFlags(nm, ext1.value), ext1.value, ext2);
    st.WriteBytes([f.uadp]);
    if Has(f.uadp, 0x80) {
      st.WriteBytes([f.ext1]);
    }
    if Has(f.uadp, 0x80) && Has(f.ext1, 0x80) {
      st.WriteBytes([f.ext2]);
    }
    o := WriteHeaderFields(st, nm, f);
  }

  method EncodePayload(ms: seq<DataSetMessage>) returns (r: Result<seq<Bytes>, Error>)
    ensures r == PayloadBuffers(ms)
  {
    hide DataSetMessageBytes;
    AfterNoBuffers(PayloadBuffers(ms));
    assert ms[0..] == ms;
    var buffers := [];
    var i := 0;
    while i < |ms|
      invariant 0 <= i <= |ms|
      invariant PayloadBuffers(ms) == AfterBuffers(buffers, PayloadBuffers(ms[i..]))
    {
      assert ms[i..][1..] == ms[i + 1..];
      var b := EncodeDataSetMessage(ms[i]);
      if b.Err? {
        return Err(b.error);
      }
      AfterMoreBuffers(buffers, b.value, PayloadBuffers(ms[i + 1..]));
      buffers := buffers + [b.value];
      i := i + 1;
    }
    assert buffers + [] == buffers;
    r := Ok(buffers);
  }

  /** Writes the buffers one after the other: the stream ends with their concatenation, however it grew. */
  method WriteBuffers(st: Stream, buffers: seq<Bytes>)
    requires st.Valid()
    modifies st, st.buf
    ensures st.Valid() && (st.buf == old(st.buf) || fresh(st.buf))
    ensures st.Written() == old(st.Written()) + Concat(buffers)
  {
    var i := 0;
    while i < |buffers|
      invariant 0 <= i <= |buffers|
      invariant st.Valid() && (st.buf == old(st.buf) || fresh(st.buf))
      invariant old(st.Written()) + Concat(buffers) == st.Written() + Concat(buffers[i..])
    {
      assert buffers[i..][1..] == buffers[i + 1..];
      st.WriteBytes(buffers[i]);
      i := i + 1;
    }
  }

  method EncodeWhole(nm: NetworkMessage) returns (r: Encoded)
    ensures r == WholeBytes(nm)
  {
    hide HeaderBytes, PayloadBuffers, UInt16sBytes, Concat;
    var st := new Stream.ForWriting(1500);
    var o := WriteHeader(st, nm);
    if o.Fail? {
      return Err(o.error);
    }
    if nm.promotedFields {
      return Err(PromotedFieldsNotImplemented);
    }
    var buffers := EncodePayload(nm.payload);
    if buffers.Err? {
      return Err(buffers.error);
    }
    if |nm.writerIds| > 0 && |buffers.value| > 1 {
      o := WriteUInt16s(st, Sizes(buffers.value));
      if o.Fail? {
        return Err(o.error);
      }
    }
    WriteBuffers(st, buffers.value);
    var b := st.ToBuffer();
    assert b == HeaderBytes(nm).value + BodyBytes(nm).value;
    r := Ok(b);
  }

  // ----- chunks

  method WriteChunkStruct(st: Stream, c: Chunk) returns (o: Outcome<Error>)
    requires st.Valid()
    modifies st, st.buf
    ensures st.Valid() && (st.buf == old(st.buf) || fresh(st.buf))
    ensures Appends(ChunkStructBytes(c), old(st.Written()), o, st.Written())
  {
    hide Stream.Valid, Stream.Written, Unsigned;
    ghost var start := st.Written();
    o := st.WriteUnsigned(c.messageSequenceNumber, 2);
    if o.Fail? { return; }
    ghost var done := Unsigned(c.messageSequenceNumber, 2).value;
    o := st.WriteUnsigned(c.chunkOffset, 4);
    if o.Fail? { return; }
    done := Wrote(start, done, Unsigned(c.chunkOffset, 4).value);
    o := st.WriteUnsigned(c.totalSize, 4);
    if o.Fail? { return; }
    done := Wrote(start, done, Unsigned(c.totalSize, 4).value);
    o := st.WriteUnsigned(|c.chunkData|, 4);
    if o.Fail? { return; }
    done := Wrote(start, done, Unsigned(|c.chunkData|, 4).value);
    st.WriteBytes(c.chunkData);
    done := Wrote(start, done, c.chunkData);
  }

  method EncodeChunk(nm: NetworkMessage, c: Chunk, writerId: int) returns (r: Encoded)
    ensures r == ChunkBytes(nm, c, writerId)
  {
    hide HeaderBytes, ChunkStructBytes;
    var st := new Stream.ForWriting(|c.chunkData| + 128);
    var o := WriteHeader(st, ChunkMessage(nm, c, writerId));
    if o.Fail? {
      return Err(o.error);
    }
    o := WriteChunkStruct(st, c);
    if o.Fail? {
      return Err(o.error);
    }
    var b := st.ToBuffer();
    assert b == HeaderBytes(ChunkMessage(nm, c, writerId)).value + ChunkStructBytes(c).value;
    r := Ok(b);
  }

  lemma NextChunk(sequence: int, payload: Bytes, maxData: int, offset: nat)
    requires maxData > 0 && offset < |payload|
    ensures var end := offset + Min(maxData, |payload| - offset);
            && offset < end <= |payload|
            && ChunksFrom(sequence, payload, maxData, offset)
               == [Chunk(sequence, offset, |payload|, payload[offset..end])]
                  + ChunksFrom(sequence, payload, maxData, end)
  {
  }

  method SplitIntoChunks(
      sequence: int, payload: Bytes, mtu: int, headerOverhead: nat) returns (r: Result<seq<Chunk>, Error>)
    ensures var maxData := mtu - headerOverhead - CHUNK_PAYLOAD_OVERHEAD;
            r == if maxData <= 0 then Err(MtuTooSmall) else Ok(ChunksFrom(sequence, payload, maxData, 0))
  {
    var maxData := mtu - headerOverhead - CHUNK_PAYLOAD_OVERHEAD;
    if maxData <= 0 {
      return Err(MtuTooSmall);
    }
    assert ChunksFrom(sequence, payload, maxData, |payload|) == [];
    hide ChunksFrom, Min;
    var chunks: seq<Chunk>, offset := [], 0;
    while offset < |payload|
      invariant 0 <= offset <= |payload|
      invariant chunks + ChunksFrom(sequence, payload, maxData, offset) == ChunksFrom(sequence, payload, maxData, 0)
    {
      NextChunk(sequence, payload, maxData, offset);
      var size := Min(maxData, |payload| - offset);
      var chunk := Chunk(sequence, offset, |payload|, payload[offset..offset + size]);
      Reassociate(chunks, [chunk], ChunksFrom(sequence, payload, maxData, offset + size));
      chunks := chunks + [chunk];
      offset := offset + size;
    }
    assert chunks + [] == chunks;
    r := Ok(chunks);
  }

  method EncodeChunks(nm: NetworkMessage, cs: seq<Chunk>, writerId: int) returns (r: Result<seq<Bytes>, Error>)
    ensures r == ChunkBuffers(nm, cs, writerId)
  {
    hide ChunkBytes;
    AfterNoBuffers(ChunkBuffers(nm, cs, writerId));
    assert cs[0..] == cs;
    var buffers := [];
    var i := 0;
    while i < |cs|
      invariant 0 <= i <= |cs|
      invariant ChunkBuffers(nm, cs, writerId) == AfterBuffers(buffers, ChunkBuffers(nm, cs[i..], writerId))
    {
      assert cs[i..][1..] == cs[i + 1..];
      var b := EncodeChunk(nm, cs[i], writerId);
      if b.Err? {
        return Err(b.error);
      }
      AfterMoreBuffers(buffers, b.value, ChunkBuffers(nm, cs[i + 1..], writerId));
      buffers := buffers + [b.value];
      i := i + 1;
    }
    assert buffers + [] == buffers;
    r := Ok(buffers);
  }

  /** The public entry: one buffer, or chunks when it would exceed the MTU and there is a payload. */
  method EncodeNetworkMessage(nm: NetworkMessage, mtu: Option<int>) returns (r: Result<Output, Error>)
    ensures r == Encode(nm, mtu.GetOr(DEFAULT_MTU))
  {
    hide WholeBytes, ChunkBytes, ChunksFrom, ChunkBuffers;
    var limit := mtu.GetOr(DEFAULT_MTU);
    var whole := EncodeWhole(nm);
    if whole.Err? {
      return Err(whole.error);
    }
    if |whole.value| <= limit || nm.payload == [] {
      return Ok(Single(whole.value));
    }
    var sequence, writerId := MessageSequenceNumber(nm), ChunkWriterId(nm);
    var probe := EncodeChunk(nm, Chunk(sequence, 0, |whole.value|, []), writerId);
    if probe.Err? {
      return Err(probe.error);
    }
    var chunks := SplitIntoChunks(sequence, whole.value, limit, |probe.value|);
    if chunks.Err? {
      return Err(chunks.error);
    }
    var buffers := EncodeChunks(nm, chunks.value, writerId);
    if buffers.Err? {
      return Err(buffers.error);
    }
    r := Ok(Chunked(buffers.value));
  }
}
