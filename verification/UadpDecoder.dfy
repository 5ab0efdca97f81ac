/** The decoder, as it runs: a cursor moving over a buffer, proved against the wire format. */
module UadpDecoder {
  import opened Wrappers
  import opened Wire
  import opened UadpModel
  import opened UadpSpec
  import opened BinaryStream
  import Guid
  import JsMap

  /** What a read yields when its first elements are already in `done`. */
  ghost function More<T>(done: seq<T>, p: Parsed<seq<T>>): Parsed<seq<T>> {
    match p
    case Got(vs, rest) => Got(done + vs, rest)
    case Threw(x) => Threw(x)
  }

  lemma MoreNothing<T>(p: Parsed<seq<T>>)
    ensures More([], p) == p
  {
    if p.Got? {
      assert [] + p.value == p.value;
    }
  }

  lemma MoreOne<T>(done: seq<T>, v: T, p: Parsed<seq<T>>)
    ensures More(done, More([v], p)) == More(done + [v], p)
  {
    if p.Got? {
      assert done + ([v] + p.value) == done + [v] + p.value;
    }
  }

  // ----- Variant and DataValue

  method ReadGuid(st: Stream) returns (r: Result<Guid.Uuid, Error>)
    requires st.Valid()
    modifies st`cursor
    ensures st.Valid()
    ensures Agrees(Guid.ReadGuid(old(st.Unread())), r, st.Unread())
  {
    hide Guid.GuidText, Guid.IsUuid, FromLE, Pow256;
    ghost var s := st.Unread();
    var d1 := st.ReadUnsigned(4);
    if d1.Err? { return Err(d1.error); }
    LEOfFromLE(s[..4]);
    ghost var s1 := st.Unread();
    var d2 := st.ReadUnsigned(2);
    if d2.Err? { return Err(d2.error); }
    LEOfFromLE(s1[..2]);
    ghost var s2 := st.Unread();
    var d3 := st.ReadUnsigned(2);
    if d3.Err? { return Err(d3.error); }
    LEOfFromLE(s2[..2]);
    var d4a := st.ReadBytes(2);
    if d4a.Err? { return Err(d4a.error); }
    var d4b := st.ReadBytes(6);
    if d4b.Err? { return Err(d4b.error); }
    Guid.GuidTextIsUuid(d1.value, d2.value, d3.value, d4a.value, d4b.value);
    var text: Guid.Uuid := Guid.GuidText(d1.value, d2.value, d3.value, d4a.value, d4b.value);
    r := Ok(text);
  }

  method ReadVariantScalar(st: Stream, t: int) returns (r: Result<Value, Error>)
    requires st.Valid()
    modifies st`cursor
    ensures st.Valid()
    ensures Agrees(ReadScalar(t, old(st.Unread())), r, st.Unread())
  {
    hide Stream.Valid, Stream.Unread, Wire.ReadUnsigned, Wire.ReadSigned, Wire.ReadBytes, Wire.ReadNullableText,
         Wire.ReadDateTime, Guid.ReadGuid;
    if t == 1 {
      var b := st.ReadUnsigned(1);
      return if b.Ok? then Ok(Bool(b.value != 0)) else Err(b.error);
    } else if IsSignedType(t) {
      var n := st.ReadSigned(Width(t));
      return if n.Ok? then Ok(Num(n.value)) else Err(n.error);
    } else if IsUnsignedType(t) {
      var n := st.ReadUnsigned(Width(t));
      return if n.Ok? then Ok(Num(n.value)) else Err(n.error);
    } else if t == 10 || t == 11 {
      var bits := st.ReadBytes(Width(t));
      return if bits.Ok? then Ok(Bits(bits.value)) else Err(bits.error);
    } else if t == 12 || t == 15 {
      var text := st.ReadNullableText();
      return if text.Ok? then Ok(Str(text.value)) else Err(text.error);
    } else if t == 13 {
      var ms := st.ReadDateTime();
      return if ms.Ok? then Ok(Date(ms.value)) else Err(ms.error);
    } else if t == 14 {
      var g := ReadGuid(st);
      return if g.Ok? then Ok(Uuid(g.value)) else Err(g.error);
    } else if t == 19 {
      var n := st.ReadUnsigned(4);
      return if n.Ok? then Ok(Num(n.value)) else Err(n.error);
    }
    r := Err(UnsupportedBuiltInType);
  }

  method ReadArray(st: Stream, t: int, len: int) returns (r: Result<seq<Value>, Error>)
    requires st.Valid()
    modifies st`cursor
    ensures st.Valid()
    ensures Agrees(ReadScalars(t, old(st.Unread()), len), r, st.Unread())
  {
    hide Stream.Valid, Stream.Unread, ReadScalar;
    MoreNothing(ReadScalars(t, st.Unread(), len));
    var values := [];
    var i := 0;
    while i < len
      invariant 0 <= i && (i <= len || len < 0 == i)
      invariant st.Valid()
      invariant ReadScalars(t, old(st.Unread()), len) == More(values, ReadScalars(t, st.Unread(), len - i))
    {
      ghost var s := st.Unread();
      var v := ReadVariantScalar(st, t);
      if v.Err? { return Err(v.error); }
      MoreOne(values, v.value, ReadScalars(t, st.Unread(), len - i - 1));
      values := values + [v.value];
      i := i + 1;
    }
    assert values + [] == values;
    r := Ok(values);
  }

  method ReadInt32s(st: Stream, count: int) returns (r: Result<seq<int>, Error>)
    requires st.Valid()
    modifies st`cursor
    ensures st.Valid()
    ensures Agrees(ReadInts(old(st.Unread()), count), r, st.Unread())
  {
    hide Stream.Valid, Stream.Unread, Wire.ReadSigned;
    MoreNothing(ReadInts(st.Unread(), count));
    var dims := [];
    var i := 0;
    while i < count
      invariant 0 <= i && (i <= count || count < 0 == i)
      invariant st.Valid()
      invariant ReadInts(old(st.Unread()), count) == More(dims, ReadInts(st.Unread(), count - i))
    {
      var d := st.ReadSigned(4);
      if d.Err? { return Err(d.error); }
      MoreOne(dims, d.value, ReadInts(st.Unread(), count - i - 1));
      dims := dims + [d.value];
      i := i + 1;
    }
    assert dims + [] == dims;
    r := Ok(dims);
  }

  method ReadVariantContent(st: Stream, t: int, isArray: bool) returns (r: Result<Content, Error>)
    requires st.Valid()
    modifies st`cursor
    ensures st.Valid()
    ensures Agrees(ReadContent(t, isArray, old(st.Unread())), r, st.Unread())
  {
    hide Stream.Valid, Stream.Unread, ReadScalar, ReadScalars, Wire.ReadSigned;
    if isArray {
      var len := st.ReadSigned(4);
      if len.Err? { return Err(len.error); }
      var values := ReadArray(st, t, len.value);
      return if values.Ok? then Ok(Array(values.value)) else Err(values.error);
    }
    var v := ReadVariantScalar(st, t);
    r := if v.Ok? then Ok(Scalar(v.value)) else Err(v.error);
  }

  method ReadVariant(st: Stream) returns (r: Result<Variant, Error>)
    requires st.Valid()
    modifies st`cursor
    ensures st.Valid()
    ensures Agrees(UadpSpec.ReadVariant(old(st.Unread())), r, st.Unread())
  {
    hide Stream.Valid, Stream.Unread, ReadContent, ReadInts, Wire.ReadUnsigned, Wire.ReadSigned, Has;
    var e := st.ReadUnsigned(1);
    if e.Err? { return Err(e.error); }
    if e.value == 0 {
      return Ok(NullVariant);
    }
    var content := ReadVariantContent(st, e.value % 64, Has(e.value, 0x40));
    if content.Err? { return Err(content.error); }
    if !Has(e.value, 0x80) {
      return Ok(Variant(Ordinal(e.value % 64), content.value, None));
    }
    var count := st.ReadSigned(4);
    if count.Err? { return Err(count.error); }
    var dims := ReadInt32s(st, count.value);
    if dims.Err? { return Err(dims.error); }
    r := Ok(Variant(Ordinal(e.value % 64), content.value, Some(dims.value)));
  }

  method ReadOptionalUnsigned(st: Stream, present: bool, n: nat) returns (r: Result<Option<int>, Error>)
    requires st.Valid()
    modifies st`cursor
    ensures st.Valid()
    ensures Agrees(UadpSpec.ReadOptionalUnsigned(present, old(st.Unread()), n), r, st.Unread())
  {
    hide Stream.Valid, Stream.Unread, Wire.ReadUnsigned;
    if !present {
      return Ok(None);
    }
    var v := st.ReadUnsigned(n);
    r := if v.Ok? then Ok(Some(v.value)) else Err(v.error);
  }

  method ReadOptionalDateTime(st: Stream, present: bool) returns (r: Result<Option<int>, Error>)
    requires st.Valid()
    modifies st`cursor
    ensures st.Valid()
    ensures Agrees(UadpSpec.ReadOptionalDateTime(present, old(st.Unread())), r, st.Unread())
  {
    hide Stream.Valid, Stream.Unread, Wire.ReadDateTime;
    if !present {
      return Ok(None);
    }
    var ms := st.ReadDateTime();
    r := if ms.Ok? then Ok(Some(ms.value)) else Err(ms.error);
  }

  method ReadOptionalVariant(st: Stream, present: bool) returns (r: Result<Option<Variant>, Error>)
    requires st.Valid()
    modifies st`cursor
    ensures st.Valid()
    ensures Agrees(UadpSpec.ReadOptionalVariant(present, old(st.Unread())), r, st.Unread())
  {
    hide Stream.Valid, Stream.Unread, UadpSpec.ReadVariant;
    if !present {
      return Ok(None);
    }
    var v := ReadVariant(st);
    r := if v.Ok? then Ok(Some(v.value)) else Err(v.error);
  }

  method ReadDataValue(st: Stream) returns (r: Result<DataValue, Error>)
    requires st.Valid()
    modifies st`cursor
    ensures st.Valid()
    ensures Agrees(UadpSpec.ReadDataValue(old(st.Unread())), r, st.Unread())
  {
    hide Stream.Valid, Stream.Unread, UadpSpec.ReadOptionalVariant, UadpSpec.ReadOptionalUnsigned,
         UadpSpec.ReadOptionalDateTime, Wire.ReadUnsigned, Has;
    var mask := st.ReadUnsigned(1);
    if mask.Err? { return Err(mask.error); }
    var value := ReadOptionalVariant(st, Has(mask.value, 0x01));
    if value.Err? { return Err(value.error); }
    var status := ReadOptionalUnsigned(st, Has(mask.value, 0x02), 4);
    if status.Err? { return Err(status.error); }
    var source := ReadOptionalDateTime(st, Has(mask.value, 0x04));
    if source.Err? { return Err(source.error); }
    var server := ReadOptionalDateTime(st, Has(mask.value, 0x08));
    if server.Err? { return Err(server.error); }
    var sourcePs := ReadOptionalUnsigned(st, Has(mask.value, 0x10), 2);
    if sourcePs.Err? { return Err(sourcePs.error); }
    var serverPs := ReadOptionalUnsigned(st, Has(mask.value, 0x20), 2);
    if serverPs.Err? { return Err(serverPs.error); }
    r := Ok(DataValue(value.value, status.value, source.value, server.value, sourcePs.value, serverPs.value));
  }

  // ----- DataSetMessage

  method ReadField(st: Stream, e: FieldEncoding) returns (r: Result<Field, Error>)
    requires e != AsRawData && st.Valid()
    modifies st`cursor
    ensures st.Valid()
    ensures Agrees(UadpSpec.ReadField(e, old(st.Unread())), r, st.Unread())
  {
    hide Stream.Valid, Stream.Unread, UadpSpec.ReadVariant, UadpSpec.ReadDataValue;
    if e == AsVariant {
      var v := ReadVariant(st);
      return if v.Ok? then Ok(VariantField(v.value)) else Err(v.error);
    }
    var dv := ReadDataValue(st);
    r := if dv.Ok? then Ok(DataValueField(Some(dv.value))) else Err(dv.error);
  }

  method ReadNamedField(st: Stream, e: FieldEncoding) returns (r: Result<(Text, Field), Error>)
    requires e != AsRawData && st.Valid()
    modifies st`cursor
    ensures st.Valid()
    ensures Agrees(UadpSpec.ReadNamedField(e, old(st.Unread())), r, st.Unread())
  {
    hide UadpSpec.ReadField, FromLE;
    ghost var s := st.Unread();
    var len := st.ReadUnsigned(2);
    if len.Err? { return Err(len.error); }
    LEOfFromLE(s[..2]);
    assert Pow256(2) == 0x1_0000;
    var name := st.ReadBytes(len.value);
    if name.Err? { return Err(name.error); }
    var text: Text := name.value;
    var f := ReadField(st, e);
    r := if f.Ok? then Ok((text, f.value)) else Err(f.error);
  }

  method ReadFields(st: Stream, e: FieldEncoding, t: MessageType) returns (r: Result<Fields, Error>)
    requires e != AsRawData && st.Valid()
    modifies st`cursor
    ensures st.Valid()
    ensures Agrees(UadpSpec.ReadFields(e, t, old(st.Unread())), r, st.Unread())
  {
    hide Stream.Valid, Stream.Unread, UadpSpec.ReadNamedField, Wire.ReadUnsigned;
    if t == KeepAlive {
      return Ok([]);
    }
    var count := st.ReadUnsigned(2);
    if count.Err? { return Err(count.error); }
    ghost var whole := ReadNamedFields(e, st.Unread(), count.value, []);
    var fields: Fields, i := [], 0;
    while i < count.value
      invariant 0 <= i <= count.value
      invariant st.Valid()
      invariant whole == ReadNamedFields(e, st.Unread(), count.value - i, fields)
    {
      var f := ReadNamedField(st, e);
      if f.Err? { return Err(f.error); }
      fields := JsMap.Set(fields, f.value.0, f.value.1);
      i := i + 1;
    }
    r := Ok(fields);
  }

  method ReadDataSetFlags(st: Stream) returns (r: Result<(nat, nat), Error>)
    requires st.Valid()
    modifies st`cursor
    ensures st.Valid()
    ensures Agrees(UadpSpec.ReadDataSetFlags(old(st.Unread())), r, st.Unread())
  {
    hide Stream.Valid, Stream.Unread, Wire.ReadUnsigned, Has;
    var f1 := st.ReadUnsigned(1);
    if f1.Err? { return Err(f1.error); }
    var f2: Result<nat, Error> := Ok(0);
    if Has(f1.value, 0x80) {
      f2 := st.ReadUnsigned(1);
      if f2.Err? { return Err(f2.error); }
    }
    r := Ok((f1.value, f2.value));
  }

  method ReadDataSetHeader(st: Stream) returns (r: Result<DataSetMessage, Error>)
    requires st.Valid()
    modifies st`cursor
    ensures st.Valid()
    ensures Agrees(UadpSpec.ReadDataSetHeader(old(st.Unread())), r, st.Unread())
  {
    hide Stream.Valid, Stream.Unread, UadpSpec.ReadDataSetFlags, UadpSpec.ReadOptionalUnsigned,
         UadpSpec.ReadOptionalDateTime, Has, FieldEncodingOf, MessageTypeOf;
    var flags := ReadDataSetFlags(st);
    if flags.Err? { return Err(flags.error); }
    var (f1, f2) := flags.value;
    var seqNum := ReadOptionalUnsigned(st, Has(f1, 0x08), 2);
    if seqNum.Err? { return Err(seqNum.error); }
    var status := ReadOptionalUnsigned(st, Has(f1, 0x10), 2);
    if status.Err? { return Err(status.error); }
    var major := ReadOptionalUnsigned(st, Has(f1, 0x20), 4);
    if major.Err? { return Err(major.error); }
    var minor := ReadOptionalUnsigned(st, Has(f1, 0x40), 4);
    if minor.Err? { return Err(minor.error); }
    var time := ReadOptionalDateTime(st, Has(f2, 0x10));
    if time.Err? { return Err(time.error); }
    var pico := ReadOptionalUnsigned(st, Has(f2, 0x20), 2);
    if pico.Err? { return Err(pico.error); }
    r := Ok(DataSetMessage(None, Has(f1, 0x01), FieldEncodingOf(f1 / 2 % 4), MessageTypeOf(f2 % 16),
                           seqNum.value, status.value, major.value, minor.value, time.value, pico.value, []));
  }

  method DecodeDataSetMessage(st: Stream) returns (r: Result<DataSetMessage, Error>)
    requires st.Valid()
    modifies st`cursor
    ensures st.Valid()
    ensures Agrees(ReadDataSetMessage(old(st.Unread())), r, st.Unread())
  {
    hide Stream.Valid, Stream.Unread, UadpSpec.ReadDataSetHeader, UadpSpec.ReadFields;
    var m := ReadDataSetHeader(st);
    if m.Err? { return Err(m.error); }
    if m.value.fieldEncoding == AsRawData {
      return Err(RawDataNeedsMetadata);
    }
    var fields := ReadFields(st, m.value.fieldEncoding, m.value.messageType);
    if fields.Err? { return Err(fields.error); }
    r := Ok(m.value.(fields := fields.value));
  }

  // ----- NetworkMessage

  method ReadPublisherId(st: Stream, bits: int) returns (r: Result<PublisherId, Error>)
    requires st.Valid()
    modifies st`cursor
    ensures st.Valid()
    ensures Agrees(UadpSpec.ReadPublisherId(bits, old(st.Unread())), r, st.Unread())
  {
    hide Stream.Valid, Stream.Unread, Wire.ReadNullableText, Wire.ReadUnsigned;
    if bits == 4 {
      var t := st.ReadNullableText();
      if t.Err? { return Err(t.error); }
      return Ok(if t.value.Some? then StringId(t.value.value) else NullId);
    }
    if bits > 4 {
      return Err(InvalidPublisherIdType);
    }
    var n := st.ReadUnsigned(PublisherIdWidth(bits));
    if n.Err? { return Err(n.error); }
    r := Ok(if bits == 3 then BigIntId(n.value) else NumberId(n.value));
  }

  method ReadGroupHeader(st: Stream) returns (r: Result<GroupHeader, Error>)
    requires st.Valid()
    modifies st`cursor
    ensures st.Valid()
    ensures Agrees(UadpSpec.ReadGroupHeader(old(st.Unread())), r, st.Unread())
  {
    hide Stream.Valid, Stream.Unread, Wire.ReadUnsigned;
    var group := st.ReadUnsigned(2);
    if group.Err? { return Err(group.error); }
    var version := st.ReadUnsigned(4);
    if version.Err? { return Err(version.error); }
    var number := st.ReadUnsigned(2);
    if number.Err? { return Err(number.error); }
    var sequence := st.ReadUnsigned(2);
    if sequence.Err? { return Err(sequence.error); }
    r := Ok(GroupHeader(Some(group.value), Some(version.value), Some(number.value), Some(sequence.value)));
  }

  method ReadUInt16s(st: Stream, n: nat) returns (r: Result<seq<int>, Error>)
    requires st.Valid()
    modifies st`cursor
    ensures st.Valid()
    ensures Agrees(UadpSpec.ReadUInt16s(old(st.Unread()), n), r, st.Unread())
  {
    hide Stream.Valid, Stream.Unread, Wire.ReadUnsigned;
    MoreNothing(UadpSpec.ReadUInt16s(st.Unread(), n));
    var ids: seq<int> := [];
    var i := 0;
    while i < n
      invariant 0 <= i <= n
      invariant st.Valid()
      invariant UadpSpec.ReadUInt16s(old(st.Unread()), n) == More(ids, UadpSpec.ReadUInt16s(st.Unread(), n - i))
    {
      var id := st.ReadUnsigned(2);
      if id.Err? { return Err(id.error); }
      MoreOne(ids, id.value, UadpSpec.ReadUInt16s(st.Unread(), n - i - 1));
      ids := ids + [id.value];
      i := i + 1;
    }
    assert ids + [] == ids;
    r := Ok(ids);
  }

  method ReadByte(st: Stream, present: bool) returns (r: Result<Byte, Error>)
    requires st.Valid()
    modifies st`cursor
    ensures st.Valid()
    ensures Agrees(ReadOptionalByte(present, old(st.Unread())), r, st.Unread())
  {
    if !present {
      return Ok(0);
    }
    ghost var s := st.Unread();
    var b := st.ReadUnsigned(1);
    if b.Err? { return Err(b.error); }
    LEOfFromLE(s[..1]);
    assert Pow256(1) == 256;
    r := Ok(b.value);
  }

  method ReadFlags(st: Stream) returns (r: Result<HeaderFlags, Error>)
    requires st.Valid()
    modifies st`cursor
    ensures st.Valid()
    ensures Agrees(UadpSpec.ReadFlags(old(st.Unread())), r, st.Unread())
  {
    hide Has, Stream.Valid, Stream.Unread;
    var uadp := ReadByte(st, true);
    if uadp.Err? { return Err(uadp.error); }
    if uadp.value % 16 != UADP_VERSION {
      return Err(UnsupportedVersion);
    }
    var ext1 := ReadByte(st, Has(uadp.value, 0x80));
    if ext1.Err? { return Err(ext1.error); }
    var ext2 := ReadByte(st, Has(ext1.value, 0x80));
    if ext2.Err? { return Err(ext2.error); }
    r := Ok(HeaderFlags(uadp.value, ext1.value, ext2.value));
  }

  method ReadOrigin(st: Stream, f: HeaderFlags) returns (r: Result<NetworkMessage, Error>)
    requires st.Valid()
    modifies st`cursor
    ensures st.Valid()
    ensures Agrees(UadpSpec.ReadOrigin(f, old(st.Unread())), r, st.Unread())
  {
    hide Stream.Valid, Stream.Unread, UadpSpec.ReadPublisherId, Guid.ReadGuid, UadpSpec.ReadGroupHeader, Has;
    var publisher: Option<PublisherId> := None;
    if Has(f.uadp, 0x10) {
      var p := ReadPublisherId(st, f.ext1 % 8);
      if p.Err? { return Err(p.error); }
      publisher := Some(p.value);
    }
    var class_: Option<Guid.Uuid> := None;
    if Has(f.ext1, 0x08) {
      var g := ReadGuid(st);
      if g.Err? { return Err(g.error); }
      class_ := Some(g.value);
    }
    var group: Option<GroupHeader> := None;
    if Has(f.uadp, 0x20) {
      var g := ReadGroupHeader(st);
      if g.Err? { return Err(g.error); }
      group := Some(g.value);
    }
    r := Ok(NetworkMessage(publisher, class_, group, [], None, None, false, None, []));
  }

  method ReadHeaderFields(st: Stream, f: HeaderFlags) returns (r: Result<NetworkMessage, Error>)
    requires st.Valid()
    modifies st`cursor
    ensures st.Valid()
    ensures Agrees(UadpSpec.ReadHeaderFields(f, old(st.Unread())), r, st.Unread())
  {
    hide Stream.Valid, Stream.Unread, UadpSpec.ReadOrigin, UadpSpec.ReadUInt16s, UadpSpec.ReadOptionalDateTime,
         UadpSpec.ReadOptionalUnsigned, Wire.ReadUnsigned, Has;
    var nm := ReadOrigin(st, f);
    if nm.Err? { return Err(nm.error); }
    var ids: seq<int> := [];
    if Has(f.uadp, 0x40) {
      var count := st.ReadUnsigned(1);
      if count.Err? { return Err(count.error); }
      var read := ReadUInt16s(st, count.value);
      if read.Err? { return Err(read.error); }
      ids := read.value;
    }
    var time := ReadOptionalDateTime(st, Has(f.ext1, 0x20));
    if time.Err? { return Err(time.error); }
    var pico := ReadOptionalUnsigned(st, Has(f.ext1, 0x40), 2);
    if pico.Err? { return Err(pico.error); }
    r := Ok(nm.value.(writerIds := ids, timestamp := time.value, picoseconds := pico.value));
  }

  method ReadChunk(st: Stream) returns (r: Result<Chunk, Error>)
    requires st.Valid()
    modifies st`cursor
    ensures st.Valid()
    ensures Agrees(UadpSpec.ReadChunk(old(st.Unread())), r, st.Unread())
  {
    hide Stream.Valid, Stream.Unread, Wire.ReadUnsigned, Wire.ReadBytes;
    var sequence := st.ReadUnsigned(2);
    if sequence.Err? { return Err(sequence.error); }
    var offset := st.ReadUnsigned(4);
    if offset.Err? { return Err(offset.error); }
    var total := st.ReadUnsigned(4);
    if total.Err? { return Err(total.error); }
    var len := st.ReadUnsigned(4);
    if len.Err? { return Err(len.error); }
    var data := st.ReadBytes(len.value);
    if data.Err? { return Err(data.error); }
    r := Ok(Chunk(sequence.value, offset.value, total.value, data.value));
  }

  /** The second loop over the size array: each message has its own copy of its bytes. */
  method ReadSizedMessages(st: Stream, sizes: seq<int>) returns (r: Result<seq<DataSetMessage>, Error>)
    requires st.Valid()
    requires forall i :: 0 <= i < |sizes| ==> sizes[i] >= 0
    modifies st`cursor
    ensures st.Valid()
    ensures Agrees(ReadSized(old(st.Unread()), sizes), r, st.Unread())
  {
    hide Stream.Valid, Stream.Unread, ReadDataSetMessage, Wire.ReadBytes;
    MoreNothing(ReadSized(st.Unread(), sizes));
    assert sizes[0..] == sizes;
    var ms := [];
    var i := 0;
    while i < |sizes|
      invariant 0 <= i <= |sizes|
      invariant st.Valid()
      invariant ReadSized(old(st.Unread()), sizes) == More(ms, ReadSized(st.Unread(), sizes[i..]))
    {
      assert sizes[i..][1..] == sizes[i + 1..];
      var slice := st.ReadBytes(sizes[i]);
      if slice.Err? { return Err(slice.error); }
      ghost var rest := st.Unread();
      var m := DecodeSlice(slice.value);
      if m.Err? { return Err(m.error); }
      assert st.Unread() == rest;
      MoreOne(ms, m.value, ReadSized(rest, sizes[i + 1..]));
      ms := ms + [m.value];
      i := i + 1;
    }
    assert ms + [] == ms;
    r := Ok(ms);
  }

  method DecodeSlice(slice: Bytes) returns (r: Result<DataSetMessage, Error>)
    ensures r == match ReadDataSetMessage(slice) case Got(m, _) => Ok(m) case Threw(x) => Err(x)
  {
    hide ReadDataSetMessage;
    var copy := new Byte[|slice|](i requires 0 <= i < |slice| => slice[i]);
    assert copy[..] == slice;
    var st := new Stream.ForReading(copy);
    r := DecodeDataSetMessage(st);
  }

  method ReadMessages(st: Stream, ids: seq<int>) returns (r: Result<seq<DataSetMessage>, Error>)
    requires st.Valid()
    modifies st`cursor
    ensures st.Valid()
    ensures Agrees(ReadPayload(ids, old(st.Unread())), r, st.Unread())
  {
    hide ReadDataSetMessage, UadpSpec.ReadUInt16s, ReadSized;
    if |ids| > 1 {
      ReadUInt16sShape(st.Unread(), |ids|);
      var sizes := ReadUInt16s(st, |ids|);
      if sizes.Err? { return Err(sizes.error); }
      r := ReadSizedMessages(st, sizes.value);
      return;
    }
    var remaining := st.Remaining();
    if remaining > 0 {
      var m := DecodeDataSetMessage(st);
      return if m.Ok? then Ok([m.value]) else Err(m.error);
    }
    r := Ok([]);
  }

  method ReadMessage(st: Stream) returns (r: Result<NetworkMessage, Error>)
    requires st.Valid()
    modifies st`cursor
    ensures st.Valid()
    ensures Agrees(ReadNetworkMessage(old(st.Unread())), r, st.Unread())
  {
    hide Stream.Valid, Stream.Unread, UadpSpec.ReadFlags, UadpSpec.ReadHeaderFields, UadpSpec.ReadChunk, ReadPayload,
         Has;
    var f := ReadFlags(st);
    if f.Err? { return Err(f.error); }
    var nm := ReadHeaderFields(st, f.value);
    if nm.Err? { return Err(nm.error); }
    if Has(f.value.ext2, 0x02) {
      return Err(PromotedFieldsNotImplemented);
    }
    if Has(f.value.ext2, 0x01) {
      var c := ReadChunk(st);
      if c.Err? { return Err(c.error); }
      return Ok(nm.value.(chunk := Some(c.value)));
    }
    var payload := ReadMessages(st, nm.value.writerIds);
    if payload.Err? { return Err(payload.error); }
    r := Ok(nm.value.(payload := payload.value));
  }

  /** The public entry: a message or an error, whatever the bytes. */
  method DecodeNetworkMessage(buffer: array<Byte>) returns (r: Result<NetworkMessage, Error>)
    ensures r == Decode(buffer[..])
  {
    hide ReadNetworkMessage;
    var st := new Stream.ForReading(buffer);
    r := ReadMessage(st);
  }
}
