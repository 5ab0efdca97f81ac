/** Chunking: how a message larger than the MTU is cut up, and what each chunk decodes to. */
module UadpChunks {
  import opened Wrappers
  import opened Wire
  import opened UadpModel
  import opened UadpSpec
  import opened UadpRoundTrip
  import Guid

  const DEFAULT_MTU := 1400
  const CHUNK_PAYLOAD_OVERHEAD := 12

  /** The encoder's result: one buffer, or one per chunk. */
  datatype Output = Single(buffer: Bytes) | Chunked(buffers: seq<Bytes>)

  /** The chunk-flagged message: the header of the original, for a single writer. */
  function ChunkMessage(nm: NetworkMessage, c: Chunk, writerId: int): NetworkMessage {
    NetworkMessage(nm.publisherId, nm.dataSetClassId, nm.groupHeader, [writerId],
                   nm.timestamp, nm.picoseconds, false, Some(c), [])
  }

  function ChunkStructBytes(c: Chunk): Encoded {
    var sequence :- Unsigned(c.messageSequenceNumber, 2);
    var offset :- Unsigned(c.chunkOffset, 4);
    var total :- Unsigned(c.totalSize, 4);
    var len :- Unsigned(|c.chunkData|, 4);
    Ok(sequence + offset + total + len + c.chunkData)
  }

  function ChunkBytes(nm: NetworkMessage, c: Chunk, writerId: int): Encoded {
    var header :- HeaderBytes(ChunkMessage(nm, c, writerId));
    var body :- ChunkStructBytes(c);
    Ok(header + body)
  }

  function Min(a: int, b: int): int {
    if a < b then a else b
  }

  /** The chunks from `offset` on, each as large as allowed. */
  function ChunksFrom(sequence: int, payload: Bytes, maxData: int, offset: nat): seq<Chunk>
    requires maxData > 0 && offset <= |payload|
    decreases |payload| - offset
  {
    if offset == |payload| then []
    else
      var end := offset + Min(maxData, |payload| - offset);
      [Chunk(sequence, offset, |payload|, payload[offset..end])] + ChunksFrom(sequence, payload, maxData, end)
  }

  function ChunkBuffers(nm: NetworkMessage, cs: seq<Chunk>, writerId: int): Result<seq<Bytes>, Error> {
    if cs == [] then Ok([])
    else
      var first :- ChunkBytes(nm, cs[0], writerId);
      var rest :- ChunkBuffers(nm, cs[1..], writerId);
      Ok([first] + rest)
  }

  function MessageSequenceNumber(nm: NetworkMessage): int {
    if nm.groupHeader.Some? && nm.groupHeader.value.sequenceNumber.Some?
    then nm.groupHeader.value.sequenceNumber.value % 0x1_0000
    else 0
  }

  function ChunkWriterId(nm: NetworkMessage): int {
    if nm.writerIds != [] then nm.writerIds[0] else 0
  }

  /** The chunk with no data whose length measures the header. */
  function Probe(nm: NetworkMessage, whole: Bytes): Encoded {
    ChunkBytes(nm, Chunk(MessageSequenceNumber(nm), 0, |whole|, []), ChunkWriterId(nm))
  }

  /** The chunks of an encoded message, for a given data size. */
  function Chunks(nm: NetworkMessage, whole: Bytes, maxData: int): seq<Chunk>
    requires maxData > 0
  {
    ChunksFrom(MessageSequenceNumber(nm), whole, maxData, 0)
  }

  function ChunkedOutput(nm: NetworkMessage, whole: Bytes, mtu: int): Result<Output, Error> {
    var probe :- Probe(nm, whole);
    var maxData := mtu - |probe| - CHUNK_PAYLOAD_OVERHEAD;
    if maxData <= 0 then Err(MtuTooSmall)
    else
      var buffers :- ChunkBuffers(nm, Chunks(nm, whole, maxData), ChunkWriterId(nm));
      Ok(Chunked(buffers))
  }

  function Encode(nm: NetworkMessage, mtu: int): Result<Output, Error> {
    var whole :- WholeBytes(nm);
    if |whole| > mtu && nm.payload != [] then ChunkedOutput(nm, whole, mtu) else Ok(Single(whole))
  }

  // ----- a message that fits

  /** Fitting the MTU, or having nothing to cut, is what makes the encoder give one buffer. */
  lemma SingleIffItFits(nm: NetworkMessage, mtu: int)
    requires WholeBytes(nm).Ok?
    ensures Encode(nm, mtu).Ok? && Encode(nm, mtu).value.Single?
       <==> |WholeBytes(nm).value| <= mtu || nm.payload == []
  {
    hide WholeBytes, ChunkBytes, ChunkBuffers, ChunksFrom;
  }

  /**
   The buffer of a message sent in one piece decodes to the message's normal form, exactly when no
   DataSetMessage is RawData and the numbers of ids and messages agree.
   */
  lemma SingleRoundTrip(nm: NetworkMessage, mtu: int)
    requires Encode(nm, mtu).Ok? && Encode(nm, mtu).value.Single? && nm.chunk.None?
    ensures Decode(Encode(nm, mtu).value.buffer) == Ok(NormalNetworkMessage(nm))
       <==> CountsAgree(nm) && NoRawData(nm.payload)
  {
    hide WholeBytes, ChunkBytes, ChunkBuffers, ChunksFrom, Decode, NormalNetworkMessage, CountsAgree, NoRawData;
    NetworkMessageRoundTrip(nm);
  }

  /** Whatever is sent, in one piece or in chunks, a message that does not encode is not sent at all. */
  lemma OnlyEncodableIsSent(nm: NetworkMessage, mtu: int)
    ensures WholeBytes(nm).Err? ==> Encode(nm, mtu) == Err(WholeBytes(nm).error)
    ensures WholeBytes(nm).Ok? && Encode(nm, mtu).Err? ==> |WholeBytes(nm).value| > mtu && nm.payload != []
  {
    hide WholeBytes, ChunkBytes, ChunkBuffers, ChunksFrom;
  }

  // ----- the chunks tile the message

  function Data(cs: seq<Chunk>): seq<Bytes> {
    seq(|cs|, i requires 0 <= i < |cs| => cs[i].chunkData)
  }

  /** Non-empty slices of the payload, each starting where the one before ended. */
  predicate Tiles(cs: seq<Chunk>, sequence: int, payload: Bytes, from: nat, maxData: int) {
    if cs == [] then from == |payload|
    else
      var c := cs[0];
      && 0 < |c.chunkData| <= maxData
      && from + |c.chunkData| <= |payload|
      && c == Chunk(sequence, from, |payload|, payload[from..from + |c.chunkData|])
      && Tiles(cs[1..], sequence, payload, from + |c.chunkData|, maxData)
  }

  lemma {:induction false} ChunksTile(sequence: int, payload: Bytes, maxData: int, offset: nat)
    requires maxData > 0 && offset <= |payload|
    ensures Tiles(ChunksFrom(sequence, payload, maxData, offset), sequence, payload, offset, maxData)
    decreases |payload| - offset
  {
    if offset < |payload| {
      var end := offset + Min(maxData, |payload| - offset);
      ChunksTile(sequence, payload, maxData, end);
      assert ChunksFrom(sequence, payload, maxData, offset)[1..] == ChunksFrom(sequence, payload, maxData, end);
    }
  }

  /** All chunks but the last are full: the i-th starts at i times the data size, and takes all it may. */
  lemma {:induction false} ChunksAreFull(sequence: int, payload: Bytes, maxData: int, offset: nat, i: nat)
    requires maxData > 0 && offset <= |payload| && i < |ChunksFrom(sequence, payload, maxData, offset)|
    ensures var c := ChunksFrom(sequence, payload, maxData, offset)[i];
            && c.chunkOffset == offset + i * maxData < |payload|
            && |c.chunkData| == (if c.chunkOffset + maxData <= |payload| then maxData else |payload| - c.chunkOffset)
            && (i + 1 < |ChunksFrom(sequence, payload, maxData, offset)| <==> c.chunkOffset + maxData < |payload|)
    decreases |payload| - offset
  {
    var end := offset + Min(maxData, |payload| - offset);
    var rest := ChunksFrom(sequence, payload, maxData, end);
    assert ChunksFrom(sequence, payload, maxData, offset)[1..] == rest;
    if i > 0 {
      ChunksAreFull(sequence, payload, maxData, end, i - 1);
      assert (i - 1) * maxData + maxData == i * maxData;
    }
  }

  lemma {:induction false} TilesConcat(cs: seq<Chunk>, sequence: int, payload: Bytes, from: nat, maxData: int)
    requires Tiles(cs, sequence, payload, from, maxData)
    ensures from <= |payload| && Concat(Data(cs)) == payload[from..]
  {
    if cs != [] {
      var n := |cs[0].chunkData|;
      TilesConcat(cs[1..], sequence, payload, from + n, maxData);
      DataOfCons(cs);
      SliceApart(payload, from, n);
    }
  }

  lemma DataOfCons(cs: seq<Chunk>)
    requires cs != []
    ensures Data(cs) == [cs[0].chunkData] + Data(cs[1..]) && Data(cs)[1..] == Data(cs[1..])
  {
  }

  lemma SliceApart(payload: Bytes, from: nat, n: nat)
    requires from + n <= |payload|
    ensures payload[from..] == payload[from..from + n] + payload[from + n..]
  {
  }

  lemma {:induction false} TilesAt(cs: seq<Chunk>, sequence: int, payload: Bytes, from: nat, maxData: int, i: nat)
    requires Tiles(cs, sequence, payload, from, maxData) && i < |cs|
    ensures var c := cs[i];
            && from <= c.chunkOffset && 0 < |c.chunkData| <= maxData && c.chunkOffset + |c.chunkData| <= |payload|
            && c == Chunk(sequence, c.chunkOffset, |payload|, payload[c.chunkOffset..c.chunkOffset + |c.chunkData|])
            && (i == 0 ==> c.chunkOffset == from)
            && (i + 1 < |cs| ==> cs[i + 1].chunkOffset == c.chunkOffset + |c.chunkData|)
            && (i + 1 == |cs| ==> c.chunkOffset + |c.chunkData| == |payload|)
  {
    var next := from + |cs[0].chunkData|;
    if i > 0 {
      TilesAt(cs[1..], sequence, payload, next, maxData, i - 1);
    } else if |cs| > 1 {
      TilesAt(cs[1..], sequence, payload, next, maxData, 0);
    }
  }

  // ----- every chunk has the same header, and fits

  /** The header does not depend on what the chunk carries. */
  lemma ChunkHeaderIsConstant(nm: NetworkMessage, c: Chunk, d: Chunk, writerId: int)
    ensures HeaderBytes(ChunkMessage(nm, c, writerId)) == HeaderBytes(ChunkMessage(nm, d, writerId))
  {
    var a, b := ChunkMessage(nm, c, writerId), ChunkMessage(nm, d, writerId);
    assert FlagsOf(a) == FlagsOf(b);
    if FlagsOf(a).Ok? {
      hide FlagsOf, PublisherIdBytes, Guid.GuidBytes, GroupHeaderBytes, WriterIdsBytes;
      assert HeaderFieldsBytes(a, FlagsOf(a).value) == HeaderFieldsBytes(b, FlagsOf(a).value);
    }
  }

  lemma ChunkStructLength(c: Chunk)
    requires ChunkStructBytes(c).Ok?
    ensures |ChunkStructBytes(c).value| == 14 + |c.chunkData|
  {
  }

  /** The probe measures the overhead of every chunk of the message. */
  lemma ChunkLength(nm: NetworkMessage, whole: Bytes, c: Chunk)
    requires Probe(nm, whole).Ok? && ChunkBytes(nm, c, ChunkWriterId(nm)).Ok?
    ensures |ChunkBytes(nm, c, ChunkWriterId(nm)).value| == |Probe(nm, whole).value| + |c.chunkData|
  {
    hide HeaderBytes, ChunkStructBytes;
    var p := Chunk(MessageSequenceNumber(nm), 0, |whole|, []);
    ChunkHeaderIsConstant(nm, c, p, ChunkWriterId(nm));
    ChunkStructLength(c);
    ChunkStructLength(p);
  }

  /** Once the probe is encoded, so is every chunk. */
  lemma ChunkEncodes(nm: NetworkMessage, whole: Bytes, maxData: int, c: Chunk)
    requires maxData > 0 && Probe(nm, whole).Ok? && c in Chunks(nm, whole, maxData)
    ensures ChunkBytes(nm, c, ChunkWriterId(nm)).Ok?
  {
    hide HeaderBytes, ChunksFrom;
    var i :| 0 <= i < |Chunks(nm, whole, maxData)| && Chunks(nm, whole, maxData)[i] == c;
    ChunksTile(MessageSequenceNumber(nm), whole, maxData, 0);
    TilesAt(Chunks(nm, whole, maxData), MessageSequenceNumber(nm), whole, 0, maxData, i);
    ChunkHeaderIsConstant(nm, c, Chunk(MessageSequenceNumber(nm), 0, |whole|, []), ChunkWriterId(nm));
  }

  lemma {:induction false} ChunkBuffersOk(nm: NetworkMessage, cs: seq<Chunk>, writerId: int)
    requires forall c :: c in cs ==> ChunkBytes(nm, c, writerId).Ok?
    ensures var r := ChunkBuffers(nm, cs, writerId);
            && r.Ok? && |r.value| == |cs|
            && forall i :: 0 <= i < |cs| ==> r.value[i] == ChunkBytes(nm, cs[i], writerId).value
  {
    hide ChunkBytes;
    if cs != [] {
      ChunkBuffersOk(nm, cs[1..], writerId);
      assert ChunkBytes(nm, cs[0], writerId).Ok?;
    }
  }

  /**
   The chunks are consecutive non-empty slices of the whole encoding, and every buffer stays 12 bytes below
   the MTU (the 14-byte chunk struct is part of the measured header, and 12 more bytes are taken off).
   */
  predicate FitsAndTiles(nm: NetworkMessage, mtu: int) {
    && WholeBytes(nm).Ok? && Encode(nm, mtu).Ok? && Encode(nm, mtu).value.Chunked?
    && var whole, buffers := WholeBytes(nm).value, Encode(nm, mtu).value.buffers;
    && Probe(nm, whole).Ok?
    && var maxData := mtu - |Probe(nm, whole).value| - CHUNK_PAYLOAD_OVERHEAD;
    && maxData > 0
    && var cs := Chunks(nm, whole, maxData);
    && Tiles(cs, MessageSequenceNumber(nm), whole, 0, maxData)
    && Concat(Data(cs)) == whole
    && |buffers| == |cs| > 0
    && forall i :: 0 <= i < |cs| ==>
         ChunkBytes(nm, cs[i], ChunkWriterId(nm)) == Ok(buffers[i]) && |buffers[i]| <= mtu - 12
  }

  /** Whatever comes out in chunks fits and tiles. */
  lemma ChunkedEncoding(nm: NetworkMessage, mtu: int)
    requires Encode(nm, mtu).Ok? && Encode(nm, mtu).value.Chunked?
    ensures FitsAndTiles(nm, mtu)
  {
    hide WholeBytes, ChunkBytes, ChunksFrom, Tiles, Concat;
    WholeIsNotEmpty(nm);
    var whole, buffers := WholeBytes(nm).value, Encode(nm, mtu).value.buffers;
    var maxData := mtu - |Probe(nm, whole).value| - CHUNK_PAYLOAD_OVERHEAD;
    var cs := Chunks(nm, whole, maxData);
    ChunksTile(MessageSequenceNumber(nm), whole, maxData, 0);
    TilesConcat(cs, MessageSequenceNumber(nm), whole, 0, maxData);
    NoChunksOnlyForNothing(cs, MessageSequenceNumber(nm), whole, maxData);
    forall c | c in cs
      ensures ChunkBytes(nm, c, ChunkWriterId(nm)).Ok?
    {
      ChunkEncodes(nm, whole, maxData, c);
    }
    ChunkBuffersOk(nm, cs, ChunkWriterId(nm));
    forall i | 0 <= i < |cs|
      ensures |buffers[i]| <= mtu - 12
    {
      ChunkLength(nm, whole, cs[i]);
      TilesAt(cs, MessageSequenceNumber(nm), whole, 0, maxData, i);
    }
  }

  lemma NoChunksOnlyForNothing(cs: seq<Chunk>, sequence: int, payload: Bytes, maxData: int)
    requires Tiles(cs, sequence, payload, 0, maxData) && payload != []
    ensures cs != []
  {
  }

  lemma WholeIsNotEmpty(nm: NetworkMessage)
    requires WholeBytes(nm).Ok?
    ensures WholeBytes(nm).value != []
  {
    hide HeaderFieldsBytes, BodyBytes, FlagsOf;
  }

  // ----- when chunking succeeds

  /** What a chunk needs besides its data: its header and the 14 bytes of the chunk struct. */
  function ChunkOverhead(nm: NetworkMessage): nat
    requires HeaderBytes(ChunkMessage(nm, Chunk(0, 0, 0, []), ChunkWriterId(nm))).Ok?
  {
    |HeaderBytes(ChunkMessage(nm, Chunk(0, 0, 0, []), ChunkWriterId(nm))).value| + 14
  }

  /** A message that encodes has a chunk header that does. */
  lemma ChunkHeaderEncodes(nm: NetworkMessage, c: Chunk)
    requires HeaderBytes(nm).Ok?
    ensures HeaderBytes(ChunkMessage(nm, c, ChunkWriterId(nm))).Ok?
  {
    hide PublisherIdTypeBits, Guid.GuidBytes, GroupHeaderBytes, OptionalPublisherId, TimeBytes, Unsigned,
         UInt16sBytes, Flag, Has;
    var m := ChunkMessage(nm, c, ChunkWriterId(nm));
    assert FlagsOf(m).Ok?;
    SamePublisherId(nm, m);
    FirstIdEncodes(nm);
  }

  lemma SamePublisherId(nm: NetworkMessage, m: NetworkMessage)
    requires m.publisherId == nm.publisherId && FlagsOf(nm).Ok? && FlagsOf(m).Ok?
    requires OptionalPublisherId(nm, FlagsOf(nm).value).Ok?
    ensures OptionalPublisherId(m, FlagsOf(m).value).Ok?
  {
    FlagBits(nm);
    FlagBits(m);
    hide FlagsOf, Has, Unsigned;
  }

  lemma FirstIdEncodes(nm: NetworkMessage)
    requires OptionalWriterIds(nm).Ok?
    ensures WriterIdsBytes([ChunkWriterId(nm)]).Ok?
  {
    hide LE;
    assert Pow256(1) == 0x100 && Pow256(2) == 0x1_0000;
    var ids := [ChunkWriterId(nm)];
    assert Unsigned(ids[0], 2).Ok?;
    hide Unsigned;
    assert ids[1..] == [] && UInt16sBytes(ids[1..]) == Ok([]);
    assert UInt16sBytes(ids).Ok?;
    assert Unsigned(1, 1).Ok? by { OneByte(); }
  }

  lemma OneByte()
    ensures Unsigned(1, 1).Ok?
  {
    assert Pow256(1) == 0x100;
  }

  lemma ProbeEncodes(nm: NetworkMessage, whole: Bytes)
    requires HeaderBytes(nm).Ok?
    ensures Probe(nm, whole).Ok? <==> |whole| < 0x1_0000_0000
    ensures Probe(nm, whole).Err? ==> Probe(nm, whole).error == OutOfRange
    ensures HeaderBytes(ChunkMessage(nm, Chunk(0, 0, 0, []), ChunkWriterId(nm))).Ok?
    ensures Probe(nm, whole).Ok? ==> |Probe(nm, whole).value| == ChunkOverhead(nm)
  {
    hide HeaderBytes, LE;
    assert Pow256(2) == 0x1_0000 && Pow256(4) == 0x1_0000_0000;
    var p := Chunk(MessageSequenceNumber(nm), 0, |whole|, []);
    ChunkHeaderEncodes(nm, p);
    ChunkHeaderIsConstant(nm, p, Chunk(0, 0, 0, []), ChunkWriterId(nm));
  }

  /**
   Sizes alone decide: a message too large for the MTU is cut up if and only if it is shorter than 2^32
   bytes and the MTU exceeds the overhead of a chunk by more than the 12 bytes taken off.
   */
  lemma ChunkingFailsOnlyOnSizes(nm: NetworkMessage, mtu: int)
    requires WholeBytes(nm).Ok? && |WholeBytes(nm).value| > mtu && nm.payload != []
    ensures HeaderBytes(ChunkMessage(nm, Chunk(0, 0, 0, []), ChunkWriterId(nm))).Ok?
    ensures Encode(nm, mtu).Ok? <==>
              |WholeBytes(nm).value| < 0x1_0000_0000 && mtu > ChunkOverhead(nm) + 12
    ensures Encode(nm, mtu).Err? ==>
              Encode(nm, mtu).error == if |WholeBytes(nm).value| < 0x1_0000_0000 then MtuTooSmall else OutOfRange
  {
    hide HeaderBytes, ChunkBytes, ChunksFrom, BodyBytes;
    var whole := WholeBytes(nm).value;
    ProbeEncodes(nm, whole);
    hide WholeBytes, ChunkOverhead;
    var maxData := mtu - ChunkOverhead(nm) - CHUNK_PAYLOAD_OVERHEAD;
    if Probe(nm, whole).Ok? && maxData > 0 {
      var cs := Chunks(nm, whole, maxData);
      forall c | c in cs
        ensures ChunkBytes(nm, c, ChunkWriterId(nm)).Ok?
      {
        ChunkEncodes(nm, whole, maxData, c);
      }
      ChunkBuffersOk(nm, cs, ChunkWriterId(nm));
    }
  }

  // ----- what a chunk decodes to

  /** The decoded chunk message: the header in normal form, the chunk itself, and no payload. */
  function ChunkPartial(nm: NetworkMessage, c: Chunk, writerId: int): NetworkMessage {
    NormalNetworkMessage(nm).(writerIds := [writerId], promotedFields := false, chunk := Some(c), payload := [])
  }

  lemma ChunkStructRoundTrip(c: Chunk)
    requires ChunkStructBytes(c).Ok?
    ensures ReadChunk(ChunkStructBytes(c).value) == Got(c, [])
  {
    hide Unsigned, ReadUnsigned, ReadBytes;
    var b1, b2 := Unsigned(c.messageSequenceNumber, 2).value, Unsigned(c.chunkOffset, 4).value;
    var b3, b4 := Unsigned(c.totalSize, 4).value, Unsigned(|c.chunkData|, 4).value;
    var t4 := c.chunkData;
    var t3 := b4 + t4;
    var t2 := b3 + t3;
    var t1 := b2 + t2;
    Regroup(b1 + b2 + b3, b4, t4);
    Regroup(b1 + b2, b3, t3);
    Regroup(b1, b2, t2);
    UnsignedRoundTrip(c.messageSequenceNumber, 2, t1);
    UnsignedRoundTrip(c.chunkOffset, 4, t2);
    UnsignedRoundTrip(c.totalSize, 4, t3);
    UnsignedRoundTrip(|c.chunkData|, 4, t4);
    ReadBytesRoundTrip(c.chunkData, []);
    assert c.chunkData + [] == c.chunkData;
  }

  lemma ChunkRoundTrip(nm: NetworkMessage, c: Chunk, writerId: int)
    requires ChunkBytes(nm, c, writerId).Ok?
    ensures Decode(ChunkBytes(nm, c, writerId).value) == Ok(ChunkPartial(nm, c, writerId))
  {
    hide HeaderBytes, ChunkStructBytes, ReadNetworkMessage, ReadChunk;
    HeaderRoundTrip(ChunkMessage(nm, c, writerId), ChunkStructBytes(c).value);
    ChunkStructRoundTrip(c);
    assert NormalPayload([]) == [];
  }

  /**
   What every chunk of a message says about it: its total size, its sequence number in 16 bits (0 if it has
   none), and one writer id, the first (0 if there is none).
   */
  lemma ChunksNameTheirMessage(nm: NetworkMessage, mtu: int, i: nat)
    requires Encode(nm, mtu).Ok? && Encode(nm, mtu).value.Chunked? && i < |Encode(nm, mtu).value.buffers|
    ensures WholeBytes(nm).Ok?
    ensures var r := Decode(Encode(nm, mtu).value.buffers[i]);
            && r.Ok? && r.value.chunk.Some? && r.value.payload == []
            && r.value.writerIds == [if nm.writerIds == [] then 0 else nm.writerIds[0]]
            && r.value.chunk.value.totalSize == |WholeBytes(nm).value|
            && r.value.chunk.value.messageSequenceNumber
               == (match nm.groupHeader
                   case None => 0
                   case Some(g) => if g.sequenceNumber.Some? then g.sequenceNumber.value % 0x1_0000 else 0)
  {
    hide Encode, WholeBytes, ChunkBytes, Chunks, Tiles, Decode, Probe;
    ChunkedEncoding(nm, mtu);
    var whole := WholeBytes(nm).value;
    var maxData := mtu - |Probe(nm, whole).value| - CHUNK_PAYLOAD_OVERHEAD;
    var cs := Chunks(nm, whole, maxData);
    ChunkRoundTrip(nm, cs[i], ChunkWriterId(nm));
    TilesAt(cs, MessageSequenceNumber(nm), whole, 0, maxData, i);
  }
}
