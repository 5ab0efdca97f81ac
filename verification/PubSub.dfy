/** From one end to the other: what a subscriber emits for what a publisher built. */
module PubSub {
  import opened Wrappers
  import opened Wire
  import opened UadpModel
  import opened UadpSpec
  import opened UadpChunks
  import opened UadpRoundTrip
  import opened Reassembler
  import opened Reassembly
  import opened PublisherTexts
  import opened ChunkTransport
  import opened Publisher
  import opened Subscriber
  import JsMap

  // ----- the fields

  /** The type a field is declared with; of several declarations, the last counts. */
  function DeclaredType(decls: seq<FieldDecl>, name: Text): Option<string> {
    if decls == [] then None
    else if decls[|decls| - 1].name == name then Some(decls[|decls| - 1].dataType)
    else DeclaredType(decls[..|decls| - 1], name)
  }

  /** The payload a flow should see: every declared field that has a value. */
  function Carried(decls: seq<FieldDecl>, values: Values): Payload {
    if decls == [] then []
    else
      var before, d := Carried(decls[..|decls| - 1], values), decls[|decls| - 1];
      match JsMap.Get(values, d.name)
      case None => before
      case Some(sample) =>
        JsMap.Set(before, d.name, Plain(NormalContent(TypeName(d.dataType).Number(), sample.content)))
  }

  /** Exactly the declared fields that are present, each with its value in the declared type's normal form. */
  lemma {:induction false} CarriedExactly(decls: seq<FieldDecl>, values: Values, name: Text)
    ensures JsMap.Get(Carried(decls, values), name)
         == if DeclaredType(decls, name).Some? && JsMap.Has(values, name)
            then Some(Plain(NormalContent(TypeName(DeclaredType(decls, name).value).Number(),
                                          JsMap.Get(values, name).value.content)))
            else None
  {
    hide NormalContent;
    if decls != [] {
      var init, d := decls[..|decls| - 1], decls[|decls| - 1];
      CarriedExactly(init, values, name);
      if JsMap.Has(values, d.name) {
        var content := JsMap.Get(values, d.name).value.content;
        var normal := Plain(NormalContent(TypeName(d.dataType).Number(), content));
        JsMap.GetOfSet(Carried(init, values), d.name, normal, name);
      }
    }
  }

  lemma UnwrapSet(fs: Fields, name: Text, f: Field)
    ensures UnwrapFields(NormalFields(JsMap.Set(fs, name, f)))
         == JsMap.Set(UnwrapFields(NormalFields(fs)), name, Unwrap(NormalField(f)))
  {
    hide NormalField, Unwrap;
    var seen := UnwrapFields(NormalFields(fs));
    assert forall i :: 0 <= i < |fs| ==> seen[i].0 == fs[i].0;
    var i, j := JsMap.IndexOf(fs, name), JsMap.IndexOf(seen, name);
    assert i < |fs| ==> seen[i].0 == name;
    assert i == j;
  }

  lemma {:induction false} CarriedFields(decls: seq<FieldDecl>, values: Values)
    ensures UnwrapFields(NormalFields(BuiltFields(decls, values))) == Carried(decls, values)
  {
    hide NormalContent, UnwrapFields, NormalFields, JsMap.Set, JsMap.Get;
    if decls == [] {
      assert UnwrapFields(NormalFields([])) == [];
    } else {
      var init, d := decls[..|decls| - 1], decls[|decls| - 1];
      CarriedFields(init, values);
      match JsMap.Get(values, d.name)
      case None =>
      case Some(sample) =>
        UnwrapSet(BuiltFields(init, values), d.name, VariantField(Variant(TypeName(d.dataType), sample.content, None)));
    }
  }

  // ----- the messages

  /** The reader filter, read against the publisher's own configuration. */
  predicate Addressed(sub: Subscription, p: Config, w: Writer) {
    && (sub.publisherId.Some? ==> Names(sub.publisherId.value, p.publisherId))
    && (sub.writerGroupId.Some? ==> sub.writerGroupId.value == p.writerGroupId)
    && (sub.dataSetWriterId.Some? ==> sub.dataSetWriterId.value == w.id)
  }

  /** A keyframe of another configuration version than the expected one; KeepAlives carry none. */
  predicate Outdated(sub: Subscription, w: Writer, values: Option<Values>) {
    && values.Some? && sub.expectedVersion.Some?
    && (w.major.Some? || w.minor.Some?)
    && (w.major != Some(sub.expectedVersion.value.0) || w.minor != Some(sub.expectedVersion.value.1))
  }

  function ExpectedMsg(p: Config, w: Writer, number: int, values: Option<Values>, now: int): Msg {
    Msg(match values case None => [] case Some(v) => Carried(w.fields, v),
        p.publisherId, Some(p.writerGroupId), Some(w.id), Some(number), now, 0)
  }

  /** One message per matching writer, in writer order. */
  function Expected(
      sub: Subscription, p: Config, ws: seq<Writer>, number: int, values: Option<Values>, now: int): seq<Msg> {
    if ws == [] then []
    else
      (if Addressed(sub, p, ws[0]) && !Outdated(sub, ws[0], values)
       then [ExpectedMsg(p, ws[0], number, values, now)] else [])
      + Expected(sub, p, ws[1..], number, values, now)
  }

  /** One error per matching writer of another version. */
  function ExpectedErrors(sub: Subscription, p: Config, ws: seq<Writer>, values: Option<Values>): nat {
    if ws == [] then 0
    else (if Addressed(sub, p, ws[0]) && Outdated(sub, ws[0], values) then 1 else 0)
         + ExpectedErrors(sub, p, ws[1..], values)
  }

  lemma OneMatch(sub: Subscription, p: Config, c: Counters, values: Option<Values>, now: int, i: nat)
    requires i < |p.writers|
    ensures var nm := NormalNetworkMessage(Built(p, c, values, now));
            && |nm.payload| == |p.writers|
            && (Matches(sub, nm, i) <==> Addressed(sub, p, p.writers[i]))
            && (VersionDiffers(sub, nm.payload[i]) <==> Outdated(sub, p.writers[i], values))
  {
    if sub.publisherId.Some? {
      PublisherTextNames(sub.publisherId.value, p.publisherId);
    }
    hide NormalFields, BuiltFields, PublisherText, Names, Numbers;
  }

  lemma OneMessage(sub: Subscription, p: Config, c: Counters, values: Option<Values>, now: int, later: int, i: nat)
    requires i < |p.writers|
    ensures var nm := NormalNetworkMessage(Built(p, c, values, now));
            && |nm.payload| == |p.writers|
            && (Matches(sub, nm, i) <==> Addressed(sub, p, p.writers[i]))
            && (VersionDiffers(sub, nm.payload[i]) <==> Outdated(sub, p.writers[i], values))
            && MsgOf(nm, i, later) == ExpectedMsg(p, p.writers[i], Next(c.nmSeq), values, now)
  {
    OneMatch(sub, p, c, values, now, i);
    hide NormalFields, BuiltFields, Carried, Numbers, Unwrap, Matches, Addressed, VersionDiffers, Outdated;
    if values.Some? {
      CarriedFields(p.writers[i].fields, values.value);
    }
  }

  lemma {:induction false} EmittedAreExpected(
      sub: Subscription, p: Config, c: Counters, values: Option<Values>, now: int, later: int, i: nat)
    requires i <= |p.writers|
    ensures var nm := NormalNetworkMessage(Built(p, c, values, now));
            && |nm.payload| == |p.writers|
            && Emitted(sub, nm, later, i) == Expected(sub, p, p.writers[i..], Next(c.nmSeq), values, now)
            && VersionErrors(sub, nm, i) == ExpectedErrors(sub, p, p.writers[i..], values)
    decreases |p.writers| - i
  {
    hide NormalNetworkMessage, Built, Matches, VersionDiffers, MsgOf, Addressed, Outdated, ExpectedMsg;
    if i < |p.writers| {
      OneMessage(sub, p, c, values, now, later, i);
      EmittedAreExpected(sub, p, c, values, now, later, i + 1);
      assert p.writers[i..][1..] == p.writers[i + 1..];
    } else {
      SameCount(p, c, values, now);
    }
  }

  lemma SameCount(p: Config, c: Counters, values: Option<Values>, now: int)
    ensures |NormalNetworkMessage(Built(p, c, values, now)).payload| == |p.writers|
  {
  }

  lemma BuiltIsTransportable(p: Config, c: Counters, values: Option<Values>, now: int)
    ensures var nm := Built(p, c, values, now);
            nm.chunk.None? && CountsAgree(nm) && NoRawData(nm.payload)
  {
    hide BuiltFields, Numbers;
  }

  lemma {:induction false} NmSeqAfter(k: nat, ids: seq<int>)
    ensures CountersAfter(k, ids).nmSeq == k % 0x1_0000
  {
    hide Counted;
    if k > 0 {
      NmSeqAfter(k - 1, ids);
      NextAfter(k - 1);
    }
  }

  /** The k-th message a publisher builds. */
  function Kth(p: Config, k: nat, values: Option<Values>, now: int): NetworkMessage
    requires k > 0
  {
    Built(p, CountersAfter(k - 1, Ids(p.writers)), values, now)
  }

  /** What a subscription holds after a message from this publisher. */
  function Delivered(sub: Subscription, b: Inbox, p: Config, number: int, values: Option<Values>, now: int): Inbox {
    b.(sent := b.sent + Expected(sub, p, p.writers, number, values, now),
       errors := b.errors + ExpectedErrors(sub, p, p.writers, values))
  }

  lemma HandledIsDelivered(
      sub: Subscription, b: Inbox, p: Config, k: nat, values: Option<Values>, now: int, later: int)
    requires k > 0
    ensures Handled(sub, b, NormalNetworkMessage(Kth(p, k, values, now)), later)
         == Delivered(sub, b, p, k % 0x1_0000, values, now)
  {
    hide NormalNetworkMessage, Built, Emitted, VersionErrors, Expected, ExpectedErrors, CountersAfter;
    NmSeqAfter(k - 1, Ids(p.writers));
    EmittedAreExpected(sub, p, CountersAfter(k - 1, Ids(p.writers)), values, now, later, 0);
    assert p.writers[0..] == p.writers;
  }

  /**
   Publisher to subscriber, in one piece: the subscriber emits one message per matching writer, in writer
   order, with exactly the declared fields that are present, all numbered k modulo 65536.
   */
  lemma WholeMessageIsReceived(
      sub: Subscription, reassembles: bool, b: Inbox, p: Config, k: nat, values: Option<Values>, now: int, later: int)
    requires k > 0
    requires var sent := Encode(Kth(p, k, values, now), p.mtu.GetOr(1400));
             sent.Ok? && sent.value.Single?
    ensures var sent := Encode(Kth(p, k, values, now), p.mtu.GetOr(1400)).value.buffer;
            Received(sub, reassembles, b, sent, later) == Delivered(sub, b, p, k % 0x1_0000, values, now)
  {
    hide Encode, Decode, Built, NormalNetworkMessage, CountersAfter, Handled, Delivered, CountsAgree, NoRawData;
    var nm := Kth(p, k, values, now);
    BuiltIsTransportable(p, CountersAfter(k - 1, Ids(p.writers)), values, now);
    SingleRoundTrip(nm, p.mtu.GetOr(1400));
    HandledIsDelivered(sub, b, p, k, values, now, later);
    NormalKeepsChunk(nm);
  }

  lemma NormalKeepsChunk(nm: NetworkMessage)
    ensures NormalNetworkMessage(nm).chunk == nm.chunk
  {
  }

  // ----- in chunks, among other traffic

  /** Buffers with the times at which they arrive. */
  type Feed = seq<(Bytes, int)>

  function Fed(sub: Subscription, b: Inbox, feed: Feed): Inbox {
    if feed == [] then b
    else Received(sub, true, Fed(sub, b, feed[..|feed| - 1]), feed[|feed| - 1].0, feed[|feed| - 1].1)
  }

  predicate IsChunkBuffer(buffer: Bytes) {
    Decode(buffer).Ok? && Decode(buffer).value.chunk.Some?
  }

  /** The chunks among the buffers, as the reassembler gets them. */
  function ChunksIn(feed: Feed): seq<ChunkArrival> {
    if feed == [] then []
    else
      var last := feed[|feed| - 1];
      ChunksIn(feed[..|feed| - 1])
      + if IsChunkBuffer(last.0) then [Arrival(Decode(last.0).value, last.1)] else []
  }

  lemma {:induction false} FedEntries(sub: Subscription, b: Inbox, feed: Feed)
    ensures Fed(sub, b, feed).entries == Run(MQTT_MAX_REASSEMBLED_SIZE, b.entries, ChunksIn(feed))
  {
    hide Decode, AfterPush, Emitted, VersionErrors;
    if feed != [] {
      var init := feed[..|feed| - 1];
      FedEntries(sub, b, init);
      var h, g := ChunksIn(feed), ChunksIn(init);
      if IsChunkBuffer(feed[|feed| - 1].0) {
        assert h[..|h| - 1] == g;
      } else {
        assert h == g;
      }
    }
  }

  predicate InFeed(buffer: Bytes, feed: Feed) {
    exists j :: 0 <= j < |feed| && feed[j].0 == buffer
  }

  lemma {:induction false} ArrivedFromFeed(feed: Feed, a: ChunkArrival)
    requires a in ChunksIn(feed)
    ensures exists j :: 0 <= j < |feed| && Decode(feed[j].0) == Ok(a.partial)
  {
    hide Decode;
    var init, last := feed[..|feed| - 1], feed[|feed| - 1];
    if a in ChunksIn(init) {
      ArrivedFromFeed(init, a);
      var j :| 0 <= j < |init| && Decode(init[j].0) == Ok(a.partial);
      assert feed[j] == init[j];
    }
  }

  lemma {:induction false} FeedArrives(feed: Feed, j: nat)
    requires j < |feed| && IsChunkBuffer(feed[j].0)
    ensures exists a :: a in ChunksIn(feed) && Carries(a, feed[j].0)
    decreases |feed|
  {
    hide Decode;
    var init, last := feed[..|feed| - 1], feed[|feed| - 1];
    if j < |init| {
      FeedArrives(init, j);
      var a :| a in ChunksIn(init) && Carries(a, init[j].0);
      assert a in ChunksIn(feed);
    } else {
      var a: ChunkArrival := Arrival(Decode(last.0).value, last.1);
      assert ChunksIn(feed)[|ChunksIn(feed)| - 1] == a;
      assert Carries(a, feed[j].0);
    }
  }

  /** Buffers that decode to chunks under this message's key are this message's chunks. */
  ghost predicate OwnChunksOnly(nm: NetworkMessage, buffers: seq<Bytes>, feed: Feed) {
    forall j :: 0 <= j < |feed| && IsChunkBuffer(feed[j].0) && Key(Decode(feed[j].0).value) == TransportKey(nm)
      ==> feed[j].0 in buffers
  }

  ghost predicate AllInFeed(buffers: seq<Bytes>, feed: Feed) {
    forall i :: 0 <= i < |buffers| ==> InFeed(buffers[i], feed)
  }

  lemma OwnArrivalsCarried(nm: NetworkMessage, buffers: seq<Bytes>, feed: Feed)
    requires OwnChunksOnly(nm, buffers, feed)
    ensures forall a :: a in ChunksIn(feed) && KeyOf(a) == TransportKey(nm) ==> CarriesOne(a, buffers)
  {
    hide Decode, Key, TransportKey, ChunksIn;
    forall a | a in ChunksIn(feed) && KeyOf(a) == TransportKey(nm)
      ensures CarriesOne(a, buffers)
    {
      ArrivedFromFeed(feed, a);
      var j :| 0 <= j < |feed| && Decode(feed[j].0) == Ok(a.partial);
      assert feed[j].0 in buffers;
      var i :| 0 <= i < |buffers| && buffers[i] == feed[j].0;
      assert Carries(a, buffers[i]);
    }
  }

  /** A chunk has arrived exactly when its buffer has. */
  lemma ArrivedIsInFeed(nm: NetworkMessage, mtu: int, t: Message, feed: Feed)
    requires Transmission(nm, mtu, t, TransportKey(nm))
    requires OwnChunksOnly(nm, Encode(nm, mtu).value.buffers, feed)
    ensures AllArrived(Encode(nm, mtu).value.buffers, ChunksIn(feed))
       <==> AllInFeed(Encode(nm, mtu).value.buffers, feed)
  {
    hide Encode, Decode, Key, TransportKey, ChunksIn, Message.Valid, WholeBytes, NormalNetworkMessage, ChunkWriterId;
    var buffers := Encode(nm, mtu).value.buffers;
    forall i | 0 <= i < |buffers|
      ensures Arrived(buffers[i], ChunksIn(feed)) <==> InFeed(buffers[i], feed)
    {
      if Arrived(buffers[i], ChunksIn(feed)) {
        var a :| a in ChunksIn(feed) && Carries(a, buffers[i]);
        ArrivedFromFeed(feed, a);
        var j :| 0 <= j < |feed| && Decode(feed[j].0) == Ok(a.partial);
        assert feed[j].0 in buffers;
        var l :| 0 <= l < |buffers| && buffers[l] == feed[j].0;
        assert t.cs[l] == t.cs[i];
        assert t.Valid();
        OffsetsDistinct(t, l, i);
        assert feed[j].0 == buffers[i];
      }
      if InFeed(buffers[i], feed) {
        var j :| 0 <= j < |feed| && feed[j].0 == buffers[i];
        FeedArrives(feed, j);
      }
    }
  }

  /**
   Publisher to subscriber, in chunks: whatever else the subscriber is fed, as long as no other chunk uses
   the message's key and its entry is not dropped, the buffer that completes the set of chunks makes it
   emit what it would have emitted for the whole message, and every earlier one makes it emit nothing.
   */
  lemma ChunkedMessageIsReceived(
      sub: Subscription, b: Inbox, p: Config, k: nat, values: Option<Values>, now: int,
      feed: Feed, buffer: Bytes, later: int)
    requires k > 0
    requires var nm, mtu := Kth(p, k, values, now), p.mtu.GetOr(1400);
             && Encode(nm, mtu).Ok? && Encode(nm, mtu).value.Chunked? && buffer in Encode(nm, mtu).value.buffers
             && WholeBytes(nm).Ok? && |WholeBytes(nm).value| <= 16_777_216
             && JsMap.Get(b.entries, TransportKey(nm)).None?
             && OwnChunksOnly(nm, Encode(nm, mtu).value.buffers, feed)
             && !AllInFeed(Encode(nm, mtu).value.buffers, feed)
             && NeverDropped(MQTT_MAX_REASSEMBLED_SIZE, b.entries, ChunksIn(feed + [(buffer, later)]), TransportKey(nm))
    ensures var before, after := Fed(sub, b, feed), Fed(sub, b, feed + [(buffer, later)]);
            var sent := Encode(Kth(p, k, values, now), p.mtu.GetOr(1400)).value.buffers;
            var whole := AllInFeed(sent, feed + [(buffer, later)]);
            after == if whole then Delivered(sub, before.(entries := after.entries), p, k % 0x1_0000, values, now)
                     else before.(entries := after.entries)
  {
    hide Encode, WholeBytes, Decode, Built, NormalNetworkMessage, CountersAfter, Handled, Delivered, CountsAgree,
         NoRawData, TransportKey, Transmission, ChunksIn, AfterPush, Key, AllInFeed, AllArrived, OwnChunksOnly,
         NeverDropped, Carries, Run;
    var nm, mtu, more := Kth(p, k, values, now), p.mtu.GetOr(1400), feed + [(buffer, later)];
    var buffers := Encode(nm, mtu).value.buffers;
    var t := ChunkedIsTransmission(nm, mtu);
    OwnBuffer(nm, mtu, t, buffer);
    StillOwn(nm, buffers, feed, buffer, later);
    ArrivedIsInFeed(nm, mtu, t, feed);
    ArrivedIsInFeed(nm, mtu, t, more);
    OwnArrivalsCarried(nm, buffers, more);
    FedEntries(sub, b, feed);
    var a: ChunkArrival := Arrival(Decode(buffer).value, later);
    assert more[..|more| - 1] == feed;
    assert ChunksIn(more) == ChunksIn(feed) + [a] by { OneMoreChunk(feed, buffer, later); }
    ChunkTransportIsLossless(nm, mtu, MQTT_MAX_REASSEMBLED_SIZE, b.entries, ChunksIn(feed), a);
    BuiltIsTransportable(p, CountersAfter(k - 1, Ids(p.writers)), values, now);
    NormalKeepsChunk(nm);
    var c := Fed(sub, b, feed).(entries := Step(MQTT_MAX_REASSEMBLED_SIZE, Fed(sub, b, feed).entries, a).entries);
    HandledIsDelivered(sub, c, p, k, values, now, later);
    DeliveredEntries(sub, c, p, k % 0x1_0000, values, now);
  }

  lemma HeaderOfKth(p: Config, k: nat, values: Option<Values>, now: int)
    requires k > 0
    ensures var nm := Kth(p, k, values, now);
            && nm.publisherId == p.publisherId
            && nm.groupHeader == Some(GroupHeader(Some(p.writerGroupId), None, None, Some(k % 0x1_0000)))
            && MessageSequenceNumber(nm) == k % 0x1_0000
  {
    NmSeqAfter(k - 1, Ids(p.writers));
    NextAfter(k - 1);
    hide CountersAfter, MessagesOf, Next;
    assert k % 0x1_0000 % 0x1_0000 == k % 0x1_0000;
  }

  lemma NormalKeepsGroup(nm: NetworkMessage)
    ensures NormalNetworkMessage(nm).publisherId == nm.publisherId
    ensures nm.groupHeader.Some? && nm.groupHeader.value.writerGroupId.Some? ==>
              GroupOf(NormalNetworkMessage(nm)) == nm.groupHeader.value.writerGroupId
  {
    hide NormalPayload;
  }

  /** What the key of a publisher's chunks is made of. */
  lemma KeyOfKth(p: Config, k: nat, values: Option<Values>, now: int) returns (partial: NetworkMessage)
    requires k > 0
    ensures partial.chunk.Some? && TransportKey(Kth(p, k, values, now)) == Key(partial)
    ensures partial.publisherId == p.publisherId && GroupOf(partial) == Some(p.writerGroupId)
    ensures partial.chunk.value.messageSequenceNumber == k % 0x1_0000
  {
    HeaderOfKth(p, k, values, now);
    hide Kth, Key, NormalNetworkMessage, MessageSequenceNumber;
    var nm := Kth(p, k, values, now);
    NormalKeepsGroup(nm);
    partial := ChunkPartial(nm, Chunk(MessageSequenceNumber(nm), 0, 0, []), ChunkWriterId(nm));
  }

  /** Chunks of two messages of one publisher go into one entry only if the numbers agree in 16 bits. */
  lemma MessagesApart(p: Config, j: nat, k: nat, v: Option<Values>, w: Option<Values>, before: int, now: int)
    requires j > 0 && k > 0
    ensures TransportKey(Kth(p, j, v, before)) == TransportKey(Kth(p, k, w, now)) <==> j % 0x1_0000 == k % 0x1_0000
  {
    hide TransportKey, Kth, Key, SameName;
    var a := KeyOfKth(p, j, v, before);
    var b := KeyOfKth(p, k, w, now);
    KeysSeparate(a, b);
    SameNameAsItself(p.publisherId);
  }

  lemma SameNameAsItself(p: Option<PublisherId>)
    ensures SameName(p, p)
  {
    SameTextIff(p, p);
  }

  lemma DeliveredEntries(sub: Subscription, b: Inbox, p: Config, number: int, values: Option<Values>, now: int)
    ensures Delivered(sub, b, p, number, values, now).entries == b.entries
  {
  }

  lemma OneMoreChunk(feed: Feed, buffer: Bytes, later: int)
    requires IsChunkBuffer(buffer)
    ensures ChunksIn(feed + [(buffer, later)]) == ChunksIn(feed) + [Arrival(Decode(buffer).value, later)]
  {
    hide Decode;
    var more := feed + [(buffer, later)];
    assert more[..|more| - 1] == feed;
  }

  lemma OwnBuffer(nm: NetworkMessage, mtu: int, t: Message, buffer: Bytes)
    requires Transmission(nm, mtu, t, TransportKey(nm)) && buffer in Encode(nm, mtu).value.buffers
    ensures IsChunkBuffer(buffer) && Key(Decode(buffer).value) == TransportKey(nm)
  {
    hide Encode, Decode, Key, TransportKey, Message.Valid, WholeBytes, NormalNetworkMessage, ChunkWriterId;
    var buffers := Encode(nm, mtu).value.buffers;
    var i :| 0 <= i < |buffers| && buffers[i] == buffer;
  }

  lemma StillOwn(nm: NetworkMessage, buffers: seq<Bytes>, feed: Feed, buffer: Bytes, later: int)
    requires OwnChunksOnly(nm, buffers, feed) && buffer in buffers
    ensures OwnChunksOnly(nm, buffers, feed + [(buffer, later)])
  {
    hide Decode, Key, TransportKey;
  }
}
