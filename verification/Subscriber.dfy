/** The subscriber node: decode, reassemble, filter, unwrap, emit. */
module Subscriber {
  import opened Wrappers
  import opened Wire
  import opened UadpModel
  import UadpSpec
  import UadpDecoder
  import JsMap
  import R = Reassembler
  import opened PublisherTexts

  /** The reader filter, the expected configuration version, and whether MQTT topics are passed on. */
  datatype Subscription = Subscription(
    publisherId: Option<Text>, writerGroupId: Option<int>, dataSetWriterId: Option<int>,
    expectedVersion: Option<(int, int)>)

  /** A field as a flow sees it: its raw value, null, or a DataValue that has no value. */
  datatype Unwrapped = NullValue | Plain(content: Content) | Whole(dataValue: DataValue)

  type Payload = JsMap.Map<Text, Unwrapped>

  datatype Msg = Msg(
    payload: Payload, publisherId: Option<PublisherId>, writerGroupId: Option<int>, dataSetWriterId: Option<int>,
    sequenceNumber: Option<int>, timestamp: int, statusCode: int)

  function Unwrap(f: Field): Unwrapped {
    match f
    case VariantField(NullVariant) => NullValue
    case VariantField(Variant(_, content, _)) => Plain(content)
    case DataValueField(None) => NullValue
    case DataValueField(Some(dv)) =>
      match dv.value
      case None => Whole(dv)
      case Some(NullVariant) => NullValue
      case Some(Variant(_, content, _)) => Plain(content)
  }

  function UnwrapFields(fs: Fields): (r: Payload)
    ensures |r| == |fs|
  {
    seq(|fs|, i requires 0 <= i < |fs| => (fs[i].0, Unwrap(fs[i].1)))
  }

  function WriterIdOf(nm: NetworkMessage, i: nat): Option<int>
    requires i < |nm.payload|
  {
    if nm.payload[i].dataSetWriterId.Some? then nm.payload[i].dataSetWriterId
    else if i < |nm.writerIds| then Some(nm.writerIds[i])
    else None
  }

  predicate Matches(sub: Subscription, nm: NetworkMessage, i: nat)
    requires i < |nm.payload|
  {
    && (sub.publisherId.Some? ==> sub.publisherId.value == R.PublisherText(nm.publisherId))
    && (sub.writerGroupId.Some? ==> sub.writerGroupId == R.GroupOf(nm))
    && (sub.dataSetWriterId.Some? ==> sub.dataSetWriterId == WriterIdOf(nm, i))
  }

  /** The message carries a configuration version, and it is not the expected one. */
  predicate VersionDiffers(sub: Subscription, m: DataSetMessage) {
    && sub.expectedVersion.Some?
    && (m.major.Some? || m.minor.Some?)
    && (m.major != Some(sub.expectedVersion.value.0) || m.minor != Some(sub.expectedVersion.value.1))
  }

  function MsgOf(nm: NetworkMessage, i: nat, now: int): Msg
    requires i < |nm.payload|
  {
    var m := nm.payload[i];
    var nmSeq := if nm.groupHeader.Some? then nm.groupHeader.value.sequenceNumber else None;
    Msg(UnwrapFields(m.fields), nm.publisherId, R.GroupOf(nm), WriterIdOf(nm, i),
        if nmSeq.Some? then nmSeq else m.sequenceNumber,
        if m.timestamp.Some? then m.timestamp.value else nm.timestamp.GetOr(now),
        m.status.GetOr(0))
  }

  /** The messages emitted for a NetworkMessage, from its i-th DataSetMessage on. */
  function Emitted(sub: Subscription, nm: NetworkMessage, now: int, i: nat): seq<Msg>
    requires i <= |nm.payload|
    decreases |nm.payload| - i
  {
    if i == |nm.payload| then []
    else
      (if Matches(sub, nm, i) && !VersionDiffers(sub, nm.payload[i]) then [MsgOf(nm, i, now)] else [])
      + Emitted(sub, nm, now, i + 1)
  }

  /** The version errors raised on the way. */
  function VersionErrors(sub: Subscription, nm: NetworkMessage, i: nat): nat
    requires i <= |nm.payload|
    decreases |nm.payload| - i
  {
    if i == |nm.payload| then 0
    else (if Matches(sub, nm, i) && VersionDiffers(sub, nm.payload[i]) then 1 else 0) + VersionErrors(sub, nm, i + 1)
  }

  const MQTT_MAX_REASSEMBLED_SIZE := 16 * 1024 * 1024

  // ----- what one buffer does

  /** What a subscription has emitted and complained about, and its half-received messages. */
  datatype Inbox = Inbox(sent: seq<Msg>, errors: nat, entries: R.Entries)

  function Handled(sub: Subscription, b: Inbox, nm: NetworkMessage, now: int): Inbox {
    b.(sent := b.sent + Emitted(sub, nm, now, 0), errors := b.errors + VersionErrors(sub, nm, 0))
  }

  /** Over UDP (`reassembles` is false) chunks never get here; over MQTT they are put together first. */
  function Received(sub: Subscription, reassembles: bool, b: Inbox, buffer: Bytes, now: int): Inbox {
    match UadpSpec.Decode(buffer)
    case Err(_) => b.(errors := b.errors + 1)
    case Ok(nm) =>
      if nm.chunk.None? then Handled(sub, b, nm, now)
      else if !reassembles then b
      else
        var p := R.AfterPush(MQTT_MAX_REASSEMBLED_SIZE, b.entries, nm, now);
        var c := b.(entries := p.entries);
        match p.complete
        case None => c
        case Some(whole) =>
          match UadpSpec.Decode(whole)
          case Err(_) => c.(errors := c.errors + 1)
          case Ok(complete) => Handled(sub, c, complete, now)
  }

  // ----- what is emitted

  /** What a flow is given for a field: the value itself where there is one, whatever surrounds it. */
  lemma FieldIsUnwrapped(nm: NetworkMessage, i: nat, now: int, name: Text)
    requires i < |nm.payload|
    ensures var f, u := JsMap.Get(nm.payload[i].fields, name), JsMap.Get(MsgOf(nm, i, now).payload, name);
            && (f.None? <==> u.None?)
            && (forall t, content, dims ::
                  f == Some(VariantField(Variant(t, content, dims))) ==> u == Some(Plain(content)))
            && (forall dv, t, content, dims ::
                  f == Some(DataValueField(Some(dv))) && dv.value == Some(Variant(t, content, dims)) ==>
                    u == Some(Plain(content)))
            && (forall dv :: f == Some(DataValueField(Some(dv))) && dv.value.None? ==> u == Some(Whole(dv)))
            && (f == Some(VariantField(NullVariant)) || f == Some(DataValueField(None)) ==> u == Some(NullValue))
            && (forall dv ::
                  f == Some(DataValueField(Some(dv))) && dv.value == Some(NullVariant) ==> u == Some(NullValue))
  {
    SamePlace(nm.payload[i].fields, name);
  }

  lemma SamePlace(fs: Fields, name: Text)
    ensures JsMap.IndexOf(UnwrapFields(fs), name) == JsMap.IndexOf(fs, name)
  {
    hide Unwrap;
    var seen := UnwrapFields(fs);
    assert forall i :: 0 <= i < |fs| ==> seen[i].0 == fs[i].0;
    var i, j := JsMap.IndexOf(fs, name), JsMap.IndexOf(seen, name);
    assert i < |fs| ==> seen[i].0 == name;
  }

  /** The DataSetMessage's own status and time come first, the group's number before the message's. */
  lemma MessageIsLabelled(nm: NetworkMessage, i: nat, now: int)
    requires i < |nm.payload|
    ensures var m, msg := nm.payload[i], MsgOf(nm, i, now);
            && msg.publisherId == nm.publisherId
            && msg.statusCode == (if m.status.Some? then m.status.value else 0)
            && (m.timestamp == Some(msg.timestamp) || m.timestamp.None?)
            && (m.timestamp.None? && nm.timestamp.Some? ==> nm.timestamp == Some(msg.timestamp))
            && (m.timestamp.None? && nm.timestamp.None? ==> msg.timestamp == now)
            && (nm.groupHeader.None? ==> msg.writerGroupId.None? && msg.sequenceNumber == m.sequenceNumber)
            && (nm.groupHeader.Some? ==>
                  && msg.writerGroupId == nm.groupHeader.value.writerGroupId
                  && (nm.groupHeader.value.sequenceNumber.Some? ==>
                        msg.sequenceNumber == nm.groupHeader.value.sequenceNumber)
                  && (nm.groupHeader.value.sequenceNumber.None? ==> msg.sequenceNumber == m.sequenceNumber))
            && (m.dataSetWriterId.None? && i < |nm.writerIds| ==> msg.dataSetWriterId == Some(nm.writerIds[i]))
            && (m.dataSetWriterId.Some? ==> msg.dataSetWriterId == m.dataSetWriterId)
  {
    hide UnwrapFields;
  }

  /** How many messages, from the i-th on, the reader filter lets through. */
  function Matching(sub: Subscription, nm: NetworkMessage, i: nat): nat
    requires i <= |nm.payload|
    decreases |nm.payload| - i
  {
    if i == |nm.payload| then 0 else (if Matches(sub, nm, i) then 1 else 0) + Matching(sub, nm, i + 1)
  }

  /** Every message the filter lets through is answered once: it is emitted, or it is an error. */
  lemma {:induction false} EveryMatchIsAnswered(sub: Subscription, nm: NetworkMessage, now: int, i: nat)
    requires i <= |nm.payload|
    ensures |Emitted(sub, nm, now, i)| + VersionErrors(sub, nm, i) == Matching(sub, nm, i)
    decreases |nm.payload| - i
  {
    hide Matches, VersionDiffers, MsgOf;
    if i < |nm.payload| {
      EveryMatchIsAnswered(sub, nm, now, i + 1);
    }
  }

  /** Without a filter every message matches; each criterion shuts out exactly what differs from it. */
  lemma FilterShutsOut(sub: Subscription, nm: NetworkMessage, i: nat)
    requires i < |nm.payload|
    ensures Matches(Subscription(None, None, None, sub.expectedVersion), nm, i)
    ensures Matches(sub, nm, i) ==> Matches(sub.(publisherId := None), nm, i)
    ensures sub.publisherId.Some? && Matches(sub.(publisherId := None), nm, i) ==>
              (Matches(sub, nm, i) <==> Names(sub.publisherId.value, nm.publisherId))
    ensures sub.writerGroupId.Some? && Matches(sub.(writerGroupId := None), nm, i) ==>
              (Matches(sub, nm, i) <==> MsgOf(nm, i, 0).writerGroupId == sub.writerGroupId)
    ensures sub.dataSetWriterId.Some? && Matches(sub.(dataSetWriterId := None), nm, i) ==>
              (Matches(sub, nm, i) <==> MsgOf(nm, i, 0).dataSetWriterId == sub.dataSetWriterId)
  {
    if sub.publisherId.Some? {
      PublisherTextNames(sub.publisherId.value, nm.publisherId);
    }
    hide R.PublisherText, Names, UnwrapFields;
  }

  /** What does not decode is one error, and nothing else changes; over UDP a chunk is passed over. */
  lemma UndecodableIsReported(sub: Subscription, reassembles: bool, b: Inbox, buffer: Bytes, now: int)
    ensures UadpSpec.Decode(buffer).Err? ==> Received(sub, reassembles, b, buffer, now) == b.(errors := b.errors + 1)
    ensures UadpSpec.Decode(buffer).Ok? && UadpSpec.Decode(buffer).value.chunk.Some? ==>
              Received(sub, false, b, buffer, now) == b
  {
    hide UadpSpec.Decode, R.AfterPush, Emitted, VersionErrors;
  }

  /**
   Over MQTT a chunk that completes its message stands for that message; if the result does not decode, it is
   an error.
   */
  lemma CompleteStandsForMessage(sub: Subscription, b: Inbox, buffer: Bytes, now: int)
    requires UadpSpec.Decode(buffer).Ok? && UadpSpec.Decode(buffer).value.chunk.Some?
    ensures var p := R.AfterPush(MQTT_MAX_REASSEMBLED_SIZE, b.entries, UadpSpec.Decode(buffer).value, now);
            var c := Received(sub, true, b, buffer, now);
            && c.entries == p.entries
            && (p.complete.None? ==> c.sent == b.sent && c.errors == b.errors)
            && (p.complete.Some? && UadpSpec.Decode(p.complete.value).Err? ==>
                  c.sent == b.sent && c.errors == b.errors + 1)
            && (p.complete.Some? && UadpSpec.Decode(p.complete.value).Ok?
                && UadpSpec.Decode(p.complete.value).value.chunk.None? ==>
                  c == Received(sub, true, b.(entries := p.entries), p.complete.value, now))
  {
    hide UadpSpec.Decode, R.AfterPush, Emitted, VersionErrors;
  }

  /** So a buffer never takes back what was emitted, and each error counts once. */
  lemma NothingIsTakenBack(sub: Subscription, reassembles: bool, b: Inbox, buffer: Bytes, now: int)
    ensures var c := Received(sub, reassembles, b, buffer, now); b.sent <= c.sent && b.errors <= c.errors
  {
    hide UadpSpec.Decode, R.AfterPush, Emitted, VersionErrors;
  }

  // ----- the node

  class SubscriberNode {
    const subscription: Subscription
    const reassembler: R.UadpReassembler?
    var sent: seq<Msg>
    var errors: nat

    ghost predicate Valid()
      reads this, reassembler
    {
      reassembler != null ==> reassembler.maxTotalSize == MQTT_MAX_REASSEMBLED_SIZE
    }

    ghost function View(): Inbox
      reads this, reassembler
    {
      Inbox(sent, errors, if reassembler == null then [] else reassembler.entries)
    }

    constructor (subscription: Subscription, udp: bool)
      ensures Valid() && View() == Inbox([], 0, [])
      ensures this.subscription == subscription && (reassembler == null <==> udp)
      ensures reassembler != null ==> fresh(reassembler)
    {
      var r: R.UadpReassembler? := null;
      if !udp {
        r := new R.UadpReassembler(MQTT_MAX_REASSEMBLED_SIZE);
      }
      this.subscription, this.reassembler, sent, errors := subscription, r, [], 0;
    }

    method HandleNetworkMessage(nm: NetworkMessage, now: int)
      modifies this
      ensures sent == old(sent) + Emitted(subscription, nm, now, 0)
      ensures errors == old(errors) + VersionErrors(subscription, nm, 0)
    {
      hide MsgOf, Matches, VersionDiffers;
      var i := 0;
      while i < |nm.payload|
        invariant 0 <= i <= |nm.payload|
        invariant old(sent) + Emitted(subscription, nm, now, 0) == sent + Emitted(subscription, nm, now, i)
        invariant old(errors) + VersionErrors(subscription, nm, 0) == errors + VersionErrors(subscription, nm, i)
      {
        if Matches(subscription, nm, i) {
          if VersionDiffers(subscription, nm.payload[i]) {
            errors := errors + 1;
          } else {
            sent := sent + [MsgOf(nm, i, now)];
          }
        }
        i := i + 1;
      }
    }

    method OnMessage(buffer: array<Byte>, now: int)
      requires Valid()
      modifies this, reassembler
      ensures Valid()
      ensures View() == Received(subscription, reassembler != null, old(View()), old(buffer[..]), now)
    {
      hide R.AfterPush, UadpSpec.Decode, Emitted, VersionErrors;
      var nm := UadpDecoder.DecodeNetworkMessage(buffer);
      if nm.Err? {
        errors := errors + 1;
        return;
      }
      if nm.value.chunk.None? {
        HandleNetworkMessage(nm.value, now);
        return;
      }
      if reassembler == null {
        return;
      }
      var complete := reassembler.Push(nm.value, now);
      if complete.None? {
        return;
      }
      var whole := complete.value;
      var assembled := new Byte[|whole|](i requires 0 <= i < |whole| => whole[i]);
      assert assembled[..] == whole;
      var message := UadpDecoder.DecodeNetworkMessage(assembled);
      if message.Err? {
        errors := errors + 1;
        return;
      }
      HandleNetworkMessage(message.value, now);
    }
  }
}
