/** The publisher node: sequence numbers, message building, and the queue of one while disconnected. */
module Publisher {
  import opened Wrappers
  import opened Wire
  import opened UadpModel
  import opened UadpChunks
  import JsMap
  import UadpEncoder

  datatype FieldDecl = FieldDecl(name: Text, dataType: string)

  /** A DataSetWriter with the fields and the configuration version of its PublishedDataSet. */
  datatype Writer = Writer(id: int, fields: seq<FieldDecl>, major: Option<int>, minor: Option<int>)

  /** What does not change: the connection's publisher id, the writer group, and the MTU. */
  datatype Config = Config(publisherId: Option<PublisherId>, writerGroupId: int, writers: seq<Writer>, mtu: Option<int>)

  /** A field value, and whether a BigInt occurs in it. */
  datatype Sample = Sample(content: Content, bigInt: bool)

  /** Field values by name, as they arrive in a message payload. */
  type Values = JsMap.Map<Text, Sample>

  /** What `JSON.stringify` refuses. */
  predicate HasBigInt(values: Values) {
    exists i :: 0 <= i < |values| && values[i].1.bigInt
  }

  /** It is there exactly if some name has a value with a BigInt in it. */
  lemma BigIntIsSomewhere(values: Values)
    ensures HasBigInt(values) <==>
              exists name: Text :: JsMap.Get(values, name).Some? && JsMap.Get(values, name).value.bigInt
  {
    if HasBigInt(values) {
      var i :| 0 <= i < |values| && values[i].1.bigInt;
      JsMap.GetAt(values, i);
      assert JsMap.Get(values, values[i].0).Some?;
    }
    hide HasBigInt;
    if name: Text :| JsMap.Get(values, name).Some? && JsMap.Get(values, name).value.bigInt {
      SampleAt(values, name);
    }
  }

  lemma SampleAt(values: Values, name: Text)
    requires JsMap.Get(values, name).Some? && JsMap.Get(values, name).value.bigInt
    ensures HasBigInt(values)
  {
    var i := JsMap.IndexOf(values, name);
    assert values[i].1.bigInt;
  }

  // ----- sequence numbers

  /** The NetworkMessage counter and the counter of each writer. */
  datatype Counters = Counters(nmSeq: int, dsmSeq: map<int, int>)

  function Count(m: map<int, int>, id: int): int {
    if id in m then m[id] else 0
  }

  function Next(n: int): int {
    (n + 1) % 0x1_0000
  }

  /** The numbers given to the messages of these writers, one after the other. */
  function Numbers(m: map<int, int>, ids: seq<int>): (ns: seq<int>)
    ensures |ns| == |ids|
    decreases |ids|
  {
    if ids == [] then []
    else [Next(Count(m, ids[0]))] + Numbers(m[ids[0] := Next(Count(m, ids[0]))], ids[1..])
  }

  function Counted(m: map<int, int>, ids: seq<int>): map<int, int>
    decreases |ids|
  {
    if ids == [] then m else Counted(m[ids[0] := Next(Count(m, ids[0]))], ids[1..])
  }

  lemma CountedNone(m: map<int, int>)
    ensures Counted(m, []) == m
  {
  }

  /** The i-th number is one more than what the counter has reached by then. */
  lemma {:induction false} NumberAt(m: map<int, int>, ids: seq<int>, i: nat)
    requires i < |ids|
    ensures var reached := Counted(m, ids[..i]);
            && Numbers(m, ids)[i] == Next(Count(reached, ids[i]))
            && Counted(m, ids[..i + 1]) == reached[ids[i] := Next(Count(reached, ids[i]))]
    decreases i
  {
    if i == 0 {
      assert ids[..1] == [ids[0]] && ids[..0] == [] && ids[..1][1..] == [];
    } else {
      NumberAt(m[ids[0] := Next(Count(m, ids[0]))], ids[1..], i - 1);
      assert ids[..i][1..] == ids[1..][..i - 1] && ids[..i + 1][1..] == ids[1..][..i];
    }
  }

  function AfterBuild(c: Counters, ids: seq<int>): Counters {
    Counters(Next(c.nmSeq), Counted(c.dsmSeq, ids))
  }

  function Ids(ws: seq<Writer>): seq<int> {
    seq(|ws|, i requires 0 <= i < |ws| => ws[i].id)
  }

  predicate Distinct(ids: seq<int>) {
    forall i, j :: 0 <= i < j < |ids| ==> ids[i] != ids[j]
  }

  // ----- messages

  /** The declared fields that have a value, each with its declared type. */
  function BuiltFields(decls: seq<FieldDecl>, values: Values): Fields {
    if decls == [] then []
    else
      var before, d := BuiltFields(decls[..|decls| - 1], values), decls[|decls| - 1];
      match JsMap.Get(values, d.name)
      case None => before
      case Some(sample) => JsMap.Set(before, d.name, VariantField(Variant(TypeName(d.dataType), sample.content, None)))
  }

  function KeyFrameOf(w: Writer, number: int, values: Values): DataSetMessage {
    DataSetMessage(Some(w.id), true, AsVariant, KeyFrame, Some(number), None, w.major, w.minor, None, None,
                   BuiltFields(w.fields, values))
  }

  function KeepAliveOf(w: Writer, number: int): DataSetMessage {
    DataSetMessage(Some(w.id), true, AsVariant, KeepAlive, Some(number), None, None, None, None, None, [])
  }

  /** With values, a keyframe per writer; without, a KeepAlive. */
  function MessageOf(w: Writer, number: int, values: Option<Values>): DataSetMessage {
    match values
    case Some(v) => KeyFrameOf(w, number, v)
    case None => KeepAliveOf(w, number)
  }

  function MessagesOf(ws: seq<Writer>, numbers: seq<int>, values: Option<Values>): seq<DataSetMessage>
    requires |ws| == |numbers|
  {
    seq(|ws|, i requires 0 <= i < |ws| => MessageOf(ws[i], numbers[i], values))
  }

  function Built(p: Config, c: Counters, values: Option<Values>, now: int): NetworkMessage {
    NetworkMessage(p.publisherId, None, Some(GroupHeader(Some(p.writerGroupId), None, None, Some(Next(c.nmSeq)))),
                   Ids(p.writers), Some(now), None, false, None,
                   MessagesOf(p.writers, Numbers(c.dsmSeq, Ids(p.writers)), values))
  }

  // ----- the node

  /** `Object.assign`: the new values, one key after the other, over the old ones. */
  function Merged(before: Values, update: Values): Values {
    if |update| == 0 then before
    else JsMap.Set(Merged(before, update[..|update| - 1]), update[|update| - 1].0, update[|update| - 1].1)
  }

  lemma {:induction false} MergedAt(before: Values, update: Values, name: Text)
    ensures JsMap.Get(Merged(before, update), name)
         == if JsMap.Has(update, name) then JsMap.Get(update, name) else JsMap.Get(before, name)
    decreases |update|
  {
    if |update| > 0 {
      var init, last := update[..|update| - 1], update[|update| - 1];
      MergedAt(before, init, name);
      JsMap.GetOfSet(Merged(before, init), last.0, last.1, name);
      JsMap.GetAt(update, |update| - 1);
      var i := JsMap.IndexOf(update, name);
      if i < |update| - 1 {
        JsMap.GetAt(update, i);
        JsMap.GetAt(init, i);
      }
    }
  }

  datatype Status = Connected | Disconnected | Reconnecting | ErrorStatus

  class PublisherNode {
    const config: Config
    var nmSeq: int
    var dsmSeq: map<int, int>
    var latestValues: Values
    var publishedSnapshot: Option<Values>
    var connected: bool
    var pendingSend: Option<NetworkMessage>
    var sent: seq<Output>          // what transport.send was given

    function Counts(): Counters
      reads this
    {
      Counters(nmSeq, dsmSeq)
    }

    constructor (config: Config)
      ensures this.config == config && Counts() == Counters(0, map[])
      ensures latestValues == [] && publishedSnapshot == None && !connected && pendingSend == None && sent == []
    {
      this.config := config;
      nmSeq, dsmSeq, latestValues, publishedSnapshot := 0, map[], [], None;
      connected, pendingSend, sent := false, None, [];
    }

    /** Both builders: the sequence numbers move on whether or not the message is ever sent. */
    method Build(values: Option<Values>, now: int) returns (nm: NetworkMessage)
      modifies `nmSeq, `dsmSeq
      ensures nm == Built(config, old(Counts()), values, now)
      ensures Counts() == AfterBuild(old(Counts()), Ids(config.writers))
    {
      hide MessageOf, Numbers, Counted;
      nmSeq := Next(nmSeq);
      var ws := config.writers;
      ghost var ids, before := Ids(ws), dsmSeq;
      var payload := [];
      var i := 0;
      CountedNone(before);
      while i < |ws|
        modifies `dsmSeq
        invariant 0 <= i <= |ws| && |payload| == i
        invariant dsmSeq == Counted(before, ids[..i])
        invariant forall k :: 0 <= k < i ==> payload[k] == MessageOf(ws[k], Numbers(before, ids)[k], values)
      {
        NumberAt(before, ids, i);
        var id := ws[i].id;
        dsmSeq := dsmSeq[id := Next(Count(dsmSeq, id))];
        payload := payload + [MessageOf(ws[i], dsmSeq[id], values)];
        i := i + 1;
      }
      assert ids[..i] == ids;
      assert payload == MessagesOf(ws, Numbers(before, ids), values);
      nm := NetworkMessage(config.publisherId, None,
                           Some(GroupHeader(Some(config.writerGroupId), None, None, Some(nmSeq))),
                           Ids(ws), Some(now), None, false, None, payload);
    }

    /** Sends, or replaces the one message waiting for the connection. */
    method Emit(nm: NetworkMessage) returns (o: Outcome<Error>)
      modifies `pendingSend, `sent
      ensures !connected ==> o.Pass? && pendingSend == Some(nm) && sent == old(sent)
      ensures connected ==> pendingSend == old(pendingSend)
      ensures connected ==> match Encode(nm, config.mtu.GetOr(DEFAULT_MTU))
                            case Ok(output) => o.Pass? && sent == old(sent) + [output]
                            case Err(e) => o == Fail(e) && sent == old(sent)
    {
      if !connected {
        pendingSend := Some(nm);
        return Pass;
      }
      hide Encode;
      var encoded := UadpEncoder.EncodeNetworkMessage(nm, config.mtu);
      if encoded.Err? {
        return Fail(encoded.error);
      }
      sent := sent + [encoded.value];
      o := Pass;
    }

    /** The connection's status: on "connected" the waiting message goes out, and only then. */
    method OnStatus(status: Status)
      modifies `connected, `pendingSend, `sent
      ensures connected
           == (if status == Connected then true else if status == ErrorStatus then old(connected) else false)
      ensures status == Connected ==> pendingSend == None
      ensures status == Connected && old(pendingSend).Some?
              && Encode(old(pendingSend).value, config.mtu.GetOr(DEFAULT_MTU)).Ok? ==>
                sent == old(sent) + [Encode(old(pendingSend).value, config.mtu.GetOr(DEFAULT_MTU)).value]
      ensures status != Connected || old(pendingSend).None? ==> sent == old(sent)
      ensures status != Connected ==> pendingSend == old(pendingSend)
    {
      hide Encode;
      if status == Connected {
        connected := true;
        if pendingSend.Some? {
          var queued := pendingSend.value;
          pendingSend := None;
          var o := Emit(queued);
        }
      } else if status != ErrorStatus {
        connected := false;
      }
    }

    /** Acyclic input: one message in, one NetworkMessage out. */
    method OnInput(values: Values, now: int) returns (o: Outcome<Error>)
      modifies `nmSeq, `dsmSeq, `pendingSend, `sent
      ensures Counts() == AfterBuild(old(Counts()), Ids(config.writers))
      ensures !connected ==> pendingSend == Some(Built(config, old(Counts()), Some(values), now)) && sent == old(sent)
      ensures connected ==> match Encode(Built(config, old(Counts()), Some(values), now), config.mtu.GetOr(DEFAULT_MTU))
                            case Ok(output) => o.Pass? && sent == old(sent) + [output]
                            case Err(e) => o == Fail(e) && sent == old(sent)
    {
      hide Encode, Built;
      var nm := Build(Some(values), now);
      o := Emit(nm);
    }

    /** Cyclic input: the latest value of each field is kept for the next tick. */
    method OnCyclicInput(values: Values)
      modifies `latestValues
      ensures latestValues == Merged(old(latestValues), values)
    {
      var i := 0;
      while i < |values|
        invariant 0 <= i <= |values|
        invariant latestValues == Merged(old(latestValues), values[..i])
      {
        assert values[..i + 1][..i] == values[..i];
        latestValues := JsMap.Set(latestValues, values[i].0, values[i].1);
        i := i + 1;
      }
      assert values[..i] == values;
    }

    /**
     A cyclic tick: a keyframe when a value differs from the last keyframe built, otherwise a KeepAlive. With
     a BigInt among the values the comparison throws, or, as long as no keyframe has gone out, the copy made
     for the next comparison does: then the message has been built and counted, but it is not sent.
     */
    method OnTick(now: int) returns (o: Outcome<Error>)
      modifies `nmSeq, `dsmSeq, `pendingSend, `sent, `publishedSnapshot
      ensures HasBigInt(latestValues) ==>
                && o == Fail(NotSerializable)
                && sent == old(sent) && pendingSend == old(pendingSend) && publishedSnapshot == old(publishedSnapshot)
                && Counts()
                   == if old(publishedSnapshot).None?
                      then AfterBuild(old(Counts()), Ids(config.writers)) else old(Counts())
      ensures !HasBigInt(latestValues) ==>
                && Counts() == AfterBuild(old(Counts()), Ids(config.writers))
                && publishedSnapshot == Some(latestValues)
                && var values := if old(publishedSnapshot) == Some(latestValues) then None else Some(latestValues);
                   var nm := Built(config, old(Counts()), values, now);
                   if !connected then pendingSend == Some(nm) && sent == old(sent)
                   else match Encode(nm, config.mtu.GetOr(DEFAULT_MTU))
                        case Ok(output) => o.Pass? && sent == old(sent) + [output]
                        case Err(e) => o == Fail(e) && sent == old(sent)
    {
      hide Encode, Built, HasBigInt;
      if publishedSnapshot.Some? && HasBigInt(latestValues) {
        return Fail(NotSerializable);
      }
      var changed := publishedSnapshot != Some(latestValues);
      var nm := Build(if changed then Some(latestValues) else None, now);
      if changed {
        if HasBigInt(latestValues) {
          return Fail(NotSerializable);
        }
        publishedSnapshot := Some(latestValues);
      }
      o := Emit(nm);
    }
  }

  // ----- what the numbers are

  ghost predicate AllEqual(ns: seq<int>, n: int) {
    forall i :: 0 <= i < |ns| ==> ns[i] == n
  }

  ghost predicate AllAt(m: map<int, int>, ids: seq<int>, n: int) {
    forall id :: id in ids ==> Count(m, id) == n
  }

  /** Every writer has been counted as often as the NetworkMessages. */
  ghost predicate InStep(c: Counters, ids: seq<int>) {
    0 <= c.nmSeq < 0x1_0000 && AllAt(c.dsmSeq, ids, c.nmSeq)
  }

  lemma {:induction false} DistinctNumbers(m: map<int, int>, ids: seq<int>, n: int)
    requires Distinct(ids) && AllAt(m, ids, n)
    ensures forall i :: 0 <= i < |ids| ==> Numbers(m, ids)[i] == Next(n)
    ensures forall id :: Count(Counted(m, ids), id) == if id in ids then Next(n) else Count(m, id)
    decreases |ids|
  {
    if ids != [] {
      var m' := m[ids[0] := Next(n)];
      HeadIsNew(ids);
      assert forall id :: id in ids[1..] ==> id in ids && id != ids[0] && Count(m', id) == Count(m, id);
      DistinctNumbers(m', ids[1..], n);
      assert ids == [ids[0]] + ids[1..];
    }
  }

  lemma HeadIsNew(ids: seq<int>)
    requires ids != []
    ensures Distinct(ids) <==> Distinct(ids[1..]) && ids[0] !in ids[1..]
  {
    var tail := ids[1..];
    if Distinct(ids) {
      assert forall i :: 0 <= i < |tail| ==> tail[i] == ids[i + 1];
    } else {
      var i, j :| 0 <= i < j < |ids| && ids[i] == ids[j];
      assert tail[j - 1] == ids[j];
      if i > 0 {
        assert tail[i - 1] == ids[i];
      }
    }
  }

  /** A writer that has already had this NetworkMessage's number does not get it again. */
  lemma {:induction false} RepeatedNumber(m: map<int, int>, ids: seq<int>, j: nat, n: int)
    requires j < |ids| && Count(m, ids[j]) == Next(n) && 0 <= n < 0x1_0000
    ensures exists i :: 0 <= i <= j && Numbers(m, ids)[i] != Next(n)
    decreases j
  {
    if ids[0] == ids[j] {
      assert Numbers(m, ids)[0] == Next(Next(n));
    } else {
      var m' := m[ids[0] := Next(Count(m, ids[0]))];
      RepeatedNumber(m', ids[1..], j - 1, n);
      var i :| 0 <= i <= j - 1 && Numbers(m', ids[1..])[i] != Next(n);
      assert Numbers(m, ids)[i + 1] == Numbers(m', ids[1..])[i];
    }
  }

  /** Starting in step: all messages of a NetworkMessage carry its number exactly when the writer ids differ. */
  lemma {:induction false} SameNumberIffDistinct(m: map<int, int>, ids: seq<int>, n: int)
    requires 0 <= n < 0x1_0000 && AllAt(m, ids, n)
    ensures AllEqual(Numbers(m, ids), Next(n)) <==> Distinct(ids)
    decreases |ids|
  {
    if Distinct(ids) {
      DistinctNumbers(m, ids, n);
    } else {
      var m' := m[ids[0] := Next(n)];
      assert Count(m, ids[0]) == n;
      HeadIsNew(ids);
      if ids[0] in ids[1..] {
        var j :| 0 <= j < |ids| - 1 && ids[1..][j] == ids[0];
        RepeatedNumber(m', ids[1..], j, n);
      } else {
        assert forall id :: id in ids[1..] ==> id in ids && id != ids[0] && Count(m', id) == Count(m, id);
        SameNumberIffDistinct(m', ids[1..], n);
      }
      var i :| 0 <= i < |ids| - 1 && Numbers(m', ids[1..])[i] != Next(n);
      assert Numbers(m, ids)[i + 1] == Numbers(m', ids[1..])[i] != Next(n);
    }
  }

  /** The counters after `k` messages. */
  function CountersAfter(k: nat, ids: seq<int>): Counters {
    if k == 0 then Counters(0, map[]) else AfterBuild(CountersAfter(k - 1, ids), ids)
  }

  lemma {:induction false} AlwaysInStep(k: nat, ids: seq<int>)
    requires Distinct(ids)
    ensures InStep(CountersAfter(k, ids), ids) && CountersAfter(k, ids).nmSeq == k % 0x1_0000
  {
    if k > 0 {
      AlwaysInStep(k - 1, ids);
      var c := CountersAfter(k - 1, ids);
      DistinctNumbers(c.dsmSeq, ids, c.nmSeq);
      NextAfter(k - 1);
    }
  }

  /** The k-th message built carries k modulo 65536, in its group header and in every DataSetMessage. */
  lemma KthMessageNumber(p: Config, k: nat, values: Option<Values>, now: int)
    requires k > 0 && Distinct(Ids(p.writers))
    ensures var nm := Built(p, CountersAfter(k - 1, Ids(p.writers)), values, now);
            && nm.groupHeader.value.sequenceNumber == Some(k % 0x1_0000)
            && |nm.payload| == |p.writers| == |nm.writerIds|
            && forall i :: 0 <= i < |nm.payload| ==> nm.payload[i].sequenceNumber == Some(k % 0x1_0000)
  {
    hide MessageOf, CountersAfter, Counted, Numbers;
    var ids := Ids(p.writers);
    AlwaysInStep(k - 1, ids);
    var c := CountersAfter(k - 1, ids);
    DistinctNumbers(c.dsmSeq, ids, c.nmSeq);
    forall i | 0 <= i < |ids|
      ensures MessageOf(p.writers[i], Numbers(c.dsmSeq, ids)[i], values).sequenceNumber == Some(Next(c.nmSeq))
    {
      MessageCarriesNumber(p.writers[i], Numbers(c.dsmSeq, ids)[i], values);
    }
    NextAfter(k - 1);
  }

  lemma MessageCarriesNumber(w: Writer, number: int, values: Option<Values>)
    ensures MessageOf(w, number, values).sequenceNumber == Some(number)
  {
    hide BuiltFields;
  }

  lemma NextAfter(k: nat)
    ensures Next(k % 0x1_0000) == (k + 1) % 0x1_0000
  {
    var q, r := k / 0x1_0000, k % 0x1_0000;
    assert k == 0x1_0000 * q + r;
    if r + 1 < 0x1_0000 {
      assert k + 1 == 0x1_0000 * q + (r + 1);
    } else {
      assert k + 1 == 0x1_0000 * (q + 1);
    }
  }

  // ----- what is in a built message

  /** With values: a valid keyframe of Variants per writer, of the writer's version; without: empty KeepAlives. */
  lemma BuiltMessages(p: Config, c: Counters, values: Option<Values>, now: int, i: nat)
    requires i < |p.writers|
    ensures var nm := Built(p, c, values, now);
            && |nm.payload| == |nm.writerIds| == |p.writers|
            && nm.writerIds[i] == p.writers[i].id && nm.timestamp == Some(now) && nm.publisherId == p.publisherId
            && nm.chunk.None? && !nm.promotedFields && nm.dataSetClassId.None? && nm.picoseconds.None?
            && nm.groupHeader.Some? && nm.groupHeader.value.writerGroupId == Some(p.writerGroupId)
            && nm.groupHeader.value.groupVersion.None? && nm.groupHeader.value.networkMessageNumber.None?
            && var m := nm.payload[i];
            && m.valid && m.fieldEncoding == AsVariant && m.status.None? && m.timestamp.None? && m.picoseconds.None?
            && (values.Some? ==>
                  m.messageType == KeyFrame && m.major == p.writers[i].major && m.minor == p.writers[i].minor)
            && (values.None? ==> m.messageType == KeepAlive && m.fields == [] && m.major.None? && m.minor.None?)
  {
    hide BuiltFields, Numbers;
  }

  /** The i-th declaration of a field, if no later one has its name. */
  predicate LastDeclared(decls: seq<FieldDecl>, i: int) {
    0 <= i < |decls| && forall j :: i < j < |decls| ==> decls[j].name != decls[i].name
  }

  /** A declared field with a value is a Variant of the declared type with that very value. */
  lemma {:induction false} BuiltFieldIsTyped(decls: seq<FieldDecl>, values: Values, i: nat)
    requires LastDeclared(decls, i)
    ensures JsMap.Get(BuiltFields(decls, values), decls[i].name)
         == match JsMap.Get(values, decls[i].name)
            case None => None
            case Some(sample) => Some(VariantField(Variant(TypeName(decls[i].dataType), sample.content, None)))
    decreases |decls|
  {
    hide JsMap.Get, JsMap.Set;
    var init, last := decls[..|decls| - 1], decls[|decls| - 1];
    var name := decls[i].name;
    if JsMap.Get(values, last.name).Some? {
      var content := JsMap.Get(values, last.name).value.content;
      var f := VariantField(Variant(TypeName(last.dataType), content, None));
      JsMap.GetOfSet(BuiltFields(init, values), last.name, f, name);
    }
    if i < |decls| - 1 {
      assert init[i] == decls[i];
      BuiltFieldIsTyped(init, values, i);
    } else if JsMap.Get(values, name).None? {
      OnlyWithValue(init, values, name);
    }
  }

  lemma {:induction false} OnlyWithValue(decls: seq<FieldDecl>, values: Values, name: Text)
    requires JsMap.Get(values, name).None?
    ensures JsMap.Get(BuiltFields(decls, values), name).None?
  {
    if decls == [] {
    } else {
      var init, last := decls[..|decls| - 1], decls[|decls| - 1];
      OnlyWithValue(init, values, name);
      if JsMap.Get(values, last.name).Some? {
        var content := JsMap.Get(values, last.name).value.content;
        var f := VariantField(Variant(TypeName(last.dataType), content, None));
        JsMap.GetOfSet(BuiltFields(init, values), last.name, f, name);
      }
    }
  }
}
