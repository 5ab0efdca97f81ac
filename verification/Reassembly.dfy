/** What the reassembler keeps true over every sequence of pushes, and what a delivered buffer is made of. */
module Reassembly {
  import opened Wrappers
  import opened Wire
  import opened UadpModel
  import opened Reassembler
  import opened PublisherTexts
  import JsMap
  import Numerals

  /** A chunk message as it arrives, and the time of its arrival. */
  datatype Arrival = Arrival(partial: NetworkMessage, now: int)

  type ChunkArrival = a: Arrival | a.partial.chunk.Some?
    witness Arrival(NetworkMessage(None, None, None, [], None, None, false, Some(Chunk(0, 0, 0, [])), []), 0)

  function KeyOf(a: ChunkArrival): Bytes {
    Key(a.partial)
  }

  function ChunkOf(a: ChunkArrival): Chunk {
    a.partial.chunk.value
  }

  function Step(max: int, m: Entries, a: ChunkArrival): Pushed {
    AfterPush(max, m, a.partial, a.now)
  }

  /** The entries after a history of arrivals, from a given start. */
  function Run(max: int, start: Entries, h: seq<ChunkArrival>): Entries {
    if h == [] then start else Step(max, Run(max, start, h[..|h| - 1]), h[|h| - 1]).entries
  }

  predicate Accepted(max: int, a: ChunkArrival) {
    SizeAccepted(max, ChunkOf(a)) && RangeAccepted(ChunkOf(a))
  }

  // ----- bounds

  /** What holds between pushes: few entries, each still incomplete and not larger than allowed. */
  predicate Bounded(max: int, m: Entries) {
    |m| <= 1000 && AllIncomplete(max, m)
  }

  predicate AllIncomplete(max: int, m: Entries) {
    forall i :: 0 <= i < |m| ==> TotalLength(m[i].1.parts) < m[i].1.totalSize <= max
  }

  function Buffered(m: seq<(Bytes, Entry)>): nat {
    if m == [] then 0 else TotalLength(m[0].1.parts) + Buffered(m[1..])
  }

  lemma {:induction false} SweptIncomplete(max: int, m: Entries, now: int)
    requires AllIncomplete(max, m)
    ensures AllIncomplete(max, Swept(m, now)) && |Swept(m, now)| <= |m|
  {
    hide TotalLength;
    if m != [] {
      SweptIncomplete(max, m[1..], now);
    }
  }

  lemma SetIncomplete(max: int, m: Entries, key: Bytes, e: Entry)
    requires AllIncomplete(max, m) && TotalLength(e.parts) < e.totalSize <= max
    ensures AllIncomplete(max, JsMap.Set(m, key, e))
  {
    hide TotalLength;
  }

  lemma DeleteIncomplete(max: int, m: Entries, key: Bytes)
    requires AllIncomplete(max, m)
    ensures AllIncomplete(max, JsMap.Delete(m, key)) && |JsMap.Delete(m, key)| <= |m|
  {
    hide TotalLength;
  }

  lemma EntryForIncomplete(max: int, m: Entries, key: Bytes, c: Chunk, now: int)
    requires AllIncomplete(max, m) && SizeAccepted(max, c)
    ensures EntryFor(m, key, c, now).totalSize <= max
  {
    hide TotalLength;
    var i := JsMap.IndexOf(m, key);
  }

  lemma StepBounded(max: int, m: Entries, a: ChunkArrival)
    requires Bounded(max, m)
    ensures Bounded(max, Step(max, m, a).entries)
  {
    hide Sorted, TotalLength, Swept, JsMap.Set, JsMap.Delete, AllIncomplete, JsMap.UniqueKeys;
    var key, c := KeyOf(a), ChunkOf(a);
    if SizeAccepted(max, c) {
      var swept := Swept(m, a.now);
      SweptIncomplete(max, m, a.now);
      var kept := Evicted(swept, key);
      EvictedIncomplete(max, swept, key);
      EvictedRoom(swept, key);
      if RangeAccepted(c) {
        var e := WithPart(EntryFor(kept, key, c, a.now), c);
        EntryForIncomplete(max, kept, key, c, a.now);
        DeleteIncomplete(max, kept, key);
        if TotalLength(e.parts) < e.totalSize {
          SetIncomplete(max, kept, key, e);
          JsMap.GetOfSet(kept, key, e, key);
        }
      }
    }
  }

  lemma EvictedIncomplete(max: int, m: Entries, key: Bytes)
    requires AllIncomplete(max, m)
    ensures AllIncomplete(max, Evicted(m, key))
  {
    hide TotalLength;
  }

  lemma EvictedRoom(m: Entries, key: Bytes)
    requires |m| <= MAX_INFLIGHT_REASSEMBLIES
    ensures |Evicted(m, key)| <= MAX_INFLIGHT_REASSEMBLIES
    ensures !JsMap.Has(Evicted(m, key), key) ==> |Evicted(m, key)| < MAX_INFLIGHT_REASSEMBLIES
  {
  }

  /** Over every sequence of pushes: at most 1000 entries, none of them complete or over the size limit. */
  lemma {:induction false} AlwaysBounded(max: int, h: seq<ChunkArrival>)
    ensures Bounded(max, Run(max, [], h))
  {
    hide Bounded, Step;
    if h == [] {
      EmptyIsBounded(max);
    } else {
      AlwaysBounded(max, h[..|h| - 1]);
      StepBounded(max, Run(max, [], h[..|h| - 1]), h[|h| - 1]);
    }
  }

  lemma EmptyIsBounded(max: int)
    ensures Bounded(max, [])
  {
  }

  /** So the memory held is less than 1000 times the size limit, as long as there is any. */
  lemma {:induction false} BufferedBound(max: int, m: Entries)
    requires AllIncomplete(max, m)
    ensures Buffered(m) + |m| <= |m| * max
  {
    hide TotalLength;
    if m != [] {
      BufferedBound(max, m[1..]);
      assert |m| * max == |m[1..]| * max + max;
    }
  }

  lemma AlwaysLittleMemory(max: int, h: seq<ChunkArrival>)
    ensures Buffered(Run(max, [], h)) == 0 || Buffered(Run(max, [], h)) < 1000 * max
  {
    hide Run, AllIncomplete;
    AlwaysBounded(max, h);
    var m := Run(max, [], h);
    BufferedBound(max, m);
    if m != [] {
      EntriesNeedRoom(max, m);
      MoreOfTheSame(|m|, 1000, max);
    }
  }

  lemma EntriesNeedRoom(max: int, m: Entries)
    requires AllIncomplete(max, m) && m != []
    ensures max > 0
  {
    assert TotalLength(m[0].1.parts) < m[0].1.totalSize <= max;
  }

  lemma MoreOfTheSame(a: nat, b: nat, m: nat)
    requires a <= b
    ensures a * m <= b * m
  {
    assert (b - a) * m >= 0;
  }

  // ----- insertion order is expiry order

  /** With a clock that never goes back: entries expire in the order of the map, at most 30 s from now. */
  predicate InExpiryOrder(m: Entries, now: int) {
    && (forall i, j :: 0 <= i < j < |m| ==> m[i].1.expiresAt <= m[j].1.expiresAt)
    && (forall i :: 0 <= i < |m| ==> m[i].1.expiresAt <= now + 30_000)
  }

  predicate NothingExpired(m: Entries, now: int) {
    forall i :: 0 <= i < |m| ==> now <= m[i].1.expiresAt
  }

  lemma {:induction false} SweptInOrder(m: Entries, before: int, now: int)
    requires InExpiryOrder(m, before) && before <= now
    ensures InExpiryOrder(Swept(m, now), now) && NothingExpired(Swept(m, now), now)
  {
    if m != [] {
      SweptInOrder(m[1..], before, now);
      assert forall x :: x in m[1..] ==> m[0].1.expiresAt <= x.1.expiresAt;
    }
  }

  lemma StepInOrder(max: int, m: Entries, before: int, a: ChunkArrival)
    requires InExpiryOrder(m, before) && before <= a.now
    ensures InExpiryOrder(Step(max, m, a).entries, a.now)
    ensures SizeAccepted(max, ChunkOf(a)) ==> NothingExpired(Step(max, m, a).entries, a.now)
  {
    hide Swept, Evicted, Recorded, InExpiryOrder, NothingExpired;
    SweptInOrder(m, before, a.now);
    var swept := Swept(m, a.now);
    var kept := Evicted(swept, KeyOf(a));
    EvictedInOrder(swept, KeyOf(a), a.now);
    LaterInOrder(m, before, a.now);
    if Accepted(max, a) {
      RecordedInOrder(kept, KeyOf(a), ChunkOf(a), a.now);
    }
  }

  lemma EvictedInOrder(m: Entries, key: Bytes, now: int)
    requires InExpiryOrder(m, now) && NothingExpired(m, now)
    ensures InExpiryOrder(Evicted(m, key), now) && NothingExpired(Evicted(m, key), now)
  {
  }

  lemma LaterInOrder(m: Entries, before: int, now: int)
    requires InExpiryOrder(m, before) && before <= now
    ensures InExpiryOrder(m, now)
  {
  }

  lemma RecordedInOrder(m: Entries, key: Bytes, c: Chunk, now: int)
    requires InExpiryOrder(m, now) && NothingExpired(m, now)
    ensures InExpiryOrder(Recorded(m, key, c, now).entries, now)
    ensures NothingExpired(Recorded(m, key, c, now).entries, now)
  {
    hide Sorted, TotalLength, TileExactly, JsMap.Set, JsMap.Delete, InExpiryOrder, NothingExpired;
    var e := WithPart(EntryFor(m, key, c, now), c);
    DeletedInOrder(m, key, now);
    SetInOrder(m, key, e, now);
  }

  lemma DeletedInOrder(m: Entries, key: Bytes, now: int)
    requires InExpiryOrder(m, now) && NothingExpired(m, now)
    ensures InExpiryOrder(JsMap.Delete(m, key), now) && NothingExpired(JsMap.Delete(m, key), now)
  {
    hide JsMap.IndexOf, JsMap.UniqueKeys;
    JsMap.DeletedAt(m, key);
  }

  /** An entry that takes the place of one with the same deadline, or comes last with the latest one. */
  lemma SetInOrder(m: Entries, key: Bytes, e: Entry, now: int)
    requires InExpiryOrder(m, now) && NothingExpired(m, now)
    requires var i := JsMap.IndexOf(m, key);
             e.expiresAt == if i < |m| then m[i].1.expiresAt else now + REASSEMBLY_EXPIRY_MS
    ensures InExpiryOrder(JsMap.Set(m, key, e), now) && NothingExpired(JsMap.Set(m, key, e), now)
  {
  }

  predicate Monotone(h: seq<ChunkArrival>) {
    forall i, j :: 0 <= i < j < |h| ==> h[i].now <= h[j].now
  }

  lemma {:induction false} AlwaysInOrder(max: int, h: seq<ChunkArrival>)
    requires Monotone(h) && h != []
    ensures InExpiryOrder(Run(max, [], h), h[|h| - 1].now)
    ensures SizeAccepted(max, ChunkOf(h[|h| - 1])) ==> NothingExpired(Run(max, [], h), h[|h| - 1].now)
  {
    hide Step;
    var init, last := h[..|h| - 1], h[|h| - 1];
    if init == [] {
      StepInOrder(max, [], last.now, last);
    } else {
      AlwaysInOrder(max, init);
      StepInOrder(max, Run(max, [], init), init[|init| - 1].now, last);
    }
  }

  /** So the entry dropped on overflow is one that would have expired first. */
  lemma OverflowDropsEarliest(m: Entries, key: Bytes, now: int)
    requires InExpiryOrder(m, now) && Overflows(m, key)
    ensures forall i :: 0 <= i < |m| ==> m[0].1.expiresAt <= m[i].1.expiresAt
    ensures JsMap.Get(Evicted(m, key), m[0].0).None?
  {
    GetOfEvicted(m, key, m[0].0);
  }

  // ----- keys

  lemma DigitBytesShape(ds: seq<Numerals.Digit>)
    ensures BAR !in DigitBytes(ds) && 45 !in DigitBytes(ds)
  {
  }

  lemma DigitBytesInjective(n: nat, m: nat)
    ensures DigitBytes(Numerals.Digits(n)) == DigitBytes(Numerals.Digits(m)) <==> n == m
  {
    hide Numerals.Digits;
    var ds, es := Numerals.Digits(n), Numerals.Digits(m);
    Numerals.ValueOfDigits(n);
    Numerals.ValueOfDigits(m);
    if DigitBytes(ds) == DigitBytes(es) {
      forall i | 0 <= i < |ds|
        ensures ds[i] == es[i]
      {
        assert DigitBytes(ds)[i] == DigitBytes(es)[i];
      }
      assert ds == es;
    }
  }

  lemma DecimalShape(n: int)
    ensures |Decimal(n)| > 0 && BAR !in Decimal(n)
    ensures Decimal(n)[0] == 45 || 48 <= Decimal(n)[0] <= 57
  {
    hide Numerals.Digits;
    DigitBytesShape(Numerals.Digits(if n < 0 then -n else n));
  }

  lemma DecimalInjective(n: int, m: int)
    ensures Decimal(n) == Decimal(m) <==> n == m
  {
    hide Numerals.Digits, DigitBytes;
    var a, b := if n < 0 then -n else n, if m < 0 then -m else m;
    var ds, es := DigitBytes(Numerals.Digits(a)), DigitBytes(Numerals.Digits(b));
    DigitBytesShape(Numerals.Digits(a));
    DigitBytesShape(Numerals.Digits(b));
    DigitBytesInjective(a, b);
    if Decimal(n) == Decimal(m) {
      assert n < 0 <==> 45 in Decimal(n);
      assert m < 0 <==> 45 in Decimal(m);
      if n < 0 {
        assert Decimal(n)[1..] == ds && Decimal(m)[1..] == es;
      }
    }
  }

  lemma UndefinedOrInjective(n: Option<int>, m: Option<int>)
    ensures UndefinedOr(n) == UndefinedOr(m) <==> n == m
    ensures BAR !in UndefinedOr(n)
  {
    hide Decimal;
    assert Ascii("undefined") == [117, 110, 100, 101, 102, 105, 110, 101, 100];
    if n.Some? {
      DecimalShape(n.value);
    }
    if m.Some? {
      DecimalShape(m.value);
    }
    if n.Some? && m.Some? {
      DecimalInjective(n.value, m.value);
    }
  }

  /** What follows the last bar of a text. */
  function AfterLastBar(s: Bytes): Bytes {
    if s == [] || s[|s| - 1] == BAR then [] else AfterLastBar(s[..|s| - 1]) + [s[|s| - 1]]
  }

  lemma {:induction false} AfterLastBarOf(a: Bytes, b: Bytes)
    requires BAR !in b
    ensures AfterLastBar(a + [BAR] + b) == b
  {
    var s := a + [BAR] + b;
    if b != [] {
      var init := b[..|b| - 1];
      assert s[..|s| - 1] == a + [BAR] + init;
      AfterLastBarOf(a, init);
      assert b == init + [b[|b| - 1]];
    }
  }

  lemma SplitAtLastBar(a: Bytes, b: Bytes, c: Bytes, d: Bytes)
    requires BAR !in b && BAR !in d
    ensures a + [BAR] + b == c + [BAR] + d <==> a == c && b == d
  {
    var s, t := a + [BAR] + b, c + [BAR] + d;
    AfterLastBarOf(a, b);
    AfterLastBarOf(c, d);
    if s == t {
      assert a == s[..|s| - |b| - 1] && c == t[..|t| - |d| - 1];
    }
  }

  /**
   Two chunks share an entry exactly when publisher, writer group and sequence number agree; two publishers
   are told apart unless their ids are the same number, or one is the string that spells the other.
   */
  lemma KeysSeparate(p: NetworkMessage, q: NetworkMessage)
    requires p.chunk.Some? && q.chunk.Some?
    ensures Key(p) == Key(q) <==>
              && SameName(p.publisherId, q.publisherId)
              && GroupOf(p) == GroupOf(q)
              && p.chunk.value.messageSequenceNumber == q.chunk.value.messageSequenceNumber
  {
    SameTextIff(p.publisherId, q.publisherId);
    hide Decimal, UndefinedOr, PublisherText, SameName;
    var a, b := PublisherText(p.publisherId), PublisherText(q.publisherId);
    var g, h := UndefinedOr(GroupOf(p)), UndefinedOr(GroupOf(q));
    var n, m := p.chunk.value.messageSequenceNumber, q.chunk.value.messageSequenceNumber;
    UndefinedOrInjective(GroupOf(p), GroupOf(q));
    UndefinedOrInjective(GroupOf(q), GroupOf(p));
    DecimalInjective(n, m);
    DecimalShape(n);
    DecimalShape(m);
    SplitAtLastBar(a + [BAR] + g, Decimal(n), b + [BAR] + h, Decimal(m));
    SplitAtLastBar(a, g, b, h);
  }

  /** A push leaves every other entry alone, or removes it whole because it expired or was the oldest. */
  lemma PushIsLocal(max: int, m: Entries, a: ChunkArrival, k: Bytes)
    requires k != KeyOf(a)
    ensures JsMap.Get(Step(max, m, a).entries, k) == if Drops(max, m, a, k) then None else JsMap.Get(m, k)
  {
    hide Key, Sorted, TotalLength, Swept, JsMap.Get;
    var key, c := KeyOf(a), ChunkOf(a);
    GetOfSwept(m, a.now, k);
    var swept := Swept(m, a.now);
    GetOfEvicted(swept, key, k);
    var kept := Evicted(swept, key);
    JsMap.GetOfSet(kept, key, WithPart(EntryFor(kept, key, c, a.now), c), k);
    JsMap.GetOfDelete(kept, key, k);
  }

  /** The push sweeps or evicts the entry of `k` before it looks at its own. */
  predicate Drops(max: int, m: Entries, a: ChunkArrival, k: Bytes) {
    && SizeAccepted(max, ChunkOf(a))
    && (|| (JsMap.Get(m, k).Some? && JsMap.Get(m, k).value.expiresAt < a.now)
        || (Overflows(Swept(m, a.now), KeyOf(a)) && Swept(m, a.now)[0].0 == k))
  }

  // ----- what a delivered buffer is made of

  /** The parts collected from the accepted arrivals of one key, in the order they came. */
  function PartsOf(max: int, h: seq<ChunkArrival>, k: Bytes): Parts {
    if h == [] then []
    else
      var before, last := PartsOf(max, h[..|h| - 1], k), h[|h| - 1];
      if Accepted(max, last) && KeyOf(last) == k
      then JsMap.Set(before, ChunkOf(last).chunkOffset, ChunkOf(last).chunkData)
      else before
  }

  /** The data of the latest accepted arrival of a key at an offset. */
  function LatestAt(max: int, h: seq<ChunkArrival>, k: Bytes, offset: int): Option<Bytes> {
    if h == [] then None
    else
      var last := h[|h| - 1];
      if Accepted(max, last) && KeyOf(last) == k && ChunkOf(last).chunkOffset == offset
      then Some(ChunkOf(last).chunkData)
      else LatestAt(max, h[..|h| - 1], k, offset)
  }

  lemma {:induction false} PartsAreLatest(max: int, h: seq<ChunkArrival>, k: Bytes, offset: int)
    ensures JsMap.Get(PartsOf(max, h, k), offset) == LatestAt(max, h, k, offset)
  {
    if h != [] {
      hide JsMap.Get, JsMap.Set, Accepted, KeyOf;
      var init, last := h[..|h| - 1], h[|h| - 1];
      PartsAreLatest(max, init, k, offset);
      JsMap.GetOfSet(PartsOf(max, init, k), ChunkOf(last).chunkOffset, ChunkOf(last).chunkData, offset);
    } else {
      assert JsMap.Get(PartsOf(max, h, k), offset) == None;
    }
  }

  /** An entry of this key is there and has not expired. */
  predicate Live(m: Entries, k: Bytes, now: int) {
    JsMap.Get(m, k).Some? && JsMap.Get(m, k).value.expiresAt >= now
  }

  /** The i-th arrival is accepted and finds no live entry of its key, so it opens one. */
  predicate Opens(max: int, h: seq<ChunkArrival>, k: Bytes, i: int) {
    && 0 <= i < |h| && KeyOf(h[i]) == k && Accepted(max, h[i])
    && !Live(Run(max, [], h[..i]), k, h[i].now)
  }

  /** The last arrival to open an entry of this key. */
  predicate OpenedLast(max: int, h: seq<ChunkArrival>, k: Bytes, first: int) {
    Opens(max, h, k, first) && forall i :: first < i < |h| ==> !Opens(max, h, k, i)
  }

  /** The entry was opened by arrival `first` and has recorded every accepted arrival of its key since. */
  predicate OpenedAt(max: int, h: seq<ChunkArrival>, k: Bytes, e: Entry, first: int) {
    && OpenedLast(max, h, k, first)
    && e == Entry(ChunkOf(h[first]).totalSize, PartsOf(max, h[first..], k), h[first].now + 30_000)
  }

  lemma OpensBefore(max: int, h: seq<ChunkArrival>, a: ChunkArrival, k: Bytes, i: nat)
    requires i < |h|
    ensures Opens(max, h + [a], k, i) <==> Opens(max, h, k, i)
  {
    hide Accepted, KeyOf, Run, Live;
    assert (h + [a])[..i] == h[..i] && (h + [a])[i] == h[i];
  }

  lemma OpensLast(max: int, h: seq<ChunkArrival>, a: ChunkArrival, k: Bytes)
    ensures Opens(max, h + [a], k, |h|) <==> KeyOf(a) == k && Accepted(max, a) && !Live(Run(max, [], h), k, a.now)
  {
    hide Accepted, KeyOf, Run, Live;
    assert (h + [a])[..|h|] == h;
  }

  /** An arrival that does not open an entry leaves the last opening what it was. */
  lemma OpeningIsStillLast(max: int, h: seq<ChunkArrival>, a: ChunkArrival, k: Bytes, first: int)
    requires OpenedLast(max, h, k, first) && (KeyOf(a) == k && Accepted(max, a) ==> Live(Run(max, [], h), k, a.now))
    ensures OpenedLast(max, h + [a], k, first)
  {
    OpensLast(max, h, a, k);
    hide Opens, Accepted, KeyOf, Run, Live;
    forall i: nat | i < |h|
      ensures Opens(max, h + [a], k, i) <==> Opens(max, h, k, i)
    {
      OpensBefore(max, h, a, k, i);
    }
    FirstInRange(max, h, k, first);
  }

  lemma FirstInRange(max: int, h: seq<ChunkArrival>, k: Bytes, first: int)
    requires Opens(max, h, k, first)
    ensures 0 <= first < |h| && KeyOf(h[first]) == k && Accepted(max, h[first])
  {
  }

  lemma PartsSince(max: int, h: seq<ChunkArrival>, a: ChunkArrival, k: Bytes, first: nat)
    requires first < |h|
    ensures PartsOf(max, (h + [a])[first..], k)
         == if Accepted(max, a) && KeyOf(a) == k
            then JsMap.Set(PartsOf(max, h[first..], k), ChunkOf(a).chunkOffset, ChunkOf(a).chunkData)
            else PartsOf(max, h[first..], k)
  {
    hide Accepted, KeyOf, JsMap.Set;
    var since := (h + [a])[first..];
    assert since == h[first..] + [a];
    assert since[..|since| - 1] == h[first..];
  }

  lemma OpenedStays(max: int, h: seq<ChunkArrival>, a: ChunkArrival, k: Bytes, e: Entry, first: int)
    requires OpenedAt(max, h, k, e, first) && (KeyOf(a) == k && Accepted(max, a) ==> Live(Run(max, [], h), k, a.now))
    ensures OpenedAt(max, h + [a], k,
                     if Accepted(max, a) && KeyOf(a) == k then WithPart(e, ChunkOf(a)) else e, first)
  {
    FirstInRange(max, h, k, first);
    OpeningIsStillLast(max, h, a, k, first);
    PartsSince(max, h, a, k, first);
    hide OpenedLast, Accepted, KeyOf, Run, Live, PartsOf, JsMap.Set;
    assert (h + [a])[first] == h[first];
  }

  lemma OpenedNow(max: int, h: seq<ChunkArrival>, a: ChunkArrival)
    requires Accepted(max, a) && !Live(Run(max, [], h), KeyOf(a), a.now)
    ensures var c := ChunkOf(a);
            OpenedAt(max, h + [a], KeyOf(a), WithPart(Entry(c.totalSize, [], a.now + REASSEMBLY_EXPIRY_MS), c), |h|)
  {
    OpensLast(max, h, a, KeyOf(a));
    hide Opens, Accepted, KeyOf, Run, Live;
    assert (h + [a])[|h|..] == [a] && [a][..0] == [];
    assert PartsOf(max, [], KeyOf(a)) == [];
  }

  /** What an accepted arrival finds, after the sweep and the eviction, under its own key. */
  function Found(m: Entries, a: ChunkArrival): Entry {
    EntryFor(Evicted(Swept(m, a.now), KeyOf(a)), KeyOf(a), ChunkOf(a), a.now)
  }

  lemma FoundEntry(m: Entries, a: ChunkArrival)
    ensures Found(m, a)
         == match JsMap.Get(m, KeyOf(a))
            case Some(e) =>
              (if e.expiresAt < a.now then Entry(ChunkOf(a).totalSize, [], a.now + REASSEMBLY_EXPIRY_MS) else e)
            case None => Entry(ChunkOf(a).totalSize, [], a.now + REASSEMBLY_EXPIRY_MS)
  {
    hide Swept, JsMap.Get, KeyOf;
    var key := KeyOf(a);
    GetOfSwept(m, a.now, key);
    GetOfEvicted(Swept(m, a.now), key, key);
    OwnEntryNotEvicted(Swept(m, a.now), key);
  }

  lemma OwnEntryNotEvicted(m: Entries, key: Bytes)
    ensures Overflows(m, key) ==> key != m[0].0
  {
    if Overflows(m, key) {
      JsMap.GetAt(m, 0);
    }
  }

  lemma StepFound(max: int, m: Entries, a: ChunkArrival)
    requires Accepted(max, a)
    ensures var e := WithPart(Found(m, a), ChunkOf(a));
            && JsMap.Get(Step(max, m, a).entries, KeyOf(a))
               == (if TotalLength(e.parts) < e.totalSize then Some(e) else None)
            && Step(max, m, a).complete
               == (if TotalLength(e.parts) >= e.totalSize && TileExactly(Sorted(e.parts), 0, e.totalSize)
                   then Some(Joined(Sorted(e.parts))) else None)
  {
    hide Swept, JsMap.Get, Key, Sorted, TotalLength, JsMap.Set, JsMap.Delete;
    var key, c := KeyOf(a), ChunkOf(a);
    var kept := Evicted(Swept(m, a.now), key);
    var e := WithPart(EntryFor(kept, key, c, a.now), c);
    JsMap.GetOfSet(kept, key, e, key);
    JsMap.GetOfDelete(kept, key, key);
  }

  lemma StepRejected(max: int, m: Entries, a: ChunkArrival, k: Bytes)
    requires !Accepted(max, a)
    ensures Step(max, m, a).complete.None?
    ensures JsMap.Get(Step(max, m, a).entries, k) == None || JsMap.Get(Step(max, m, a).entries, k) == JsMap.Get(m, k)
  {
    hide Swept, JsMap.Get, Key;
    GetOfSwept(m, a.now, k);
    GetOfEvicted(Swept(m, a.now), KeyOf(a), k);
  }

  /** Every entry of a run has an opening arrival. */
  ghost predicate HasOpening(max: int, h: seq<ChunkArrival>, k: Bytes, e: Entry) {
    exists first :: OpenedAt(max, h, k, e, first)
  }

  lemma {:induction false} EveryEntryWasOpened(max: int, h: seq<ChunkArrival>, k: Bytes)
    requires JsMap.Get(Run(max, [], h), k).Some?
    ensures HasOpening(max, h, k, JsMap.Get(Run(max, [], h), k).value)
    decreases |h|, 0
  {
    hide Step, JsMap.Get, HasOpening, Accepted, KeyOf, TotalLength, Found, Key, WithPart, Sorted;
    NothingAtFirst(max, k);
    if h != [] {
      var init, last := h[..|h| - 1], h[|h| - 1];
      assert h == init + [last];
      if Accepted(max, last) && KeyOf(last) == k {
        StepFound(max, Run(max, [], init), last);
        FoundWasOpened(max, init, last);
      } else {
        OtherArrival(max, Run(max, [], init), last, k);
        EveryEntryWasOpened(max, init, k);
        OpeningStays(max, init, last, k, JsMap.Get(Run(max, [], init), k).value);
      }
    }
  }

  lemma NothingAtFirst(max: int, k: Bytes)
    ensures JsMap.Get(Run(max, [], []), k) == None
  {
    hide Step;
  }

  lemma OtherArrival(max: int, m: Entries, a: ChunkArrival, k: Bytes)
    requires !(Accepted(max, a) && KeyOf(a) == k)
    ensures JsMap.Get(Step(max, m, a).entries, k).Some?
        ==> JsMap.Get(Step(max, m, a).entries, k) == JsMap.Get(m, k)
  {
    hide Step, Drops, JsMap.Get, Accepted, KeyOf;
    if Accepted(max, a) {
      PushIsLocal(max, m, a, k);
    } else {
      StepRejected(max, m, a, k);
    }
  }

  lemma OpeningStays(max: int, h: seq<ChunkArrival>, a: ChunkArrival, k: Bytes, e: Entry)
    requires HasOpening(max, h, k, e) && !(Accepted(max, a) && KeyOf(a) == k)
    ensures HasOpening(max, h + [a], k, e)
  {
    hide OpenedAt, Accepted, KeyOf, Live, Run;
    var first :| OpenedAt(max, h, k, e, first);
    OpenedStays(max, h, a, k, e, first);
  }

  /** The entry an accepted arrival completes or extends. */
  lemma {:induction false} FoundWasOpened(max: int, h: seq<ChunkArrival>, a: ChunkArrival)
    requires Accepted(max, a)
    ensures HasOpening(max, h + [a], KeyOf(a), WithPart(Found(Run(max, [], h), a), ChunkOf(a)))
    decreases |h|, 1
  {
    hide Step, JsMap.Get, OpenedAt, Accepted, KeyOf, Found, Key, Run;
    var m, k := Run(max, [], h), KeyOf(a);
    FoundEntry(m, a);
    if JsMap.Get(m, k).Some? && JsMap.Get(m, k).value.expiresAt >= a.now {
      EveryEntryWasOpened(max, h, k);
      var first :| OpenedAt(max, h, k, JsMap.Get(m, k).value, first);
      OpenedStays(max, h, a, k, JsMap.Get(m, k).value, first);
    } else {
      OpenedNow(max, h, a);
    }
  }

  // ----- sorting and tiling

  lemma {:induction false} InsertedPermutes(p: (int, Bytes), s: seq<(int, Bytes)>)
    ensures multiset(Inserted(p, s)) == multiset([p] + s)
  {
    if s != [] && p.0 > s[0].0 {
      InsertedPermutes(p, s[1..]);
      assert s == [s[0]] + s[1..];
    }
  }

  lemma {:induction false} SortedPermutes(parts: seq<(int, Bytes)>)
    ensures multiset(Sorted(parts)) == multiset(parts)
  {
    if parts != [] {
      SortedPermutes(parts[1..]);
      InsertedPermutes(parts[0], Sorted(parts[1..]));
      assert parts == [parts[0]] + parts[1..];
    }
  }

  /** Byte `p` of a message lies in this part. */
  predicate Covers(part: (int, Bytes), p: int) {
    part.0 <= p < part.0 + |part.1|
  }

  ghost predicate SomeCovers(s: seq<(int, Bytes)>, p: int) {
    exists x :: x in s && Covers(x, p)
  }

  /** Tiling parts: every position in exactly one of them, and joining them puts each byte in its place. */
  lemma {:induction false} TilesCover(s: seq<(int, Bytes)>, from: int, end: int)
    requires TileExactly(s, from, end)
    ensures from + |Joined(s)| == end && TotalLength(s) == |Joined(s)|
    ensures forall x :: x in s ==> from <= x.0 && x.0 + |x.1| <= end
    ensures forall x, p :: x in s && Covers(x, p) ==> Joined(s)[p - from] == x.1[p - x.0]
    ensures forall p :: from <= p < end ==> SomeCovers(s, p)
    ensures forall x, y, p :: x in s && y in s && Covers(x, p) && Covers(y, p) ==> x == y
  {
    if s != [] {
      var next := from + |s[0].1|;
      TilesCover(s[1..], next, end);
      assert s == [s[0]] + s[1..];
      forall p | from <= p < end
        ensures SomeCovers(s, p)
      {
        if p < next {
          assert s[0] in s && Covers(s[0], p);
        } else {
          assert SomeCovers(s[1..], p);
          var x :| x in s[1..] && Covers(x, p);
          assert x in s;
        }
      }
    }
  }

  lemma {:induction false} TotalLengthOfInserted(p: (int, Bytes), s: seq<(int, Bytes)>)
    ensures TotalLength(Inserted(p, s)) == |p.1| + TotalLength(s)
  {
    if s == [] || p.0 <= s[0].0 {
      assert ([p] + s)[1..] == s;
    } else {
      TotalLengthOfInserted(p, s[1..]);
      assert ([s[0]] + Inserted(p, s[1..]))[1..] == Inserted(p, s[1..]);
    }
  }

  lemma {:induction false} TotalLengthOfSorted(parts: seq<(int, Bytes)>)
    ensures TotalLength(Sorted(parts)) == TotalLength(parts)
  {
    if parts != [] {
      TotalLengthOfSorted(parts[1..]);
      TotalLengthOfInserted(parts[0], Sorted(parts[1..]));
    }
  }

  /** A message is delivered exactly when the parts recorded so far tile it: no gap, no overlap, no byte more. */
  lemma DeliveredIffTiled(max: int, m: Entries, a: ChunkArrival)
    requires Accepted(max, a)
    ensures var e := WithPart(Found(m, a), ChunkOf(a));
            Step(max, m, a).complete.Some? <==> TileExactly(Sorted(e.parts), 0, e.totalSize)
  {
    hide Step, Found, Sorted;
    StepFound(max, m, a);
    var e := WithPart(Found(m, a), ChunkOf(a));
    TotalLengthOfSorted(e.parts);
    if TileExactly(Sorted(e.parts), 0, e.totalSize) {
      TilesCover(Sorted(e.parts), 0, e.totalSize);
    }
  }

  /** What a delivered buffer is, in terms of the arrivals since its entry was opened. */
  ghost predicate MadeOf(max: int, h: seq<ChunkArrival>, k: Bytes, first: int, b: Bytes) {
    && OpenedLast(max, h, k, first)
    && |b| == ChunkOf(h[first]).totalSize
    && (forall p :: 0 <= p < |b| ==> HasSource(max, h[first..], k, b, p))
    && (forall p, o1, o2 :: Reaches(max, h[first..], k, o1, p) && Reaches(max, h[first..], k, o2, p) ==> o1 == o2)
  }

  ghost predicate HasSource(max: int, h: seq<ChunkArrival>, k: Bytes, b: Bytes, p: int)
    requires 0 <= p < |b|
  {
    exists offset :: Supplies(max, h, k, offset, b, p)
  }

  /** The latest accepted arrival at this offset has position `p`. */
  predicate Reaches(max: int, h: seq<ChunkArrival>, k: Bytes, offset: int, p: int) {
    var d := LatestAt(max, h, k, offset);
    d.Some? && offset <= p < offset + |d.value|
  }

  predicate Supplies(max: int, h: seq<ChunkArrival>, k: Bytes, offset: int, b: Bytes, p: int)
    requires 0 <= p < |b|
  {
    Reaches(max, h, k, offset, p) && b[p] == LatestAt(max, h, k, offset).value[p - offset]
  }

  /**
   Soundness for arbitrary streams of chunks. A delivered buffer has the length declared by the chunk that
   opened its entry, the last to find no live entry of the key, whatever later chunks declare; each of its
   bytes is the byte that the latest accepted chunk at some offset has for that position, and no other offset
   reaches that position.
   */
  lemma DeliveredBufferIsSound(max: int, h: seq<ChunkArrival>, a: ChunkArrival)
    requires Step(max, Run(max, [], h), a).complete.Some?
    ensures exists first ::
              MadeOf(max, h + [a], KeyOf(a), first, Step(max, Run(max, [], h), a).complete.value)
  {
    hide Run, Step, Found, Accepted, KeyOf, Sorted, TotalLength, TileExactly, MadeOf, OpenedAt;
    var m, k := Run(max, [], h), KeyOf(a);
    if !Accepted(max, a) {
      StepRejected(max, m, a, k);
    }
    StepFound(max, m, a);
    FoundWasOpened(max, h, a);
    var e := WithPart(Found(m, a), ChunkOf(a));
    var first :| OpenedAt(max, h + [a], k, e, first);
    OpenedBufferIsSound(max, h + [a], k, e, first);
  }

  /** There is only one such arrival. */
  lemma OneOpening(max: int, h: seq<ChunkArrival>, k: Bytes, i: int, j: int)
    requires OpenedLast(max, h, k, i) && OpenedLast(max, h, k, j)
    ensures i == j
  {
    hide Accepted, KeyOf, Run, Live;
  }

  lemma OpenedBufferIsSound(max: int, h: seq<ChunkArrival>, k: Bytes, e: Entry, first: int)
    requires OpenedAt(max, h, k, e, first) && TileExactly(Sorted(e.parts), 0, e.totalSize)
    ensures MadeOf(max, h, k, first, Joined(Sorted(e.parts)))
  {
    FirstInRange(max, h, k, first);
    hide OpenedLast, Accepted, KeyOf, Sorted, TileExactly, Reaches, HasSource, PartsOf;
    BytesHaveSources(max, h[first..], k, e.totalSize);
    SourcesAreUnique(max, h[first..], k, e.totalSize);
  }

  lemma BytesHaveSources(max: int, h: seq<ChunkArrival>, k: Bytes, total: int)
    requires TileExactly(Sorted(PartsOf(max, h, k)), 0, total)
    ensures var b := Joined(Sorted(PartsOf(max, h, k)));
            |b| == total && forall p :: 0 <= p < |b| ==> HasSource(max, h, k, b, p)
  {
    hide Accepted, KeyOf, Sorted, TileExactly, LatestAt, PartsOf;
    var parts := PartsOf(max, h, k);
    var s := Sorted(parts);
    var b := Joined(s);
    TilesCover(s, 0, total);
    SortedPermutes(parts);
    forall p | 0 <= p < |b|
      ensures HasSource(max, h, k, b, p)
    {
      assert SomeCovers(s, p);
      var x :| x in s && Covers(x, p);
      PartIsLatest(max, h, k, x);
      assert Supplies(max, h, k, x.0, b, p);
    }
  }

  lemma SourcesAreUnique(max: int, h: seq<ChunkArrival>, k: Bytes, total: int)
    requires TileExactly(Sorted(PartsOf(max, h, k)), 0, total)
    ensures forall p, o1, o2 :: Reaches(max, h, k, o1, p) && Reaches(max, h, k, o2, p) ==> o1 == o2
  {
    hide Accepted, KeyOf, Sorted, TileExactly, LatestAt, PartsOf;
    var parts := PartsOf(max, h, k);
    TilesCover(Sorted(parts), 0, total);
    SortedPermutes(parts);
    forall p, o1, o2 | Reaches(max, h, k, o1, p) && Reaches(max, h, k, o2, p)
      ensures o1 == o2
    {
      LatestIsPart(max, h, k, o1);
      LatestIsPart(max, h, k, o2);
      assert Covers((o1, LatestAt(max, h, k, o1).value), p);
      assert Covers((o2, LatestAt(max, h, k, o2).value), p);
    }
  }

  lemma PartIsLatest(max: int, h: seq<ChunkArrival>, k: Bytes, x: (int, Bytes))
    requires x in multiset(PartsOf(max, h, k))
    ensures LatestAt(max, h, k, x.0) == Some(x.1)
  {
    hide PartsOf, LatestAt;
    var parts := PartsOf(max, h, k);
    assert x in parts;
    var i :| 0 <= i < |parts| && parts[i] == x;
    JsMap.GetAt(parts, i);
    PartsAreLatest(max, h, k, x.0);
  }

  lemma LatestIsPart(max: int, h: seq<ChunkArrival>, k: Bytes, offset: int)
    requires LatestAt(max, h, k, offset).Some?
    ensures (offset, LatestAt(max, h, k, offset).value) in multiset(PartsOf(max, h, k))
  {
    hide PartsOf, LatestAt;
    PartsAreLatest(max, h, k, offset);
    var parts := PartsOf(max, h, k);
    assert parts[JsMap.IndexOf(parts, offset)] in parts;
  }
}
