/**
 Chunk transport is lossless: chunks of one message may arrive in any order, repeated, and mixed with
 other traffic; the last one missing delivers the unchunked encoding, byte for byte.
 */
module ChunkTransport {
  import opened Wrappers
  import opened Collections
  import opened Wire
  import opened UadpModel
  import opened UadpSpec
  import opened UadpChunks
  import opened Reassembler
  import opened Reassembly
  import UadpRoundTrip
  import JsMap

  function PairOf(c: Chunk): (int, Bytes) {
    (c.chunkOffset, c.chunkData)
  }

  function PairsOf(cs: seq<Chunk>): seq<(int, Bytes)> {
    seq(|cs|, i requires 0 <= i < |cs| => PairOf(cs[i]))
  }

  /** The chunks of one message: consecutive non-empty slices of its bytes. */
  datatype Message = Message(cs: seq<Chunk>, sequence: int, payload: Bytes, maxData: int) {
    predicate Valid() {
      cs != [] && Tiles(cs, sequence, payload, 0, maxData)
    }
  }

  // ----- the chunks received so far

  predicate IsChunk(t: Message, i: int, a: ChunkArrival, k: Bytes) {
    0 <= i < |t.cs| && KeyOf(a) == k && ChunkOf(a) == t.cs[i]
  }

  function Seen(t: Message, h: seq<ChunkArrival>, k: Bytes): set<int> {
    if h == [] then {}
    else
      var last := h[|h| - 1];
      Seen(t, h[..|h| - 1], k) + set i | 0 <= i < |t.cs| && IsChunk(t, i, last, k)
  }

  function All(t: Message): set<int> {
    set i | 0 <= i < |t.cs| && IsIndex(t, i)
  }

  predicate IsIndex(t: Message, i: int) {
    0 <= i < |t.cs|
  }

  function SeenLength(t: Message, n: nat, seen: set<int>): nat
    requires n <= |t.cs|
  {
    if n == 0 then 0
    else SeenLength(t, n - 1, seen) + if n - 1 in seen then |t.cs[n - 1].chunkData| else 0
  }

  lemma {:induction false} OffsetsIncrease(t: Message, i: nat, j: nat)
    requires t.Valid() && i < j < |t.cs|
    ensures t.cs[i].chunkOffset + |t.cs[i].chunkData| <= t.cs[j].chunkOffset
    decreases j
  {
    hide Tiles;
    TilesAt(t.cs, t.sequence, t.payload, 0, t.maxData, j - 1);
    if i < j - 1 {
      OffsetsIncrease(t, i, j - 1);
    }
  }

  lemma OffsetsDistinct(t: Message, i: nat, j: nat)
    requires t.Valid() && i < |t.cs| && j < |t.cs| && t.cs[i].chunkOffset == t.cs[j].chunkOffset
    ensures i == j
  {
    hide Tiles;
    TilesAt(t.cs, t.sequence, t.payload, 0, t.maxData, i);
    TilesAt(t.cs, t.sequence, t.payload, 0, t.maxData, j);
    if i < j {
      OffsetsIncrease(t, i, j);
    } else if j < i {
      OffsetsIncrease(t, j, i);
    }
  }

  lemma {:induction false} SeenLengthOfMore(t: Message, n: nat, seen: set<int>, i: int)
    requires n <= |t.cs| && 0 <= i < |t.cs| && i !in seen
    ensures SeenLength(t, n, seen + {i}) == SeenLength(t, n, seen) + if i < n then |t.cs[i].chunkData| else 0
  {
    if n > 0 {
      SeenLengthOfMore(t, n - 1, seen, i);
    }
  }

  lemma {:induction false} SeenLengthUpTo(t: Message, n: nat, seen: set<int>)
    requires t.Valid() && n <= |t.cs|
    ensures var end := if n == |t.cs| then |t.payload| else t.cs[n].chunkOffset;
            && SeenLength(t, n, seen) <= end
            && (SeenLength(t, n, seen) == end <==> forall i :: 0 <= i < n ==> i in seen)
  {
    hide Tiles;
    if n == 0 {
      TilesAt(t.cs, t.sequence, t.payload, 0, t.maxData, 0);
    } else {
      SeenLengthUpTo(t, n - 1, seen);
      TilesAt(t.cs, t.sequence, t.payload, 0, t.maxData, n - 1);
    }
  }

  /** The lengths received add up to the whole message exactly when every chunk has been received. */
  lemma SeenLengthComplete(t: Message, seen: set<int>)
    requires t.Valid() && seen <= All(t)
    ensures SeenLength(t, |t.cs|, seen) <= |t.payload|
    ensures SeenLength(t, |t.cs|, seen) == |t.payload| <==> seen == All(t)
  {
    hide Tiles;
    SeenLengthUpTo(t, |t.cs|, seen);
  }

  // ----- the entry of the message

  /** These parts are the chunks with the given indices. */
  predicate Holds(parts: Parts, t: Message, seen: set<int>) {
    && (forall i :: i in seen ==> 0 <= i < |t.cs| && JsMap.Get(parts, t.cs[i].chunkOffset) == Some(t.cs[i].chunkData))
    && (forall j :: 0 <= j < |parts| ==> IsPart(parts[j], t, seen))
    && TotalLength(parts) == SeenLength(t, |t.cs|, seen)
  }

  predicate IsPart(x: (int, Bytes), t: Message, seen: set<int>) {
    exists i :: i in seen && 0 <= i < |t.cs| && x == PairOf(t.cs[i])
  }

  predicate Pending(e: Option<Entry>, t: Message, seen: set<int>) {
    if seen == {} then e.None?
    else e.Some? && e.value.totalSize == |t.payload| && Holds(e.value.parts, t, seen)
  }

  lemma NothingHeld(t: Message)
    ensures Holds([], t, {}) && SeenLength(t, |t.cs|, {}) == 0
  {
    NothingSeen(t, |t.cs|);
  }

  lemma {:induction false} NothingSeen(t: Message, n: nat)
    requires n <= |t.cs|
    ensures SeenLength(t, n, {}) == 0
  {
    if n > 0 {
      NothingSeen(t, n - 1);
    }
  }

  lemma {:induction false} TotalLengthOfSnoc(parts: seq<(int, Bytes)>, x: (int, Bytes))
    ensures TotalLength(parts + [x]) == TotalLength(parts) + |x.1|
  {
    if parts == [] {
      assert parts + [x] == [x];
    } else {
      assert (parts + [x])[1..] == parts[1..] + [x];
      TotalLengthOfSnoc(parts[1..], x);
    }
  }

  /** Recording a chunk: a repeat changes nothing, a new one is added. */
  lemma HoldsMore(parts: Parts, t: Message, seen: set<int>, i: nat)
    requires t.Valid() && i < |t.cs| && Holds(parts, t, seen)
    ensures Holds(JsMap.Set(parts, t.cs[i].chunkOffset, t.cs[i].chunkData), t, seen + {i})
  {
    hide Tiles, TotalLength, SeenLength, JsMap.Get;
    var c := t.cs[i];
    var more := JsMap.Set(parts, c.chunkOffset, c.chunkData);
    forall j | j in seen + {i}
      ensures JsMap.Get(more, t.cs[j].chunkOffset) == Some(t.cs[j].chunkData)
    {
      JsMap.GetOfSet(parts, c.chunkOffset, c.chunkData, t.cs[j].chunkOffset);
      if t.cs[j].chunkOffset == c.chunkOffset {
        OffsetsDistinct(t, i, j);
      }
    }
    var at := JsMap.IndexOf(parts, c.chunkOffset);
    if at < |parts| {
      assert IsPart(parts[at], t, seen);
      var j :| j in seen && 0 <= j < |t.cs| && parts[at] == PairOf(t.cs[j]);
      OffsetsDistinct(t, i, j);
      assert more == parts && seen + {i} == seen;
    } else {
      assert i !in seen by {
        if i in seen {
          AbsentOffset(parts, c.chunkOffset);
        }
      }
      TotalLengthOfSnoc(parts, PairOf(c));
      SeenLengthOfMore(t, |t.cs|, seen, i);
      forall j | 0 <= j < |more|
        ensures IsPart(more[j], t, seen + {i})
      {
        if j < |parts| {
          assert IsPart(parts[j], t, seen);
        } else {
          assert i in seen + {i};
        }
      }
    }
  }

  lemma AbsentOffset(parts: Parts, offset: int)
    ensures JsMap.IndexOf(parts, offset) == |parts| <==> JsMap.Get(parts, offset).None?
  {
  }

  // ----- once all chunks are there, sorting puts them in their original order

  predicate Increasing(s: seq<(int, Bytes)>) {
    forall i, j :: 0 <= i < j < |s| ==> s[i].0 < s[j].0
  }

  lemma {:induction false} InsertedIncreasing(p: (int, Bytes), s: seq<(int, Bytes)>)
    requires Increasing(s) && forall i :: 0 <= i < |s| ==> s[i].0 != p.0
    ensures Increasing(Inserted(p, s))
    ensures forall x :: x in Inserted(p, s) <==> x == p || x in s
  {
    if s != [] && p.0 > s[0].0 {
      InsertedIncreasing(p, s[1..]);
      var r := Inserted(p, s[1..]);
      assert Inserted(p, s) == [s[0]] + r;
      assert forall x :: x in r ==> s[0].0 < x.0;
    }
  }

  lemma {:induction false} SortedIncreasing(parts: Parts)
    ensures Increasing(Sorted(parts)) && forall x :: x in Sorted(parts) <==> x in parts
  {
    hide Increasing, Inserted;
    if parts != [] {
      SortedIncreasing(parts[1..]);
      HeadInserted(parts, Sorted(parts[1..]));
      assert parts == [parts[0]] + parts[1..];
    } else {
      NothingIncreases();
    }
  }

  lemma NothingIncreases()
    ensures Increasing([])
  {
  }

  lemma HeadInserted(parts: Parts, s: seq<(int, Bytes)>)
    requires parts != [] && Increasing(s) && forall x :: x in s <==> x in parts[1..]
    ensures Increasing(Inserted(parts[0], s))
    ensures forall x :: x in Inserted(parts[0], s) <==> x == parts[0] || x in s
  {
    hide Increasing, Inserted;
    forall i | 0 <= i < |s|
      ensures s[i].0 != parts[0].0
    {
      assert s[i] in s;
      var j :| 0 <= j < |parts| - 1 && parts[1..][j] == s[i];
      assert parts[j + 1] == s[i];
    }
    InsertedIncreasing(parts[0], s);
  }

  lemma {:induction false} IncreasingUnique(s: seq<(int, Bytes)>, r: seq<(int, Bytes)>)
    requires Increasing(s) && Increasing(r) && forall x :: x in s <==> x in r
    ensures s == r
  {
    if s == [] {
      assert forall i :: 0 <= i < |r| ==> r[i] in r;
    } else {
      assert s[0] in r && r[0] in s;
      assert s[0] == r[0];
      forall x
        ensures x in s[1..] <==> x in r[1..]
      {
        assert x in s[1..] ==> x in r && x.0 > s[0].0;
        assert x in r[1..] ==> x in s && x.0 > r[0].0;
      }
      IncreasingUnique(s[1..], r[1..]);
    }
  }

  lemma PairsIncreasing(t: Message)
    requires t.Valid()
    ensures Increasing(PairsOf(t.cs))
  {
    hide Tiles;
    forall i, j | 0 <= i < j < |t.cs|
      ensures PairsOf(t.cs)[i].0 < PairsOf(t.cs)[j].0
    {
      OffsetsIncrease(t, i, j);
      TilesAt(t.cs, t.sequence, t.payload, 0, t.maxData, i);
    }
  }

  lemma AllHeldSorted(parts: Parts, t: Message)
    requires t.Valid() && Holds(parts, t, All(t))
    ensures Sorted(parts) == PairsOf(t.cs)
  {
    hide Tiles, TotalLength, SeenLength, Sorted, Increasing;
    SortedIncreasing(parts);
    PairsIncreasing(t);
    var pairs := PairsOf(t.cs);
    forall x
      ensures x in Sorted(parts) <==> x in pairs
    {
      if x in parts {
        var j :| 0 <= j < |parts| && parts[j] == x;
        assert IsPart(parts[j], t, All(t));
        var i :| i in All(t) && 0 <= i < |t.cs| && x == PairOf(t.cs[i]);
        assert pairs[i] == x;
      }
      if x in pairs {
        var i :| 0 <= i < |pairs| && pairs[i] == x;
        assert i in All(t);
        StoredPair(parts, t.cs[i].chunkOffset, t.cs[i].chunkData);
      }
    }
    IncreasingUnique(Sorted(parts), pairs);
  }

  lemma StoredPair(parts: Parts, offset: int, data: Bytes)
    requires JsMap.Get(parts, offset) == Some(data)
    ensures (offset, data) in parts
  {
    assert parts[JsMap.IndexOf(parts, offset)] == (offset, data);
  }

  lemma {:induction false} PairsTile(cs: seq<Chunk>, sequence: int, payload: Bytes, from: nat, maxData: int)
    requires Tiles(cs, sequence, payload, from, maxData)
    ensures from <= |payload|
    ensures TileExactly(PairsOf(cs), from, |payload|) && Joined(PairsOf(cs)) == payload[from..]
  {
    if cs != [] {
      var n := |cs[0].chunkData|;
      PairsTile(cs[1..], sequence, payload, from + n, maxData);
      assert PairsOf(cs)[1..] == PairsOf(cs[1..]);
      assert payload[from..] == payload[from..from + n] + payload[from + n..];
    }
  }

  // ----- one arrival

  lemma ChunkAccepted(t: Message, max: int, a: ChunkArrival, i: nat)
    requires t.Valid() && i < |t.cs| && ChunkOf(a) == t.cs[i] && |t.payload| <= max
    ensures Accepted(max, a) && ChunkOf(a).totalSize == |t.payload|
  {
    hide Tiles;
    TilesAt(t.cs, t.sequence, t.payload, 0, t.maxData, i);
  }

  /** A chunk of the message: the last one missing completes it, any other one waits. */
  lemma OwnArrival(t: Message, max: int, m: Entries, a: ChunkArrival, i: nat, seen: set<int>)
    requires t.Valid() && |t.payload| <= max && i < |t.cs| && ChunkOf(a) == t.cs[i] && seen <= All(t)
    requires Pending(JsMap.Get(m, KeyOf(a)), t, seen) && !Drops(max, m, a, KeyOf(a))
    ensures var p := Step(max, m, a);
            if seen + {i} == All(t) then p.complete == Some(t.payload)
            else p.complete.None? && Pending(JsMap.Get(p.entries, KeyOf(a)), t, seen + {i})
  {
    hide Tiles, Step, Found, JsMap.Get, KeyOf, Holds, TotalLength, SeenLength, Sorted, TileExactly, JsMap.Set,
         Joined, Swept;
    ChunkAccepted(t, max, a, i);
    FoundEntry(m, a);
    StepFound(max, m, a);
    NothingHeld(t);
    var e := Found(m, a);
    assert Holds(e.parts, t, seen) && e.totalSize == |t.payload|;
    var parts := WithPart(e, ChunkOf(a)).parts;
    HoldsMore(e.parts, t, seen, i);
    HeldLength(parts, t, seen + {i});
    SeenLengthComplete(t, seen + {i});
    if seen + {i} == All(t) {
      AllHeldSorted(parts, t);
      PairsTile(t.cs, t.sequence, t.payload, 0, t.maxData);
      assert t.payload[0..] == t.payload;
    }
  }

  lemma HeldLength(parts: Parts, t: Message, seen: set<int>)
    requires Holds(parts, t, seen)
    ensures TotalLength(parts) == SeenLength(t, |t.cs|, seen)
  {
  }

  // ----- a whole history

  /** Every arrival under this key is a chunk of the message. */
  ghost predicate Sends(t: Message, h: seq<ChunkArrival>, k: Bytes) {
    forall a :: a in h && KeyOf(a) == k ==> SomeChunk(t, a, k)
  }

  ghost predicate SomeChunk(t: Message, a: ChunkArrival, k: Bytes) {
    exists i :: IsChunk(t, i, a, k)
  }

  /** Neither expiry nor overflow ever removes the entry of this key. */
  predicate NeverDropped(max: int, start: Entries, h: seq<ChunkArrival>, k: Bytes) {
    forall i :: 0 <= i < |h| ==> !Drops(max, Run(max, start, h[..i]), h[i], k)
  }

  lemma {:induction false} SeenIsSubset(t: Message, h: seq<ChunkArrival>, k: Bytes)
    ensures Seen(t, h, k) <= All(t)
  {
    if h != [] {
      SeenIsSubset(t, h[..|h| - 1], k);
    }
  }

  lemma SeenOfOwn(t: Message, h: seq<ChunkArrival>, a: ChunkArrival, k: Bytes, i: nat)
    requires t.Valid() && IsChunk(t, i, a, k)
    ensures Seen(t, h + [a], k) == Seen(t, h, k) + {i}
  {
    hide Tiles, KeyOf;
    assert (h + [a])[..|h|] == h;
    forall j | 0 <= j < |t.cs| && IsChunk(t, j, a, k)
      ensures j == i
    {
      OffsetsDistinct(t, i, j);
    }
    assert (set j | 0 <= j < |t.cs| && IsChunk(t, j, a, k)) == {i};
  }

  lemma SeenOfOther(t: Message, h: seq<ChunkArrival>, a: ChunkArrival, k: Bytes)
    requires KeyOf(a) != k
    ensures Seen(t, h + [a], k) == Seen(t, h, k)
  {
    hide KeyOf;
    assert (h + [a])[..|h|] == h;
    assert (set j | 0 <= j < |t.cs| && IsChunk(t, j, a, k)) == {};
  }

  lemma {:induction false} PendingWhileIncomplete(t: Message, max: int, start: Entries, h: seq<ChunkArrival>, k: Bytes)
    requires t.Valid() && |t.payload| <= max && JsMap.Get(start, k).None?
    requires Sends(t, h, k) && NeverDropped(max, start, h, k) && Seen(t, h, k) != All(t)
    ensures Pending(JsMap.Get(Run(max, start, h), k), t, Seen(t, h, k))
  {
    hide Message.Valid, Drops, Step, JsMap.Get, KeyOf, Holds, All;
    if h == [] {
      assert Run(max, start, h) == start && Seen(t, h, k) == {};
    } else {
      var init, a := h[..|h| - 1], h[|h| - 1];
      assert h == init + [a];
      NeverDroppedBefore(max, start, h, k);
      var m := Run(max, start, init);
      hide Run, Seen;
      SeenIsSubset(t, init, k);
      if KeyOf(a) == k {
        assert SomeChunk(t, a, k);
        var i :| IsChunk(t, i, a, k);
        SeenOfOwn(t, init, a, k, i);
        StillIncomplete(t, init, k, i);
        PendingWhileIncomplete(t, max, start, init, k);
        OwnArrival(t, max, m, a, i, Seen(t, init, k));
      } else {
        SeenOfOther(t, init, a, k);
        PendingWhileIncomplete(t, max, start, init, k);
        PushIsLocal(max, m, a, k);
      }
    }
  }

  lemma StillIncomplete(t: Message, h: seq<ChunkArrival>, k: Bytes, i: int)
    requires Seen(t, h, k) <= All(t) && Seen(t, h, k) + {i} != All(t) && 0 <= i < |t.cs|
    ensures Seen(t, h, k) != All(t)
  {
    hide Seen;
    assert IsIndex(t, i) && All(t) + {i} == All(t);
  }

  lemma NotDroppedAt(max: int, start: Entries, h: seq<ChunkArrival>, k: Bytes, i: nat)
    requires NeverDropped(max, start, h, k) && i < |h|
    ensures !Drops(max, Run(max, start, h[..i]), h[i], k)
  {
    hide Drops, Run;
  }

  lemma PrefixNeverDropped(max: int, start: Entries, h: seq<ChunkArrival>, k: Bytes)
    requires h != [] && NeverDropped(max, start, h, k)
    ensures NeverDropped(max, start, h[..|h| - 1], k)
  {
    hide Drops, Run;
    var init := h[..|h| - 1];
    forall i | 0 <= i < |init|
      ensures !Drops(max, Run(max, start, init[..i]), init[i], k)
    {
      assert init[..i] == h[..i];
      NotDroppedAt(max, start, h, k, i);
    }
  }

  lemma NeverDroppedBefore(max: int, start: Entries, h: seq<ChunkArrival>, k: Bytes)
    requires h != [] && NeverDropped(max, start, h, k)
    ensures NeverDropped(max, start, h[..|h| - 1], k)
    ensures !Drops(max, Run(max, start, h[..|h| - 1]), h[|h| - 1], k)
    ensures Run(max, start, h) == Step(max, Run(max, start, h[..|h| - 1]), h[|h| - 1]).entries
  {
    LastStep(max, start, h);
    NotDroppedAt(max, start, h, k, |h| - 1);
    hide NeverDropped, Drops, Step, Run;
    PrefixNeverDropped(max, start, h, k);
  }

  lemma LastStep(max: int, start: Entries, h: seq<ChunkArrival>)
    requires h != []
    ensures Run(max, start, h) == Step(max, Run(max, start, h[..|h| - 1]), h[|h| - 1]).entries
  {
    hide Step;
  }

  /**
   In any order, with any repeats, mixed with any other keys: nothing is delivered until the last missing
   chunk, which delivers the whole message.
   */
  lemma LastChunkDelivers(t: Message, max: int, start: Entries, h: seq<ChunkArrival>, a: ChunkArrival)
    requires t.Valid() && |t.payload| <= max && JsMap.Get(start, KeyOf(a)).None?
    requires Sends(t, h + [a], KeyOf(a)) && NeverDropped(max, start, h + [a], KeyOf(a))
    requires Seen(t, h, KeyOf(a)) != All(t)
    ensures Step(max, Run(max, start, h), a).complete
         == if Seen(t, h + [a], KeyOf(a)) == All(t) then Some(t.payload) else None
  {
    hide Message.Valid, Drops, Step, JsMap.Get, KeyOf, Pending, All, Run, Seen;
    var k := KeyOf(a);
    var g := h + [a];
    assert g[..|g| - 1] == h && a in g;
    NeverDroppedBefore(max, start, g, k);
    assert SomeChunk(t, a, k);
    var i :| IsChunk(t, i, a, k);
    PendingWhileIncomplete(t, max, start, h, k);
    SeenOfOwn(t, h, a, k, i);
    SeenIsSubset(t, h, k);
    OwnArrival(t, max, Run(max, start, h), a, i, Seen(t, h, k));
  }

  // ----- a condition under which nothing is dropped

  function KeysOf(h: seq<ChunkArrival>): set<Bytes> {
    set a | a in h :: KeyOf(a)
  }

  /** All arrivals within the 30 seconds an entry lives. */
  predicate WithinLifetime(h: seq<ChunkArrival>) {
    forall i, j :: 0 <= i < j < |h| ==> h[j].now <= h[i].now + 30_000
  }

  function EntryKeys(m: seq<(Bytes, Entry)>): set<Bytes> {
    set i | 0 <= i < |m| :: m[i].0
  }

  lemma {:induction false} EntryKeysCount(m: Entries)
    ensures |EntryKeys(m)| == |m|
  {
    if m != [] {
      EntryKeysCount(m[1..]);
      assert EntryKeys(m) == {m[0].0} + EntryKeys(m[1..]) by {
        forall x | x in EntryKeys(m)
          ensures x in {m[0].0} + EntryKeys(m[1..])
        {
          var i :| 0 <= i < |m| && m[i].0 == x;
          if i > 0 {
            assert m[1..][i - 1].0 == x;
          }
        }
        forall x | x in EntryKeys(m[1..])
          ensures x in EntryKeys(m)
        {
          var i :| 0 <= i < |m[1..]| && m[1..][i].0 == x;
          assert m[i + 1].0 == x;
        }
      }
      assert m[0].0 !in EntryKeys(m[1..]);
    }
  }

  lemma HasIsKey(m: Entries, k: Bytes)
    ensures k in EntryKeys(m) <==> JsMap.Get(m, k).Some?
  {
    if JsMap.Get(m, k).Some? {
      assert m[JsMap.IndexOf(m, k)].0 == k;
    }
    forall i | 0 <= i < |m| && m[i].0 == k
      ensures JsMap.Get(m, k).Some?
    {
      JsMap.GetAt(m, i);
    }
  }

  lemma StepKeys(max: int, m: Entries, a: ChunkArrival)
    ensures EntryKeys(Step(max, m, a).entries) <= EntryKeys(m) + {KeyOf(a)}
  {
    hide Step, Drops, JsMap.Get, KeyOf, EntryKeys;
    forall k | k in EntryKeys(Step(max, m, a).entries)
      ensures k in EntryKeys(m) + {KeyOf(a)}
    {
      HasIsKey(Step(max, m, a).entries, k);
      HasIsKey(m, k);
      if k != KeyOf(a) {
        PushIsLocal(max, m, a, k);
      }
    }
  }

  lemma {:induction false} RunKeys(max: int, h: seq<ChunkArrival>)
    ensures EntryKeys(Run(max, [], h)) <= KeysOf(h)
  {
    hide Step, KeyOf;
    if h != [] {
      var init, a := h[..|h| - 1], h[|h| - 1];
      RunKeys(max, init);
      StepKeys(max, Run(max, [], init), a);
      assert a in h && forall x :: x in init ==> x in h;
    }
  }

  lemma SweptEntryKeys(m: Entries, now: int)
    ensures EntryKeys(Swept(m, now)) <= EntryKeys(m)
  {
    var s := Swept(m, now);
    forall i | 0 <= i < |s|
      ensures s[i].0 in EntryKeys(m)
    {
      assert s[i] in s;
      var j :| 0 <= j < |m| && m[j] == s[i];
      assert m[j].0 == s[i].0;
    }
  }

  lemma NoOverflow(max: int, h: seq<ChunkArrival>, a: ChunkArrival, now: int)
    requires |KeysOf(h + [a])| <= 1000
    ensures !Overflows(Swept(Run(max, [], h), now), KeyOf(a))
  {
    hide Run, KeyOf, Swept;
    var m, k := Run(max, [], h), KeyOf(a);
    var s := Swept(m, now);
    RunKeys(max, h);
    EntryKeysCount(s);
    HasIsKey(s, k);
    SweptEntryKeys(m, now);
    assert a in h + [a] && forall x :: x in h ==> x in h + [a];
    assert KeysOf(h) <= KeysOf(h + [a]) && k in KeysOf(h + [a]);
    if JsMap.Get(s, k).None? {
      SubsetCount(EntryKeys(s) + {k}, KeysOf(h + [a]));
    }
  }

  /** From an empty reassembler: at most 1000 different keys, all within 30 seconds, and nothing is dropped. */
  lemma NothingIsDropped(max: int, h: seq<ChunkArrival>, k: Bytes)
    requires WithinLifetime(h) && |KeysOf(h)| <= 1000
    ensures NeverDropped(max, [], h, k)
  {
    hide Run, Overflows, Swept, KeyOf, JsMap.Get;
    forall i | 0 <= i < |h|
      ensures !Drops(max, Run(max, [], h[..i]), h[i], k)
    {
      var before, a := h[..i], h[i];
      assert forall x :: x in before + [a] ==> x in h;
      SubsetCount(KeysOf(before + [a]), KeysOf(h));
      NoOverflow(max, before, a, a.now);
      var m := Run(max, [], before);
      if JsMap.Get(m, k).Some? {
        EveryEntryWasOpened(max, before, k);
        var first :| OpenedAt(max, before, k, JsMap.Get(m, k).value, first);
        FirstInRange(max, before, k, first);
        assert before[first] == h[first];
      }
    }
  }

  // ----- the encoder, the decoder and the reassembler together

  /** The chunk buffers of an encoded message, as the reassembler will see them. */
  ghost predicate Transmission(nm: NetworkMessage, mtu: int, t: Message, k: Bytes) {
    && Encode(nm, mtu).Ok? && Encode(nm, mtu).value.Chunked?
    && var buffers := Encode(nm, mtu).value.buffers;
    && WholeBytes(nm) == Ok(t.payload)
    && t.Valid() && |buffers| == |t.cs|
    && (forall i :: 0 <= i < |buffers| ==>
          && Decode(buffers[i]) == Ok(ChunkPartial(nm, t.cs[i], ChunkWriterId(nm)))
          && Key(ChunkPartial(nm, t.cs[i], ChunkWriterId(nm))) == k)
  }

  /** The key under which all chunks of a message arrive. */
  function TransportKey(nm: NetworkMessage): Bytes {
    Key(ChunkPartial(nm, Chunk(MessageSequenceNumber(nm), 0, 0, []), ChunkWriterId(nm)))
  }

  function TransportMessage(nm: NetworkMessage, mtu: int): Message
    requires WholeBytes(nm).Ok? && Probe(nm, WholeBytes(nm).value).Ok?
    requires mtu - |Probe(nm, WholeBytes(nm).value).value| - CHUNK_PAYLOAD_OVERHEAD > 0
  {
    var whole := WholeBytes(nm).value;
    var maxData := mtu - |Probe(nm, whole).value| - CHUNK_PAYLOAD_OVERHEAD;
    Message(Chunks(nm, whole, maxData), MessageSequenceNumber(nm), whole, maxData)
  }

  lemma ChunkedIsTransmission(nm: NetworkMessage, mtu: int) returns (t: Message)
    requires Encode(nm, mtu).Ok? && Encode(nm, mtu).value.Chunked?
    ensures Transmission(nm, mtu, t, TransportKey(nm))
  {
    hide Encode, WholeBytes, Probe, ChunkBytes, Chunks, Tiles, Decode, Key, NormalNetworkMessage, ChunkWriterId;
    ChunkedEncoding(nm, mtu);
    t := TransportMessage(nm, mtu);
    var buffers := Encode(nm, mtu).value.buffers;
    forall i | 0 <= i < |buffers|
      ensures Decode(buffers[i]) == Ok(ChunkPartial(nm, t.cs[i], ChunkWriterId(nm)))
      ensures Key(ChunkPartial(nm, t.cs[i], ChunkWriterId(nm))) == TransportKey(nm)
    {
      ChunkRoundTrip(nm, t.cs[i], ChunkWriterId(nm));
      TilesAt(t.cs, t.sequence, t.payload, 0, t.maxData, i);
      SameKey(nm, t.cs[i]);
    }
  }

  lemma SameKey(nm: NetworkMessage, c: Chunk)
    requires c.messageSequenceNumber == MessageSequenceNumber(nm)
    ensures ChunkPartial(nm, c, ChunkWriterId(nm)).chunk == Some(c)
    ensures Key(ChunkPartial(nm, c, ChunkWriterId(nm))) == TransportKey(nm)
  {
    hide PublisherText, UndefinedOr, Decimal;
  }

  /** The arrival is what the decoder makes of this buffer. */
  predicate Carries(a: ChunkArrival, buffer: Bytes) {
    Decode(buffer) == Ok(a.partial)
  }

  ghost predicate CarriesOne(a: ChunkArrival, buffers: seq<Bytes>) {
    exists i :: 0 <= i < |buffers| && Carries(a, buffers[i])
  }

  ghost predicate Arrived(buffer: Bytes, h: seq<ChunkArrival>) {
    exists a :: a in h && Carries(a, buffer)
  }

  ghost predicate AllArrived(buffers: seq<Bytes>, h: seq<ChunkArrival>) {
    forall i :: 0 <= i < |buffers| ==> Arrived(buffers[i], h)
  }

  lemma {:induction false} SeenIff(t: Message, h: seq<ChunkArrival>, k: Bytes, i: int)
    ensures i in Seen(t, h, k) <==> exists a :: a in h && IsChunk(t, i, a, k)
  {
    hide KeyOf;
    if h != [] {
      var init, last := h[..|h| - 1], h[|h| - 1];
      SeenIff(t, init, k, i);
      assert h == init + [last];
      assert last in h;
    }
  }

  lemma CarriesIsChunk(nm: NetworkMessage, mtu: int, t: Message, k: Bytes, a: ChunkArrival, i: nat)
    requires Transmission(nm, mtu, t, k) && i < |t.cs|
    ensures Carries(a, Encode(nm, mtu).value.buffers[i]) ==> IsChunk(t, i, a, k)
  {
    hide Encode, Decode, Key, Message.Valid, WholeBytes, NormalNetworkMessage, ChunkWriterId;
  }

  lemma ChunkIsCarried(nm: NetworkMessage, mtu: int, t: Message, k: Bytes, a: ChunkArrival, i: nat)
    requires Transmission(nm, mtu, t, k) && IsChunk(t, i, a, k)
    requires CarriesOne(a, Encode(nm, mtu).value.buffers)
    ensures Carries(a, Encode(nm, mtu).value.buffers[i])
  {
    hide Encode, Decode, Key, Tiles, WholeBytes, NormalNetworkMessage, ChunkWriterId;
    var buffers := Encode(nm, mtu).value.buffers;
    var j :| 0 <= j < |buffers| && Carries(a, buffers[j]);
    CarriesIsChunk(nm, mtu, t, k, a, j);
    OffsetsDistinct(t, i, j);
  }

  lemma SeenIsArrived(nm: NetworkMessage, mtu: int, t: Message, k: Bytes, h: seq<ChunkArrival>)
    requires Transmission(nm, mtu, t, k)
    requires forall a :: a in h && KeyOf(a) == k ==> CarriesOne(a, Encode(nm, mtu).value.buffers)
    ensures Seen(t, h, k) == All(t) <==> AllArrived(Encode(nm, mtu).value.buffers, h)
  {
    hide Encode, Seen, Transmission, Carries, KeyOf;
    TransmissionLength(nm, mtu, t, k);
    var buffers := Encode(nm, mtu).value.buffers;
    SeenIsSubset(t, h, k);
    forall i | 0 <= i < |t.cs|
      ensures i in Seen(t, h, k) <==> Arrived(buffers[i], h)
    {
      SeenIff(t, h, k, i);
      if i in Seen(t, h, k) {
        var a :| a in h && IsChunk(t, i, a, k);
        ChunkIsCarried(nm, mtu, t, k, a, i);
      }
      if Arrived(buffers[i], h) {
        var a :| a in h && Carries(a, buffers[i]);
        CarriesIsChunk(nm, mtu, t, k, a, i);
      }
    }
    if AllArrived(buffers, h) {
      assert forall i :: i in All(t) ==> i in Seen(t, h, k);
    }
  }

  lemma TransmissionLength(nm: NetworkMessage, mtu: int, t: Message, k: Bytes)
    requires Transmission(nm, mtu, t, k)
    ensures Encode(nm, mtu).Ok? && Encode(nm, mtu).value.Chunked?
    ensures |Encode(nm, mtu).value.buffers| == |t.cs|
    ensures t.Valid() && WholeBytes(nm) == Ok(t.payload)
  {
    hide Encode, Decode, Key, Tiles, WholeBytes, NormalNetworkMessage, ChunkWriterId;
  }

  lemma CarriersSend(nm: NetworkMessage, mtu: int, t: Message, k: Bytes, h: seq<ChunkArrival>)
    requires Transmission(nm, mtu, t, k)
    requires forall a :: a in h && KeyOf(a) == k ==> CarriesOne(a, Encode(nm, mtu).value.buffers)
    ensures Sends(t, h, k)
  {
    hide Encode, Transmission, Carries, KeyOf;
    TransmissionLength(nm, mtu, t, k);
    var buffers := Encode(nm, mtu).value.buffers;
    forall a | a in h && KeyOf(a) == k
      ensures SomeChunk(t, a, k)
    {
      assert CarriesOne(a, buffers);
      var i :| 0 <= i < |buffers| && Carries(a, buffers[i]);
      CarriesIsChunk(nm, mtu, t, k, a, i);
    }
  }

  /**
   Chunk transport is lossless. Whatever else arrives, as long as arrivals under the key of this message
   are its own chunks and its entry is not dropped: the chunk that completes the set delivers exactly the
   unchunked encoding, every earlier one delivers nothing, and what is delivered decodes to the message.
   */
  lemma ChunkTransportIsLossless(
      nm: NetworkMessage, mtu: int, max: int, start: Entries, h: seq<ChunkArrival>, a: ChunkArrival)
    requires Encode(nm, mtu).Ok? && Encode(nm, mtu).value.Chunked?
    requires KeyOf(a) == TransportKey(nm) && JsMap.Get(start, TransportKey(nm)).None?
    requires forall x :: x in h + [a] && KeyOf(x) == TransportKey(nm) ==> CarriesOne(x, Encode(nm, mtu).value.buffers)
    requires NeverDropped(max, start, h + [a], TransportKey(nm))
    requires WholeBytes(nm).Ok? && |WholeBytes(nm).value| <= max
    requires !AllArrived(Encode(nm, mtu).value.buffers, h)
    ensures Step(max, Run(max, start, h), a).complete
         == if AllArrived(Encode(nm, mtu).value.buffers, h + [a]) then Some(WholeBytes(nm).value) else None
    ensures nm.chunk.None? && UadpRoundTrip.CountsAgree(nm) && UadpRoundTrip.NoRawData(nm.payload)
        ==> Decode(WholeBytes(nm).value) == Ok(NormalNetworkMessage(nm))
  {
    hide Encode, WholeBytes, KeyOf, TransportKey, Transmission, Seen, Step, Run, JsMap.Get, NeverDropped, Carries,
         AllArrived, Decode, NormalNetworkMessage, UadpRoundTrip.CountsAgree, UadpRoundTrip.NoRawData, Message.Valid,
         All;
    var k := TransportKey(nm);
    var t := ChunkedIsTransmission(nm, mtu);
    TransmissionLength(nm, mtu, t, k);
    assert forall x :: x in h ==> x in h + [a];
    CarriersSend(nm, mtu, t, k, h + [a]);
    SeenIsArrived(nm, mtu, t, k, h);
    SeenIsArrived(nm, mtu, t, k, h + [a]);
    LastChunkDelivers(t, max, start, h, a);
    if nm.chunk.None? {
      UadpRoundTrip.NetworkMessageRoundTrip(nm);
    }
  }
}
