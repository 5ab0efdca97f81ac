/** The chunk reassembler: a bounded, expiring map of half-received messages. */
module Reassembler {
  import opened Wrappers
  import opened Wire
  import opened UadpModel
  import JsMap
  import Numerals

  const MAX_INFLIGHT_REASSEMBLIES := 1000
  const REASSEMBLY_EXPIRY_MS := 30000

  /** Chunk data by offset, in order of first arrival. */
  type Parts = JsMap.Map<int, Bytes>

  datatype Entry = Entry(totalSize: int, parts: Parts, expiresAt: int)

  type Entries = JsMap.Map<Bytes, Entry>

  datatype Warning = TotalSizeRejected(key: Bytes) | Overflow(droppedKey: Bytes) | BadTiling(key: Bytes)

  // ----- the key of a chunk

  const BAR: Byte := 124

  function Ascii(s: string): Bytes
    requires forall i :: 0 <= i < |s| ==> s[i] < 128 as char
  {
    if s == "" then [] else [s[0] as int] + Ascii(s[1..])
  }

  function DigitByte(d: Numerals.Digit): Byte {
    48 + d
  }

  function DigitBytes(ds: seq<Numerals.Digit>): Bytes {
    seq(|ds|, i requires 0 <= i < |ds| => DigitByte(ds[i]))
  }

  /** How JavaScript prints an integer in a template string. */
  function Decimal(n: int): Bytes {
    if n < 0 then [45] + DigitBytes(Numerals.Digits(-n)) else DigitBytes(Numerals.Digits(n))
  }

  function UndefinedOr(n: Option<int>): Bytes {
    match n
    case None => Ascii("undefined")
    case Some(i) => Decimal(i)
  }

  function PublisherText(p: Option<PublisherId>): Bytes {
    match p
    case None => Ascii("undefined")
    case Some(NumberId(n)) => Decimal(n)
    case Some(BigIntId(n)) => Decimal(n)
    case Some(StringId(t)) => t
    case Some(NullId) => Ascii("null")
  }

  function GroupOf(partial: NetworkMessage): Option<int> {
    if partial.groupHeader.Some? then partial.groupHeader.value.writerGroupId else None
  }

  function Key(partial: NetworkMessage): Bytes
    requires partial.chunk.Some?
  {
    PublisherText(partial.publisherId) + [BAR] + UndefinedOr(GroupOf(partial)) + [BAR]
    + Decimal(partial.chunk.value.messageSequenceNumber)
  }

  // ----- what one push does

  predicate SizeAccepted(max: int, c: Chunk) {
    0 <= c.totalSize <= max
  }

  predicate RangeAccepted(c: Chunk) {
    0 <= c.chunkOffset && c.chunkOffset + |c.chunkData| <= c.totalSize
  }

  /** The entries that have not expired. */
  function Swept(m: Entries, now: int): (r: Entries)
    ensures forall x :: x in r ==> x in m
  {
    if m == [] then []
    else
      var rest := Swept(m[1..], now);
      assert forall x :: x in m[1..] ==> x.0 != m[0].0;
      assert forall x :: x in rest ==> x in m[1..] && x in m;
      if m[0].1.expiresAt < now then rest else [m[0]] + rest
  }

  predicate Overflows(m: Entries, key: Bytes) {
    !JsMap.Has(m, key) && |m| >= MAX_INFLIGHT_REASSEMBLIES
  }

  /** The entries left after making room for a new key. */
  function Evicted(m: Entries, key: Bytes): Entries {
    if Overflows(m, key) then m[1..] else m
  }

  function EntryFor(m: Entries, key: Bytes, c: Chunk, now: int): Entry {
    match JsMap.Get(m, key)
    case Some(e) => e
    case None => Entry(c.totalSize, [], now + REASSEMBLY_EXPIRY_MS)
  }

  function WithPart(e: Entry, c: Chunk): Entry {
    e.(parts := JsMap.Set(e.parts, c.chunkOffset, c.chunkData))
  }

  function TotalLength(parts: seq<(int, Bytes)>): nat {
    if parts == [] then 0 else |parts[0].1| + TotalLength(parts[1..])
  }

  /** `Array.prototype.sort` by ascending offset. */
  function Sorted(parts: seq<(int, Bytes)>): seq<(int, Bytes)> {
    if parts == [] then [] else Inserted(parts[0], Sorted(parts[1..]))
  }

  function Inserted(p: (int, Bytes), sorted: seq<(int, Bytes)>): seq<(int, Bytes)> {
    if sorted == [] || p.0 <= sorted[0].0 then [p] + sorted else [sorted[0]] + Inserted(p, sorted[1..])
  }

  /** The parts start at `from`, each where the one before ended, and stop at `end`. */
  predicate TileExactly(sorted: seq<(int, Bytes)>, from: int, end: int) {
    if sorted == [] then from == end
    else sorted[0].0 == from && TileExactly(sorted[1..], from + |sorted[0].1|, end)
  }

  function Joined(sorted: seq<(int, Bytes)>): Bytes {
    if sorted == [] then [] else sorted[0].1 + Joined(sorted[1..])
  }

  datatype Pushed = Pushed(entries: Entries, complete: Option<Bytes>, warnings: seq<Warning>)

  /** Recording an accepted chunk: wait, deliver, or drop a message that cannot be put together. */
  function Recorded(m: Entries, key: Bytes, c: Chunk, now: int): Pushed {
    var e := WithPart(EntryFor(m, key, c, now), c);
    if TotalLength(e.parts) < e.totalSize then Pushed(JsMap.Set(m, key, e), None, [])
    else if TileExactly(Sorted(e.parts), 0, e.totalSize) then
      Pushed(JsMap.Delete(m, key), Some(Joined(Sorted(e.parts))), [])
    else Pushed(JsMap.Delete(m, key), None, [BadTiling(key)])
  }

  function AfterPush(max: int, m: Entries, partial: NetworkMessage, now: int): Pushed
    requires partial.chunk.Some?
  {
    var key, c := Key(partial), partial.chunk.value;
    if !SizeAccepted(max, c) then Pushed(m, None, [TotalSizeRejected(key)])
    else
      var swept := Swept(m, now);
      var kept := Evicted(swept, key);
      var overflow := if Overflows(swept, key) then [Overflow(swept[0].0)] else [];
      if !RangeAccepted(c) then Pushed(kept, None, overflow + [BadTiling(key)])
      else
        var p := Recorded(kept, key, c, now);
        p.(warnings := overflow + p.warnings)
  }

  // ----- the class

  class UadpReassembler {
    const maxTotalSize: int
    var entries: Entries
    var warnings: seq<Warning>   // the calls of onWarn, in order

    constructor (maxTotalSize: int)
      ensures this.maxTotalSize == maxTotalSize && entries == [] && warnings == []
    {
      this.maxTotalSize := maxTotalSize;
      entries := [];
      warnings := [];
    }

    method Push(partial: NetworkMessage, now: int) returns (complete: Option<Bytes>)
      requires partial.chunk.Some?
      modifies this
      ensures var p := AfterPush(maxTotalSize, old(entries), partial, now);
              entries == p.entries && complete == p.complete && warnings == old(warnings) + p.warnings
    {
      hide Key, Sorted, TotalLength, Swept;
      var key, chunk := Key(partial), partial.chunk.value;
      if !(0 <= chunk.totalSize <= maxTotalSize) {
        warnings := warnings + [TotalSizeRejected(key)];
        return None;
      }
      Sweep(now);
      if !JsMap.Has(entries, key) && |entries| >= MAX_INFLIGHT_REASSEMBLIES {
        var oldest := entries[0].0;
        DeleteOldest(entries);
        entries := JsMap.Delete(entries, oldest);
        warnings := warnings + [Overflow(oldest)];
      }
      if !(0 <= chunk.chunkOffset && chunk.chunkOffset + |chunk.chunkData| <= chunk.totalSize) {
        warnings := warnings + [BadTiling(key)];
        return None;
      }
      complete := Record(key, chunk, now);
    }

    /** The loop over the map that deletes what has expired. */
    method Sweep(now: int)
      modifies `entries
      ensures entries == Swept(old(entries), now)
    {
      hide Swept, JsMap.Delete;
      var all := entries;
      var i := 0;
      SweepStart(all, now);
      while i < |all|
        invariant 0 <= i <= |all|
        invariant entries == Swept(all[..i], now) + all[i..]
      {
        SweepStep(all, i, now, entries);
        if all[i].1.expiresAt < now {
          entries := JsMap.Delete(entries, all[i].0);
        }
        i := i + 1;
      }
      assert all[..i] == all && all[i..] == [];
    }

    method Record(key: Bytes, chunk: Chunk, now: int) returns (complete: Option<Bytes>)
      modifies this
      ensures var p := Recorded(old(entries), key, chunk, now);
              entries == p.entries && complete == p.complete && warnings == old(warnings) + p.warnings
    {
      hide Sorted;
      var entry := EntryFor(entries, key, chunk, now);
      entry := entry.(parts := JsMap.Set(entry.parts, chunk.chunkOffset, chunk.chunkData));
      SetTwice(entries, key, EntryFor(entries, key, chunk, now), entry);
      SetThenDelete(entries, key, entry);
      entries := JsMap.Set(entries, key, entry);
      var assembled := Assembled(entry.parts);
      if assembled < entry.totalSize {
        assert warnings + [] == warnings;
        return None;
      }
      var sorted := Sorted(entry.parts);
      var cursor, tilingOk := Tile(sorted);
      entries := JsMap.Delete(entries, key);
      if !tilingOk || cursor != entry.totalSize {
        warnings := warnings + [BadTiling(key)];
        return None;
      }
      assert warnings + [] == warnings;
      complete := Some(Joined(sorted));
    }

    method Clear()
      modifies `entries
      ensures entries == []
    {
      entries := [];
    }
  }

  /** The loop that sums the lengths of the parts. */
  method Assembled(parts: Parts) returns (n: nat)
    ensures n == TotalLength(parts)
  {
    n := 0;
    var i := 0;
    while i < |parts|
      invariant 0 <= i <= |parts|
      invariant TotalLength(parts) == n + TotalLength(parts[i..])
    {
      assert parts[i..][1..] == parts[i + 1..];
      n := n + |parts[i].1|;
      i := i + 1;
    }
  }

  /** The loop that checks that each part starts where the one before ended. */
  method Tile(sorted: seq<(int, Bytes)>) returns (cursor: nat, ok: bool)
    ensures forall end :: TileExactly(sorted, 0, end) <==> ok && cursor == end
  {
    cursor := 0;
    var i := 0;
    while i < |sorted|
      invariant 0 <= i <= |sorted|
      invariant forall end :: TileExactly(sorted, 0, end) <==> TileExactly(sorted[i..], cursor, end)
    {
      assert sorted[i..][1..] == sorted[i + 1..];
      if sorted[i].0 != cursor {
        return cursor, false;
      }
      cursor := cursor + |sorted[i].1|;
      i := i + 1;
    }
    ok := true;
  }

  // ----- facts about the map operations of a push

  lemma SweptOfConcat(a: Entries, b: Entries, now: int)
    requires JsMap.UniqueKeys(a + b)
    ensures Swept(a + b, now) == Swept(a, now) + Swept(b, now)
  {
    if a == [] {
      assert a + b == b;
    } else {
      assert (a + b)[1..] == a[1..] + b;
      SweptOfConcat(a[1..], b, now);
    }
  }

  lemma SweptSnoc(a: Entries, x: (Bytes, Entry), now: int)
    requires JsMap.UniqueKeys(a + [x])
    ensures Swept(a + [x], now) == if x.1.expiresAt < now then Swept(a, now) else Swept(a, now) + [x]
  {
    SweptOfConcat(a, [x], now);
  }

  lemma DeleteMiddle(a: Entries, x: (Bytes, Entry), b: Entries)
    requires JsMap.UniqueKeys(a + [x] + b)
    ensures JsMap.Delete(a + [x] + b, x.0) == a + b
  {
    var m := a + [x] + b;
    JsMap.GetAt(m, |a|);
    assert m[|a|] == x;
    assert m[..|a|] == a && m[|a| + 1..] == b;
  }

  /** One step of the sweeping loop. */
  lemma SweepStart(all: Entries, now: int)
    ensures all == Swept(all[..0], now) + all[0..]
  {
  }

  lemma SweepStep(all: Entries, i: nat, now: int, m: Entries)
    requires i < |all| && m == Swept(all[..i], now) + all[i..]
    ensures (if all[i].1.expiresAt < now then JsMap.Delete(m, all[i].0) else m)
         == Swept(all[..i + 1], now) + all[i + 1..]
  {
    hide Swept, JsMap.Delete;
    assert all[..i + 1] == all[..i] + [all[i]] && all[i..] == [all[i]] + all[i + 1..];
    SweptSnoc(all[..i], all[i], now);
    assert m == Swept(all[..i], now) + [all[i]] + all[i + 1..];
    if all[i].1.expiresAt < now {
      DeleteMiddle(Swept(all[..i], now), all[i], all[i + 1..]);
    }
  }

  lemma DeleteOldest(m: Entries)
    requires m != []
    ensures JsMap.Delete(m, m[0].0) == m[1..]
  {
    JsMap.GetAt(m, 0);
  }

  lemma SetTwice(m: Entries, key: Bytes, d: Entry, e: Entry)
    ensures JsMap.Set(JsMap.Set(m, key, d), key, e) == JsMap.Set(m, key, e)
  {
    JsMap.GetOfSet(m, key, d, key);
    var i := JsMap.IndexOf(m, key);
    JsMap.GetAt(JsMap.Set(m, key, d), i);
  }

  lemma SetThenDelete(m: Entries, key: Bytes, e: Entry)
    ensures JsMap.Delete(JsMap.Set(m, key, e), key) == JsMap.Delete(m, key)
  {
    var i := JsMap.IndexOf(m, key);
    JsMap.GetAt(JsMap.Set(m, key, e), i);
  }

  lemma {:induction false} GetOfSwept(m: Entries, now: int, k: Bytes)
    ensures JsMap.Get(Swept(m, now), k)
         == match JsMap.Get(m, k) case Some(e) => (if e.expiresAt < now then None else Some(e)) case None => None
    ensures |Swept(m, now)| <= |m|
  {
    if m != [] {
      GetOfSwept(m[1..], now, k);
      if m[0].0 == k {
        var i := JsMap.IndexOf(Swept(m[1..], now), k);
      } else if m[0].1.expiresAt >= now {
        GetOfCons(m[0], Swept(m[1..], now), k);
      }
      GetOfCons(m[0], m[1..], k);
      assert m == [m[0]] + m[1..];
    }
  }

  lemma GetOfCons(x: (Bytes, Entry), m: Entries, k: Bytes)
    ensures JsMap.Get([x] + m, k) == if x.0 == k then Some(x.1) else JsMap.Get(m, k)
  {
    assert ([x] + m)[1..] == m;
  }

  lemma GetOfEvicted(m: Entries, key: Bytes, k: Bytes)
    ensures JsMap.Get(Evicted(m, key), k) == if Overflows(m, key) && k == m[0].0 then None else JsMap.Get(m, k)
    ensures |Evicted(m, key)| == if Overflows(m, key) then |m| - 1 else |m|
  {
    if Overflows(m, key) {
      DeleteOldest(m);
      JsMap.GetOfDelete(m, m[0].0, k);
    }
  }
}
