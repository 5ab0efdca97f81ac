/** The reassembler's warnings: exactly what is lost is reported. */
module ReassemblyWarnings {
  import opened Wrappers
  import opened Wire
  import opened UadpModel
  import opened Reassembler
  import opened Reassembly
  import JsMap

  /** An entry of another key that a push drops although it has not expired. */
  predicate Evicts(max: int, m: Entries, a: ChunkArrival, k: Bytes) {
    k != KeyOf(a) && Live(m, k, a.now) && JsMap.Get(Step(max, m, a).entries, k).None?
  }

  /** A chunk of acceptable size that is neither recorded nor completes its message: it or its entry is lost. */
  predicate Spoils(max: int, m: Entries, a: ChunkArrival) {
    && SizeAccepted(max, ChunkOf(a))
    && (|| !RangeAccepted(ChunkOf(a))
        || (Step(max, m, a).complete.None? && JsMap.Get(Step(max, m, a).entries, KeyOf(a)).None?))
  }

  lemma OverflowIsEviction(max: int, m: Entries, a: ChunkArrival, k: Bytes)
    requires SizeAccepted(max, ChunkOf(a))
    ensures Evicts(max, m, a, k) <==>
              Overflows(Swept(m, a.now), KeyOf(a)) && k == Swept(m, a.now)[0].0
  {
    hide Key, Step, Swept, JsMap.Get;
    var swept := Swept(m, a.now);
    if k == KeyOf(a) {
      OwnEntryNotEvicted(swept, k);
    } else {
      PushIsLocal(max, m, a, k);
      GetOfSwept(m, a.now, k);
      if Overflows(swept, KeyOf(a)) {
        OldestIsThere(swept);
      }
    }
  }

  lemma OldestIsThere(m: Entries)
    requires m != []
    ensures JsMap.Get(m, m[0].0).Some?
  {
    JsMap.GetAt(m, 0);
  }

  /** What `push` warns about: a refused size, an evicted entry, a chunk or a message that cannot be put together. */
  lemma ExactlyTheLossesAreReported(max: int, m: Entries, a: ChunkArrival, k: Bytes)
    ensures var w := Step(max, m, a).warnings;
            && (TotalSizeRejected(k) in w <==> k == KeyOf(a) && !SizeAccepted(max, ChunkOf(a)))
            && (Overflow(k) in w <==> SizeAccepted(max, ChunkOf(a)) && Evicts(max, m, a, k))
            && (BadTiling(k) in w <==> k == KeyOf(a) && Spoils(max, m, a))
            && |w| <= 2
  {
    hide Key, Swept, Found, Evicts, Spoils, JsMap.Get, JsMap.Set, JsMap.Delete, Sorted, TotalLength, TileExactly;
    if SizeAccepted(max, ChunkOf(a)) {
      OverflowIsEviction(max, m, a, k);
      BadTilingIsLoss(max, m, a);
    } else {
      NotSpoilt(max, m, a);
    }
  }

  lemma NotSpoilt(max: int, m: Entries, a: ChunkArrival)
    requires !SizeAccepted(max, ChunkOf(a))
    ensures !Spoils(max, m, a)
  {
  }

  lemma BadTilingIsLoss(max: int, m: Entries, a: ChunkArrival)
    requires SizeAccepted(max, ChunkOf(a))
    ensures BadTiling(KeyOf(a)) in Step(max, m, a).warnings <==> Spoils(max, m, a)
  {
    hide Key, Swept, Found, JsMap.Get, JsMap.Set, JsMap.Delete, Sorted, TotalLength, TileExactly;
    if RangeAccepted(ChunkOf(a)) {
      StepFound(max, m, a);
      RecordedWarns(Evicted(Swept(m, a.now), KeyOf(a)), KeyOf(a), ChunkOf(a), a.now);
    }
  }

  lemma RecordedWarns(m: Entries, key: Bytes, c: Chunk, now: int)
    ensures var p := Recorded(m, key, c, now);
            p.warnings == if p.complete.None? && JsMap.Get(p.entries, key).None? then [BadTiling(key)] else []
  {
    hide JsMap.Get, Sorted, TotalLength, TileExactly;
    var e := WithPart(EntryFor(m, key, c, now), c);
    JsMap.GetOfSet(m, key, e, key);
    JsMap.GetOfDelete(m, key, key);
  }
}
