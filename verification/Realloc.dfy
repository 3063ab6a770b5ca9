/** dlrealloc and dlrealloc_in_place. */
module Reallocs {
  import opened Memory
  import opened Layouts
  import opened Tags
  import opened Payloads
  import opened Bins
  import opened SmallBins
  import opened TreeBins
  import opened Ages
  import opened Heaps
  import opened MallocStates
  import opened Policies
  import opened Freeing
  import opened Morecores
  import opened Machines
  import opened SysAllocs
  import opened Mallocs
  import opened Bytes
  import opened UserWrites
  import opened Reallocating

  /** The count bytes at b in m' are those that were at a in m. */
  ghost predicate Carried(m: Mem, a: nat, m': Mem, b: nat, count: nat) {
    forall x: nat {:trigger Byte(m', x)} :: b <= x < b + count ==> Byte(m', x) == Byte(m, a + (x - b))
  }

  lemma CarriedOn(m0: Mem, a: nat, m1: Mem, b: nat, m2: Mem, c: nat, count: nat)
    requires Carried(m0, a, m1, b, count) && Carried(m1, b, m2, c, count)
    ensures Carried(m0, a, m2, c, count)
  {
    hide Byte;
    forall x: nat | c <= x < c + count ensures Byte(m2, x) == Byte(m0, a + (x - c)) {
      assert Byte(m2, x) == Byte(m1, b + (x - c));
    }
  }

  lemma PayloadByte(m: Mem, m': Mem, p: nat, s: nat, x: nat)
    requires PayloadKept(m, m', p, s) && p % 8 == 0 && s % 8 == 0 && p + 8 <= x < p + s + 4
    ensures Byte(m', x) == Byte(m, x)
  {
    var g := x - x % 8;
    assert x < p + s ==> SameAt(m, m', g);
  }

  lemma PayloadCarried(m: Mem, m': Mem, p: nat, s: nat, count: nat)
    requires PayloadKept(m, m', p, s) && p % 8 == 0 && s % 8 == 0 && count + CHUNK_OVERHEAD <= s
    ensures Carried(m, p + 8, m', p + 8, count)
  {
    hide Byte, PayloadKept;
    forall x: nat | p + 8 <= x < p + 8 + count ensures Byte(m', x) == Byte(m, x) { PayloadByte(m, m', p, s, x); }
  }

  /** The block at p lives on at q with room for `bytes`, its contents carried over as far as both reach, and
      every other block is as it was. */
  ghost predicate Reallocated(m: MallocState, core: LinearMemory, v0: View, m0: Mem, p: nat, q: nat, bytes: nat)
    reads m, core
  {
    && Valid(m, core) && p in Live(v0.l) && Live(v0.l)[p] >= 16 && q in Live(m.view.l) && (q == p || q !in Live(v0.l))
    && PaddedSize(bytes) <= Live(m.view.l)[q] < PaddedSize(bytes) + MIN_CHUNK_SIZE
    && Live(m.view.l) == (Live(v0.l) - {p})[q := Live(m.view.l)[q]]
    && Quiet(Live(v0.l) - {p}, m0, m.mem)
    && Carried(m0, ChunkToMem(p), m.mem, ChunkToMem(q), Min(Live(v0.l)[p] - CHUNK_OVERHEAD, bytes))
    && SteadySince(v0, m.view)
  }

  lemma LiveFacts(st: Store, sb: nat, v: View, loose: set<nat>, p: nat)
    requires Core(st, sb, v, loose) && p in Live(v.l)
    ensures p in v.l.chunks && v.l.chunks[p].inuse && v.l.chunks[p].size == Live(v.l)[p] >= 16
    ensures Live(v.l)[p] % 8 == 0 && p % 8 == 0
    ensures ChunkSize(st.mem, p) == Live(v.l)[p] && p >= v.l.first > 0
  {
    InUseFacts(st, sb, v, loose, p);
  }

  /** A resized chunk is a reallocated one. */
  lemma ResizedInPlace(m: MallocState, core: LinearMemory, v0: View, m0: Mem, p: nat, bytes: nat)
    requires Valid(m, core) && m.top != 0 && Resized(m, v0, m0, p, PaddedSize(bytes)) && bytes < MAX_REQUEST
    requires Live(v0.l)[p] % 8 == 0
    requires Live(v0.l)[p] >= 16
    ensures Reallocated(m, core, v0, m0, p, p, bytes)
  {
    hide Core, Quiet, Steady, Valid, PaddedSize, Carried;
    PaddedEnough(bytes);
    LiveFacts(m.St(), m.sb, m.view, m.Resting(), p);
    var k := Min(Live(v0.l)[p], Live(m.view.l)[p]);
    var clipped := Live(v0.l)[p := k];
    assert PayloadKept(m0, m.mem, p, clipped[p]) by { KeptOf(clipped, m0, m.mem, p); }
    PayloadCarried(m0, m.mem, p, k, Min(Live(v0.l)[p] - CHUNK_OVERHEAD, bytes));
    QuietFewer(clipped, Live(v0.l) - {p}, m0, m.mem);
    assert (Live(v0.l) - {p})[p := Live(m.view.l)[p]] == Live(v0.l)[p := Live(m.view.l)[p]];
  }

  lemma KeptOf(live: map<nat, nat>, m: Mem, m': Mem, p: nat)
    requires Quiet(live, m, m') && p in live
    ensures PayloadKept(m, m', p, live[p])
  {
  }

  /** Segment bookkeeping is untouched when only chunks change. */
  lemma SegmentHolds(m: MallocState, core: LinearMemory, l0: Layout)
    requires core.Valid() && core.heapEnd % 8 == 0 && m.Placed() && m.Settled() && m.view.l.first == l0.first
    requires m.view.l.end == l0.end
    requires m.segBase + m.segSize == core.heapEnd == l0.end + TOP_FOOT_SIZE
    requires l0.first == m.segBase + AlignOffset(m.segBase)
    requires m.leastAddr == m.segBase && m.heapBase <= m.segBase && m.footprint == m.segSize <= m.maxFootprint
    ensures Valid(m, core)
  {
    hide Core;
  }

  /** try_realloc_chunk under the whole invariant. */
  method TryInPlace(m: MallocState, core: LinearMemory, p: nat, bytes: nat) returns (newp: nat)
    requires Valid(m, core) && p in Live(m.view.l) && bytes < MAX_REQUEST
    modifies m`mem, m`smallmap, m`treemap, m`treebins, m`view, m`top, m`topsize, m`dv, m`dvsize
    ensures Valid(m, core) && m.top != 0 && p in old(m.view.l.chunks)
    ensures newp == (if FitsInPlace(old(m.view.l), p, PaddedSize(bytes)) then p else 0) && p != 0
    ensures newp != 0 ==> Reallocated(m, core, old(m.view), old(m.mem), p, p, bytes)
    ensures HeapOf(m) == if newp != 0 then AfterResize(old(HeapOf(m)), p, PaddedSize(bytes)) else old(HeapOf(m))
    ensures newp == 0 ==> m.view == old(m.view) && m.St() == old(m.St())
  {
    hide Core, Quiet, PaddedSize, Carried, FitsInPlace, Reallocated, Resized, AfterResize;
    PaddedEnough(bytes);
    ghost var v0, m0 := m.view, m.mem;
    assert m.top != 0;
    LiveFacts(m.St(), m.sb, m.view, m.Resting(), p);
    newp := TryReallocChunk(m, p, PaddedSize(bytes));
    assert m.view.l.first == v0.l.first && m.view.l.end == v0.l.end && m.Settled() by {
      ResizedSegment(m, v0, m0, p, PaddedSize(bytes));
    }
    SegmentHolds(m, core, v0.l);
    if newp != 0 { ResizedInPlace(m, core, v0, m0, p, bytes); }
  }

  lemma ResizedSegment(m: MallocState, v0: View, m0: Mem, p: nat, nb: nat)
    ensures Resized(m, v0, m0, p, nb) ==> m.view.l.first == v0.l.first && m.view.l.end == v0.l.end && m.Settled()
  {
    hide Core;
  }

  /** The new block q before the old one is freed. */
  ghost predicate Copied(m: MallocState, core: LinearMemory, v0: View, m0: Mem, p: nat, q: nat, bytes: nat)
    reads m, core
  {
    && Served(m, core, v0, m0, q, PaddedSize(bytes)) && p in Live(v0.l) && Live(v0.l)[p] >= 16
    && Carried(m0, ChunkToMem(p), m.mem, ChunkToMem(q), Min(Live(v0.l)[p] - CHUNK_OVERHEAD, bytes))
  }

  lemma LiveApart(st: Store, sb: nat, v: View, loose: set<nat>, p: nat, q: nat)
    requires Core(st, sb, v, loose) && p in Live(v.l) && q in Live(v.l) && p != q
    ensures p + Live(v.l)[p] <= q || q + Live(v.l)[q] <= p
  {
    hide SmallReady, TreeReady, Tagged, Binned;
    assert ApartAt(v.l, p, q) && ApartAt(v.l, q, p);
  }

  lemma CopyFacts(m: MallocState, core: LinearMemory, p: nat, q: nat, bytes: nat, v0: View, m0: Mem)
    requires Served(m, core, v0, m0, q, PaddedSize(bytes)) && p in Live(v0.l) && bytes < MAX_REQUEST
    ensures p in Live(m.view.l) && p != q && Live(m.view.l)[p] == Live(v0.l)[p] >= 16
    ensures Live(m.view.l) - {q} == Live(v0.l)
    ensures q in Live(m.view.l) && Live(m.view.l)[q] >= bytes + CHUNK_OVERHEAD
    ensures p in m.view.l.chunks && q in m.view.l.chunks && m.view.l.chunks[q].size == Live(m.view.l)[q]
    ensures Live(m.view.l)[p] % 8 == 0 && p % 8 == 0 && Live(m.view.l)[q] % 8 == 0 && q % 8 == 0
    ensures ChunkSize(m.mem, p) == Live(v0.l)[p] && m.view.l.chunks[q].inuse
    ensures p + Live(m.view.l)[p] <= q || q + Live(m.view.l)[q] <= p
  {
    hide Core, Quiet, Steady, PaddedSize;
    PaddedEnough(bytes);
    LiveFacts(m.St(), m.sb, m.view, m.Resting(), p);
    LiveFacts(m.St(), m.sb, m.view, m.Resting(), q);
    LiveApart(m.St(), m.sb, m.view, m.Resting(), p, q);
  }

  /** Copy as much of the old contents as the new block is asked to hold. */
  method CopyBlock(m: MallocState, core: LinearMemory, p: nat, q: nat, bytes: nat, ghost v0: View, ghost m0: Mem)
    requires Served(m, core, v0, m0, q, PaddedSize(bytes)) && p in Live(v0.l) && bytes < MAX_REQUEST
    modifies m`mem
    ensures HeapOf(m) == old(HeapOf(m))
    ensures Copied(m, core, v0, m0, p, q, bytes)
  {
    hide Core, Quiet, Steady, PaddedSize, Carried, WordsOutside, Byte, Live, TopDv;
    ghost var st := m.St();
    CopyFacts(m, core, p, q, bytes, v0, m0);
    var oc := ChunkSize(m.mem, p) - CHUNK_OVERHEAD;
    var count := if oc < bytes then oc else bytes;
    PayloadCarried(m0, m.mem, p, Live(v0.l)[p], count) by { KeptOf(Live(v0.l), m0, m.mem, p); }
    m.mem := Memcpy(m.mem, ChunkToMem(q), ChunkToMem(p), count);
    CoreUserWrites(st, m.sb, m.view, m.Resting(), q, q + 8, q + 8 + count, m.mem);
    QuietTransitive(Live(v0.l), m0, st.mem, m.mem);
    CopiedCarried(st.mem, m.mem, p + 8, q + 8, count);
    CarriedOn(m0, p + 8, st.mem, p + 8, m.mem, q + 8, count);
  }

  lemma CopiedCarried(m: Mem, m': Mem, a: nat, b: nat, count: nat)
    requires forall x: nat {:trigger Byte(m', x)} ::
      Byte(m', x) == if b <= x < b + count then Byte(m, a + (x - b)) else Byte(m, x)
    ensures Carried(m, a, m', b, count)
  {
    hide Byte;
  }

  /** internal_free under the whole invariant. */
  method FreeSince(m: MallocState, core: LinearMemory, mem: nat, ghost v0: View)
    requires Valid(m, core) && mem >= 8 && MemToChunk(mem) in Live(m.view.l)
    requires m.view.l == v0.l && SteadySince(v0, m.view) && Unlisted(v0.lists, v0.l, MemToChunk(mem))
    modifies m`mem, m`smallmap, m`treemap, m`treebins, m`view, m`top, m`topsize, m`dv, m`dvsize
    ensures Valid(m, core) && m.top != 0 && Freed(m, v0, old(m.mem), MemToChunk(mem))
    ensures HeapOf(m) == AfterFree(old(HeapOf(m)), MemToChunk(mem))
  {
    hide Core, Quiet, Steady, Unlisted, AfterFree;
    assert m.top != 0;
    InternalFree(m, mem, v0);
    SegmentHolds(m, core, v0.l);
  }

  /** dlfree under the whole invariant. */
  method DlFree(m: MallocState, core: LinearMemory, mem: nat)
    requires Valid(m, core) && (mem != NULL ==> mem >= 8 && MemToChunk(mem) in Live(m.view.l))
    modifies m`mem, m`smallmap, m`treemap, m`treebins, m`view, m`top, m`topsize, m`dv, m`dvsize
    ensures Valid(m, core)
    ensures mem != NULL ==> m.top != 0 && Freed(m, old(m.view), old(m.mem), MemToChunk(mem))
    ensures HeapOf(m) == if mem == NULL then old(HeapOf(m)) else AfterFree(old(HeapOf(m)), MemToChunk(mem))
    ensures mem == NULL ==> m.view == old(m.view) && m.St() == old(m.St())
  {
    hide Core, Quiet, Steady, AfterFree;
    ghost var l0 := m.view.l;
    if mem != NULL {
      assert m.top != 0;
      Free(m, mem);
      SegmentHolds(m, core, l0);
    }
  }

  /** internal_free(m, oldmem), once the contents have moved to q. */
  method FreeOld(m: MallocState, core: LinearMemory, p: nat, q: nat, bytes: nat, ghost v0: View, ghost m0: Mem)
    requires Copied(m, core, v0, m0, p, q, bytes) && bytes < MAX_REQUEST && Orderly(v0)
    modifies m`mem, m`smallmap, m`treemap, m`treebins, m`view, m`top, m`topsize, m`dv, m`dvsize
    ensures HeapOf(m) == AfterFree(old(HeapOf(m)), p)
    ensures Reallocated(m, core, v0, m0, p, q, bytes) && Valid(m, core)
  {
    hide Core, Quiet, Steady, PaddedSize, Carried, Valid, Orderly, Unlisted, AfterFree;
    PaddedEnough(bytes);
    ghost var l1, m1 := m.view.l, m.mem;
    ghost var count := Min(Live(v0.l)[p] - CHUNK_OVERHEAD, bytes);
    assert p in Live(l1) && p != q && Live(l1)[q] >= PaddedSize(bytes);
    LiveUnlisted(v0, l1, p);
    FreeSince(m, core, ChunkToMem(p), v0.(l := l1));
    assert Live(m.view.l) == Live(l1) - {p} == (Live(v0.l) - {p})[q := Live(l1)[q]];
    LiveFacts(m.St(), m.sb, m.view, m.Resting(), q);
    PayloadCarried(m1, m.mem, q, Live(l1)[q], count) by { KeptOf(Live(m.view.l), m1, m.mem, q); }
    CarriedOn(m0, p + 8, m1, q + 8, m.mem, q + 8, count);
    QuietThen(Live(v0.l), Live(v0.l) - {p}, m0, m1, m1) by { QuietSame(Live(v0.l) - {p}, m1); }
    QuietFewer(Live(m.view.l), Live(v0.l) - {p}, m1, m.mem);
    QuietTransitive(Live(v0.l) - {p}, m0, m1, m.mem);
  }

  lemma OrderWhereLive(m: MallocState, core: LinearMemory, p: nat)
    requires Valid(m, core) && p in Live(m.view.l)
    ensures Orderly(m.view)
  {
    hide Core, Steady, Orderly;
    assert m.top != 0;
    OrderNow(m);
  }

  /** dlrealloc of the block at oldmem answers mem and leaves s'. */
  ghost predicate ReallocStep(s: Machine, oldmem: nat, bytes: nat, mem: nat, s': Machine) {
    var nb := PaddedSize(bytes);
    if oldmem == NULL then MallocStep(s, nb, mem, s')
    else if bytes >= MAX_REQUEST then mem == NULL && s' == s
    else
      && oldmem >= 8 && MemToChunk(oldmem) in s.heap.l.chunks
      && (if FitsInPlace(s.heap.l, MemToChunk(oldmem), nb) then
            mem == oldmem && s' == s.(heap := AfterResize(s.heap, MemToChunk(oldmem), nb))
          else
            var h := MallocHeap(Primed(s), nb, s'.room);
            && MallocStep(s, nb, mem, Machine(h, s'.room))
            && s'.heap == if mem == NULL then h else AfterFree(h, MemToChunk(oldmem)))
  }

  /** dlrealloc_in_place. */
  ghost predicate ReallocInPlaceStep(s: Machine, oldmem: nat, bytes: nat, mem: nat, s': Machine) {
    var nb := PaddedSize(bytes);
    if oldmem == NULL || bytes >= MAX_REQUEST then mem == NULL && s' == s
    else
      && oldmem >= 8 && MemToChunk(oldmem) in s.heap.l.chunks
      && (if FitsInPlace(s.heap.l, MemToChunk(oldmem), nb) then
            mem == oldmem && s' == s.(heap := AfterResize(s.heap, MemToChunk(oldmem), nb))
          else mem == NULL && s' == s)
  }

  /** dlrealloc.  A null pointer makes it dlmalloc; a failure leaves the old block and everything else as it was. */
  method Realloc(m: MallocState, core: LinearMemory, oldmem: nat, bytes: nat) returns (mem: nat)
    requires Valid(m, core) && (oldmem != NULL ==> oldmem >= 8 && MemToChunk(oldmem) in Live(m.view.l))
    modifies m, core
    ensures Valid(m, core) && m.footprintLimit == old(m.footprintLimit)
    ensures oldmem == NULL && mem != NULL ==>
      mem >= 8 && Served(m, core, old(m.view), old(m.mem), MemToChunk(mem), PaddedSize(bytes))
    ensures mem == NULL ==> Unserved(m, old(m.view), old(m.mem))
    ensures oldmem != NULL && mem == NULL ==>
      m.view == old(m.view) && m.St() == old(m.St()) && core.heapEnd == old(core.heapEnd)
    ensures oldmem != NULL && mem != NULL ==> mem >= 8 && bytes < MAX_REQUEST
    ensures oldmem != NULL && mem != NULL ==>
      Reallocated(m, core, old(m.view), old(m.mem), MemToChunk(oldmem), MemToChunk(mem), bytes)
    ensures bytes >= MAX_REQUEST ==> mem == NULL
    ensures oldmem != NULL && bytes < MAX_REQUEST ==>
      (FitsInPlace(old(m.view.l), MemToChunk(oldmem), PaddedSize(bytes)) ==> mem == oldmem)
    ensures oldmem != NULL && mem == NULL && bytes < MAX_REQUEST ==> NothingFree(m.view.l, PaddedSize(bytes))
    ensures ReallocStep(old(MachineOf(m, core)), oldmem, bytes, mem, MachineOf(m, core))
  {
    hide Core, Quiet, Steady, PaddedSize, Carried, GrantGrown, FitsInPlace, Reallocated, NothingFree, ValidUpTo,
      MallocStep, Primed, MallocHeap, AfterResize, AfterFree, Orderly;
    ghost var s := MachineOf(m, core);
    QuietSame(Live(m.view.l), m.mem);
    mem := NULL;
    PaddedEnough(bytes);
    if oldmem == NULL {
      mem := Malloc(m, core, bytes);
    } else if bytes < MAX_REQUEST {
      var oldp := MemToChunk(oldmem);
      OrderWhereLive(m, core, oldp);
      var newp := TryInPlace(m, core, oldp, bytes);
      if newp != 0 {
        mem := ChunkToMem(newp);
      } else {
        mem := Malloc(m, core, bytes);
        StepParts(s, PaddedSize(bytes), mem, MachineOf(m, core));
        if mem != NULL {
          CopyBlock(m, core, oldp, MemToChunk(mem), bytes, old(m.view), old(m.mem));
          FreeOld(m, core, oldp, MemToChunk(mem), bytes, old(m.view), old(m.mem));
        }
      }
    }
  }

  /** dlrealloc_in_place. */
  method ReallocInPlace(m: MallocState, core: LinearMemory, oldmem: nat, bytes: nat) returns (mem: nat)
    requires Valid(m, core) && (oldmem != NULL ==> oldmem >= 8 && MemToChunk(oldmem) in Live(m.view.l))
    modifies m`mem, m`smallmap, m`treemap, m`treebins, m`view, m`top, m`topsize, m`dv, m`dvsize
    ensures Valid(m, core)
    ensures ReallocInPlaceStep(old(MachineOf(m, core)), oldmem, bytes, mem, MachineOf(m, core))
    ensures mem == NULL || mem == oldmem
    ensures mem == NULL ==> m.view == old(m.view) && m.St() == old(m.St())
    ensures mem != NULL ==> Reallocated(m, core, old(m.view), old(m.mem), MemToChunk(mem), MemToChunk(mem), bytes)
    ensures mem != NULL <==>
      oldmem != NULL && bytes < MAX_REQUEST && FitsInPlace(old(m.view.l), MemToChunk(oldmem), PaddedSize(bytes))
  {
    hide Core, Quiet, Steady, PaddedSize, FitsInPlace, Reallocated, ValidUpTo, AfterResize;
    mem := NULL;
    if oldmem != NULL {
      if bytes < MAX_REQUEST {
        var oldp := MemToChunk(oldmem);
        var newp := TryInPlace(m, core, oldp, bytes);
        if newp == oldp {
          mem := oldmem;
        }
      }
    }
  }
}
