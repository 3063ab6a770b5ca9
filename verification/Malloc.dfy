/** dlmalloc, and dlfree over the whole state. */
module Mallocs {
  import opened Memory
  import opened Layouts
  import opened Tags
  import opened Payloads
  import opened Bins
  import opened BinMaps
  import opened SmallBins
  import opened TreeIndices
  import opened TreeBins
  import opened Ages
  import opened Heaps
  import opened MallocStates
  import opened Policies
  import opened Freeing
  import opened Searching
  import opened Allocating
  import opened Morecores
  import opened Machines
  import opened SysAllocs

  const MAX_REQUEST: nat := 0xFFFF_FFC0
  const MIN_REQUEST: nat := 11
  const MAX_SMALL_REQUEST: nat := 244
  const CHUNK_OVERHEAD: nat := 4

  /** pad_request. */
  function PadRequest(bytes: nat): nat { (bytes + CHUNK_OVERHEAD + 7) / 8 * 8 }

  /** request2size. */
  function Request2Size(bytes: nat): nat {
    if bytes < MIN_REQUEST then MIN_CHUNK_SIZE else PadRequest(bytes)
  }

  /** The chunk size dlmalloc looks for. */
  function PaddedSize(bytes: nat): nat {
    if bytes >= MAX_REQUEST then MAX_SIZE else Request2Size(bytes)
  }

  lemma PaddedEnough(bytes: nat)
    ensures RequestSize(PaddedSize(bytes))
    ensures bytes < MAX_REQUEST ==>
      && bytes + CHUNK_OVERHEAD <= PaddedSize(bytes) < MAX_SIZE && PaddedSize(bytes) >= 16 && PaddedSize(bytes) % 8 == 0
      && (PaddedSize(bytes) == 16 || PaddedSize(bytes) < bytes + 12)
    ensures bytes >= MAX_REQUEST <==> PaddedSize(bytes) == MAX_SIZE
    ensures bytes <= MAX_SMALL_REQUEST <==> PaddedSize(bytes) < MIN_LARGE_SIZE
  {
  }

  /** No free chunk could have met the request; top must keep at least 8 bytes. */
  ghost predicate NothingFree(l: Layout, nb: nat) {
    forall p {:trigger l.chunks[p]} :: p in l.chunks && !l.chunks[p].inuse ==>
      l.chunks[p].size < nb || (l.chunks[p].size == nb && Next(l, p) == l.end)
  }

  /** How dlmalloc picks the chunk at p: dv where that is to be preferred; otherwise the smallest binned one that
      fits; and the front of top, grown if need be, when nothing else fits. */
  ghost predicate Chosen(v: View, dv: nat, dvsize: nat, top: nat, nb: nat, p: nat) {
    if !PassedOver(v.lists, dvsize, nb) then SmallestListed(v, p, nb)
    else if nb <= dvsize then p == dv
    else p == top
  }

  lemma LargeSmallest(st: Store, sb: nat, v: View, loose: set<nat>, nb: nat, c: nat, rsize: nat)
    requires Core(st, sb, v, loose) && nb >= MIN_LARGE_SIZE && BestFit(v, nb, c, rsize) && c != 0
    ensures SmallestListed(v, c, nb) && c in v.l.chunks && v.l.chunks[c].size == rsize + nb
  {
    hide Core;
    SmallestChunk(st, sb, v, loose, nb, c, rsize);
  }

  lemma LargeFetched(st: Store, sb: nat, v: View, loose: set<nat>, h: Heap, nb: nat, c: nat, rsize: nat)
    requires Core(st, sb, v, loose) && nb >= MIN_LARGE_SIZE && BestFit(v, nb, c, rsize) && c != 0
    requires h.lists == v.lists && (h.dvsize < nb || rsize + nb < h.dvsize)
    ensures Fetched(h, nb, c, FromBin(h, rsize + nb, nb))
  {
    hide Core, FromBin, Fetched;
    LargeSmallest(st, sb, v, loose, nb, c, rsize);
    assert rsize + nb in h.lists && nb <= rsize + nb;
    BinFetched(h, nb, rsize + nb);
  }

  /** No chunk is as large as the size that stands for a request too large to meet. */
  lemma NothingThatLarge(st: Store, sb: nat, v: View, loose: set<nat>)
    requires Core(st, sb, v, loose)
    ensures NothingListed(v.lists, MAX_SIZE)
  {
    hide SmallReady, TreeReady, Tagged;
    forall s | s in v.lists ensures s < MAX_SIZE { MemberFits(v.l, v.lists, loose, s, 0); }
  }

  lemma NoTreeNoLarge(st: Store, sb: nat, v: View, loose: set<nat>, nb: nat)
    requires Core(st, sb, v, loose) && nb >= MIN_LARGE_SIZE && st.treemap == 0
    ensures NothingListed(v.lists, nb)
  {
    hide Core, Marked;
    forall s | s in v.lists ensures s < nb { ListedSmall(st, sb, v, loose, s); }
  }

  /** dlmalloc's large path through the trees. */
  method MallocLarge(m: MallocState, nb: nat) returns (mem: nat)
    requires m.Settled() && nb >= MIN_LARGE_SIZE && nb % 8 == 0 && nb < WORD
    modifies m`mem, m`smallmap, m`treemap, m`treebins, m`view
    ensures mem != NULL ==> mem >= 8 && Allocated(m, old(m.view), old(m.mem), MemToChunk(mem), nb)
    ensures mem != NULL ==> SmallestListed(old(m.view), MemToChunk(mem), nb)
    ensures mem != NULL ==> Fetched(old(HeapOf(m)), nb, MemToChunk(mem), HeapOf(m))
    ensures mem == NULL ==> m.view == old(m.view) && m.St() == old(m.St())
    ensures mem == NULL <==> PassedOver(old(m.view.lists), old(m.dvsize), nb)
  {
    hide Core, Quiet, Steady, Grant, BestFit, FromBin, Fetched;
    ghost var h := HeapOf(m);
    ghost var v0, st0, loose := m.view, m.St(), m.Resting();
    mem := NULL;
    if m.treemap != 0 {
      ghost var rsize;
      mem, rsize := TmallocLarge(m, nb);
      if mem != NULL {
        LargeSmallest(st0, m.sb, v0, loose, nb, MemToChunk(mem), rsize);
        LargeFetched(st0, m.sb, v0, loose, h, nb, MemToChunk(mem), rsize);
      }
    } else {
      NoTreeNoLarge(st0, m.sb, v0, loose, nb);
    }
  }

  /** What the bins hold before any memory is found: every test of both paths through them fails. */
  lemma BlankBins(m: MallocState, nb: nat)
    requires m.Blank() && 16 <= nb < MIN_LARGE_SIZE
    ensures And(From(m.smallmap, SmallIndex(nb)), 3) == 0 && From(m.smallmap, SmallIndex(nb)) == 0
    ensures m.treemap == 0 && nb > m.dvsize && nb >= m.topsize
  {
    hide Idx;
    ZeroBits(Idx(SmallIndex(nb)));
  }

  lemma BlankServes(m: MallocState, nb: nat)
    requires m.Blank() && nb >= 16
    ensures !Serves(HeapOf(m), nb)
  {
    hide DvPreferred;
  }

  lemma ZeroBits(k: bv32)
    requires k < 32
    ensures ShiftRight(0, k) == 0 && And(0, 3) == 0
  {
  }

  /** The chunk at p, live with room for nb, was chosen as documented. */
  ghost predicate Picked(m: MallocState, v0: View, m0: Mem, dv: nat, dvsize: nat, top: nat, p: nat, nb: nat)
    reads m
  {
    Allocated(m, v0, m0, p, nb) && Chosen(v0, dv, dvsize, top, nb, p)
  }

  /** dlmalloc up to its use of dv: the size to look for, and a chunk from a bin if one is to be preferred. */
  method MallocFromBins(m: MallocState, bytes: nat) returns (nb: nat, mem: nat)
    requires m.Settled()
    modifies m`mem, m`smallmap, m`treemap, m`treebins, m`view, m`dv, m`dvsize
    ensures nb == PaddedSize(bytes)
    ensures mem != NULL ==>
      mem >= 8 && bytes < MAX_REQUEST
        && Picked(m, old(m.view), old(m.mem), old(m.dv), old(m.dvsize), old(m.top), MemToChunk(mem), nb)
    ensures mem != NULL ==> Fetched(old(HeapOf(m)), nb, MemToChunk(mem), HeapOf(m))
    ensures mem == NULL ==>
      m.view == old(m.view) && m.St() == old(m.St()) && m.dv == old(m.dv) && m.dvsize == old(m.dvsize)
    ensures mem == NULL <==> PassedOver(old(m.view.lists), old(m.dvsize), nb)
  {
    hide Core, Quiet, Steady, Grant, Fetched, NothingListed, DvPreferred;
    PaddedEnough(bytes);
    mem := NULL;
    if bytes <= MAX_SMALL_REQUEST {
      nb := if bytes < MIN_REQUEST then MIN_CHUNK_SIZE else PadRequest(bytes);
      mem := MallocSmall(m, nb);
    } else if bytes >= MAX_REQUEST {
      nb := MAX_SIZE;
      NothingThatLarge(m.St(), m.sb, m.view, m.Resting());
      DvSize(m);
    } else {
      nb := PadRequest(bytes);
      mem := MallocLarge(m, nb);
    }
  }

  lemma NothingFreeFits(st: Store, sb: nat, v: View, loose: set<nat>, dv: nat, dvsize: nat, top: nat, topsize: nat,
          nb: nat)
    requires Core(st, sb, v, loose) && NothingListed(v.lists, nb) && dvsize < nb && topsize <= nb
    requires top in v.l.chunks && v.l.chunks[top].size == topsize && Next(v.l, top) == v.l.end
    requires loose == (if dvsize > 0 then {top, dv} else {top})
    requires (dvsize > 0 ==> dv in v.l.chunks && v.l.chunks[dv].size == dvsize)
    ensures NothingFree(v.l, nb)
  {
    hide SmallReady, TreeReady, Tagged;
    forall p | p in v.l.chunks && !v.l.chunks[p].inuse
      ensures v.l.chunks[p].size < nb || (v.l.chunks[p].size == nb && Next(v.l, p) == v.l.end)
    {
      assert FoundAt(v.l, v.lists, loose, p);
    }
  }

  lemma BinServes(h: Heap, nb: nat)
    requires !PassedOver(h.lists, h.dvsize, nb)
    ensures Serves(h, nb)
  {
    hide PassedOver;
  }

  /** dlmalloc without new memory: a bin, dv, or top. */
  method MallocFromHeap(m: MallocState, bytes: nat) returns (nb: nat, mem: nat)
    requires m.Settled()
    modifies m`mem, m`smallmap, m`treemap, m`treebins, m`view, m`dv, m`dvsize, m`top, m`topsize
    ensures nb == PaddedSize(bytes)
    ensures mem != NULL ==>
      mem >= 8 && bytes < MAX_REQUEST
        && Picked(m, old(m.view), old(m.mem), old(m.dv), old(m.dvsize), old(m.top), MemToChunk(mem), nb)
    ensures mem == NULL ==>
      m.view == old(m.view) && m.St() == old(m.St()) && m.dv == old(m.dv) && m.dvsize == old(m.dvsize)
    ensures mem != NULL ==>
      Serves(old(HeapOf(m)), nb) && Fetched(old(HeapOf(m)), nb, MemToChunk(mem), HeapOf(m))
    ensures mem == NULL ==> !Serves(HeapOf(m), nb) && HeapOf(m) == old(HeapOf(m))
    ensures mem == NULL ==> m.top == old(m.top) && m.topsize == old(m.topsize) && nb >= m.topsize && nb > m.dvsize
    ensures mem == NULL && bytes < MAX_REQUEST ==> NothingListed(m.view.lists, nb)
  {
    hide Core, Quiet, Steady, Grant, NothingListed, DvPreferred, SmallestListed,
      Fetched, Serves, FromDv, FromTop;
    ghost var h := HeapOf(m);
    PaddedEnough(bytes);
    DvSize(m);
    nb, mem := MallocFromBins(m, bytes);
    if mem == NULL {
      assert nb == MAX_SIZE ==> nb > m.dvsize && nb >= m.topsize;
      if nb <= m.dvsize {
        DvFetched(h, nb);
        mem := UseDv(m, nb);
      } else if nb < m.topsize {
        TopFetched(h, nb);
        mem := UseTop(m, nb);
      } else {
        NotServed(h, nb);
      }
    } else {
      BinServes(h, nb);
    }
  }

  /** A chunk granted within the segment is served. */
  lemma AllocatedServed(m: MallocState, core: LinearMemory, v0: View, m0: Mem, p: nat, nb: nat)
    requires core.Valid() && core.heapEnd % 8 == 0 && Allocated(m, v0, m0, p, nb)
    requires m.segBase + m.segSize == core.heapEnd == v0.l.end + TOP_FOOT_SIZE
    requires v0.l.first == m.segBase + AlignOffset(m.segBase)
    requires m.leastAddr == m.segBase && m.heapBase <= m.segBase && m.footprint == m.segSize <= m.maxFootprint
    requires m.Placed()
    ensures Served(m, core, v0, m0, p, nb)
  {
    hide Core, Quiet;
  }

  /** dlmalloc once there is a top: bins, dv, top, and only then the system. */
  method MallocSettled(m: MallocState, core: LinearMemory, bytes: nat) returns (mem: nat)
    requires Valid(m, core) && m.top != 0
    modifies m, core
    ensures Valid(m, core) && m.footprintLimit == old(m.footprintLimit)
    ensures ServedStep(old(MachineOf(m, core)), PaddedSize(bytes), mem, MachineOf(m, core))
    ensures mem == NULL ==> m.view == old(m.view) && m.St() == old(m.St()) && core.heapEnd == old(core.heapEnd)
    ensures mem == NULL ==> m.top == old(m.top) && m.dv == old(m.dv)
    ensures mem == NULL && bytes < MAX_REQUEST ==> NothingFree(m.view.l, PaddedSize(bytes))
    ensures mem != NULL ==> mem >= 8 && bytes < MAX_REQUEST
    ensures mem != NULL ==> Served(m, core, old(m.view), old(m.mem), MemToChunk(mem), PaddedSize(bytes))
    ensures mem != NULL ==>
      Chosen(old(m.view), old(m.dv), old(m.dvsize), old(m.top), PaddedSize(bytes), MemToChunk(mem))
  {
    hide Core, Quiet, Steady, Grant, GrantGrown, PaddedSize, NothingListed, DvPreferred, SmallestListed, NothingFree,
      Fetched, Serves, Sought, SoughtHeap, SoughtAnswer, ServedStep;
    ghost var s := MachineOf(m, core);
    PaddedEnough(bytes);
    var nb;
    nb, mem := MallocFromHeap(m, bytes);
    if mem != NULL {
      FetchedStep(s, nb, MemToChunk(mem), MachineOf(m, core));
      AllocatedServed(m, core, old(m.view), old(m.mem), MemToChunk(mem), nb);
    } else {
      if bytes < MAX_REQUEST {
        NothingFreeFits(m.St(), m.sb, m.view, m.Resting(), m.dv, m.dvsize, m.top, m.topsize, nb);
      }
      mem := SysAlloc(m, core, nb);
      SoughtStep(s, nb, mem, MachineOf(m, core));
    }
  }

  /** dlmalloc with no memory yet: BlankBins tells that the bins, dv and top are all passed over. */
  method MallocBlank(m: MallocState, core: LinearMemory, bytes: nat) returns (mem: nat)
    requires Valid(m, core) && m.top == 0
    modifies m, core
    ensures Valid(m, core) && m.footprintLimit == old(m.footprintLimit)
    ensures ServedStep(old(MachineOf(m, core)), PaddedSize(bytes), mem, MachineOf(m, core))
    ensures mem == NULL ==> m.view == old(m.view) && core.heapEnd == old(core.heapEnd) && m.mem == old(m.mem)
    ensures mem != NULL ==> mem >= 8 && bytes < MAX_REQUEST
    ensures mem != NULL ==> Served(m, core, old(m.view), old(m.mem), MemToChunk(mem), PaddedSize(bytes))
  {
    hide Core, Quiet, Steady, GrantGrown, PaddedSize, Request2Size, Serves, Sought, SoughtHeap,
      SoughtAnswer, ServedStep;
    ghost var s := MachineOf(m, core);
    PaddedEnough(bytes);
    var nb := PaddedSize(bytes);
    if nb < MIN_LARGE_SIZE {
      BlankBins(m, nb);
    }
    BlankServes(m, nb);
    assert m.dvsize < nb && m.topsize <= nb;
    mem := SysAlloc(m, core, nb);
    SoughtStep(s, nb, mem, MachineOf(m, core));
  }

  lemma AfterInit(m: MallocState, core: LinearMemory, v0: View, v1: View, m0: Mem, m1: Mem, p: nat, nb: nat)
    requires Served(m, core, v1, m1, p, nb) && Live(v1.l) == map[] && v0.l.chunks == map[] && v0.l.end == 0
    requires SameLists(v0, v1)
    ensures Served(m, core, v0, m0, p, nb)
  {
    hide Core, Valid, Steady;
    assert Live(v0.l) == map[];
    NothingQuiet(m0, m.mem);
  }

  /** The request was not met, and nothing is lost by that. */
  ghost predicate Unserved(m: MallocState, v0: View, m0: Mem)
    reads m
  {
    Live(m.view.l) == Live(v0.l) && Quiet(Live(m.view.l), m0, m.mem) && SameLists(v0, m.view)
  }

  lemma PrimedOnce(m: MallocState, core: LinearMemory)
    ensures m.top != 0 ==> Primed(MachineOf(m, core)) == MachineOf(m, core)
  {
  }

  /** dlmalloc. */
  method Malloc(m: MallocState, core: LinearMemory, bytes: nat) returns (mem: nat)
    requires Valid(m, core)
    modifies m, core
    ensures Valid(m, core) && m.footprintLimit == old(m.footprintLimit)
    ensures MallocStep(old(MachineOf(m, core)), PaddedSize(bytes), mem, MachineOf(m, core))
    ensures mem == NULL ==> Unserved(m, old(m.view), old(m.mem))
    ensures mem == NULL && old(m.top) != 0 ==>
      m.view == old(m.view) && m.St() == old(m.St()) && core.heapEnd == old(core.heapEnd)
    ensures mem == NULL && bytes < MAX_REQUEST ==> NothingFree(m.view.l, PaddedSize(bytes))
    ensures mem != NULL ==> mem >= 8 && bytes < MAX_REQUEST
    ensures mem != NULL ==> Served(m, core, old(m.view), old(m.mem), MemToChunk(mem), PaddedSize(bytes))
    ensures mem != NULL && old(m.top) != 0 ==>
      Chosen(old(m.view), old(m.dv), old(m.dvsize), old(m.top), PaddedSize(bytes), MemToChunk(mem))
  {
    hide Core, Quiet, Steady, GrantGrown, PaddedSize, Chosen, m.Settled, ServedStep, Primed;
    PrimedOnce(m, core);
    ghost var v0, m0 := m.view, m.mem;
    QuietSame(Live(v0.l), m0);
    if m.top == 0 {
      assert Live(v0.l) == map[];
      TryInitAllocator(m, core);
    }
    ghost var v1, m1 := m.view, m.mem;
    if m.top != 0 {
      mem := MallocSettled(m, core, bytes);
    } else {
      mem := MallocBlank(m, core, bytes);
    }
    if old(m.top) == 0 {
      if mem == NULL { NothingQuiet(m0, m.mem); }
        else { AfterInit(m, core, v0, v1, m0, m1, MemToChunk(mem), PaddedSize(bytes)); }
    }
  }
}
