/** try_init_allocator and sys_alloc: the heap is one segment that ends where linear memory's heap ends. */
module SysAllocs {
  import opened Memory
  import opened Layouts
  import opened Tags
  import opened Payloads
  import opened SmallBins
  import opened TreeIndices
  import opened Ages
  import opened Heaps
  import opened MallocStates
  import opened Freeing
  import opened Allocating
  import opened Growing
  import opened Morecores
  import opened Policies
  import opened Machines

  const CMFAIL: nat := 0xFFFF_FFFF

  /** The one segment ends at `end` and is the whole footprint. */
  ghost predicate OneSegment(m: MallocState, end: nat)
    reads m
  {
    && m.segBase + m.segSize == end == m.view.l.end + TOP_FOOT_SIZE
    && m.view.l.first == m.segBase + AlignOffset(m.segBase)
    && m.leastAddr == m.segBase && m.heapBase <= m.segBase
    && m.footprint == m.segSize <= m.maxFootprint
  }

  ghost predicate ValidUpTo(m: MallocState, end: nat)
    reads m
  {
    && m.Placed()
    && (if m.top == 0 then m.Pristine() && end == m.heapEndSymbol else m.Settled() && OneSegment(m, end))
  }

  /** The invariant of every reachable state between calls: one segment, ending at wasm_heap_end. */
  ghost predicate Valid(m: MallocState, core: LinearMemory)
    reads m, core
  {
    core.Valid() && core.heapEnd % 8 == 0 && ValidUpTo(m, core.heapEnd)
  }

  lemma AlignOffsetAligns(p: nat)
    ensures AlignOffset(p) < 8 && (p + AlignOffset(p)) % 8 == 0
    ensures p % 8 == 0 ==> AlignOffset(p) == 0
  {
  }

  /** init_top. */
  method InitTop(m: MallocState, p: nat, psize: nat)
    requires AlignOffset(p) <= psize
    modifies m`mem, m`top, m`topsize
    ensures m.top == p + AlignOffset(p) && m.topsize == psize - AlignOffset(p)
    ensures m.mem == TopHeads(old(m.mem), m.top, m.topsize)
  {
    var offset := AlignOffset(p);
    m.top := p + offset;
    m.topsize := psize - offset;
    m.mem := SetHead(m.mem, m.top, m.topsize + 1);
    m.mem := SetHead(m.mem, m.top + m.topsize, TOP_FOOT_SIZE);
  }

  /** The small bin at index i is a ring of its header alone. */
  ghost predicate EmptyBin(m: Mem, sb: nat, i: nat) {
    Fd(m, Header(sb, 8 * i)) == Header(sb, 8 * i) == Bk(m, Header(sb, 8 * i))
  }

  ghost predicate BinsEmpty(m: Mem, sb: nat) {
    forall i: nat {:trigger EmptyBin(m, sb, i)} :: i < NSMALLBINS ==> EmptyBin(m, sb, i)
  }

  lemma TopKeepsBins(m: Mem, sb: nat, top: nat, topsize: nat)
    requires BinsEmpty(m, sb) && sb + 264 <= top
    ensures BinsEmpty(TopHeads(m, top, topsize), sb)
  {
    forall i: nat | i < NSMALLBINS ensures EmptyBin(TopHeads(m, top, topsize), sb, i) { assert EmptyBin(m, sb, i); }
  }

  /** m' has every small bin empty, and is otherwise m. */
  ghost predicate BinsInitialised(m: Mem, m': Mem, sb: nat) {
    && BinsEmpty(m', sb)
    && (forall x: nat {:trigger SameAt(m, m', x)} :: x < sb + 8 || sb + 264 <= x ==> SameAt(m, m', x))
  }

  /** init_bins. */
  method InitBins(m: MallocState)
    modifies m`mem
    ensures BinsInitialised(old(m.mem), m.mem, m.sb) && BinsEmpty(m.mem, m.sb)
  {
    for i := 0 to NSMALLBINS
      invariant forall j: nat {:trigger EmptyBin(m.mem, m.sb, j)} :: j < i ==> EmptyBin(m.mem, m.sb, j)
      invariant forall x: nat {:trigger SameAt(old(m.mem), m.mem, x)} ::
        x < m.sb + 8 || m.sb + 264 <= x ==> SameAt(old(m.mem), m.mem, x)
    {
      ghost var m1 := m.mem;
      var bin := Header(m.sb, 8 * i);
      m.mem := SetBk(m.mem, bin, bin);
      m.mem := SetFd(m.mem, bin, bin);
      forall j: nat | j < i + 1 ensures EmptyBin(m.mem, m.sb, j) {
        if j < i { assert EmptyBin(m1, m.sb, j); }
      }
      forall x: nat | x < m.sb + 8 || m.sb + 264 <= x ensures SameAt(old(m.mem), m.mem, x) {
        assert SameAt(old(m.mem), m1, x);
      }
    }
  }

  /** The first segment: everything in it but the alignment offset and the foot is top. */
  method FirstSegment(m: MallocState, core: LinearMemory, base: nat, size: nat)
    requires core.Valid() && core.heapEnd % 8 == 0 && m.Blank() && m.heapBase <= base && base + size == core.heapEnd
    requires size >= TOP_FOOT_SIZE + 16
    requires m.footprint == size <= m.maxFootprint
    modifies m`mem, m`view, m`top, m`topsize, m`leastAddr, m`segBase, m`segSize
    ensures Valid(m, core) && m.top != 0 && Live(m.view.l) == map[] && m.segBase == base
    ensures m.topsize == size - TOP_FOOT_SIZE - AlignOffset(base) && SameLists(old(m.view), m.view)
    ensures BinsEmpty(m.mem, m.sb) && HeapOf(m) == FirstHeap(base, base + size)
  {
    hide Core, BinsInitialised, BinsEmpty;
    AlignOffsetAligns(base);
    m.leastAddr := base;
    m.segBase := base;
    m.segSize := size;
    InitBins(m);
    ghost var m0 := m.mem;
    InitTop(m, base, size - TOP_FOOT_SIZE);
    TopKeepsBins(m0, m.sb, m.top, m.topsize);
    CoreFresh(m.St(), m.sb, m.top, m.topsize, m0);
    m.view := FreshView(m.top, m.topsize);
    assert m.Resting() == {m.top};
  }

  /** try_init_allocator. */
  method TryInitAllocator(m: MallocState, core: LinearMemory)
    requires Valid(m, core) && m.top == 0
    modifies m
    ensures Valid(m, core) && Live(m.view.l) == map[] && SameLists(old(m.view), m.view)
    ensures m.top != 0 <==> m.heapEndSymbol - m.heapBase > MIN_CHUNK_SIZE + TOP_FOOT_SIZE + 8
    ensures MachineOf(m, core) == Primed(old(MachineOf(m, core)))
    ensures m.footprintLimit == old(m.footprintLimit) && m.noncontiguous == old(m.noncontiguous)
  {
    hide Core;
    var initialHeapSize := m.heapEndSymbol - m.heapBase;
    if initialHeapSize <= MIN_CHUNK_SIZE + TOP_FOOT_SIZE + 8 {
      return;
    }
    m.footprint := initialHeapSize;
    m.maxFootprint := initialHeapSize;
    FirstSegment(m, core, m.heapBase, initialHeapSize);
  }

  /** The append path: the segment and top grow by tsize bytes. */
  method AppendSegment(m: MallocState, core: LinearMemory, tsize: nat)
    requires core.Valid() && core.heapEnd % 8 == 0 && m.Placed() && m.top != 0 && m.Settled() && tsize % 8 == 0
    requires m.segBase + m.segSize + tsize == core.heapEnd && m.segBase + m.segSize == m.view.l.end + TOP_FOOT_SIZE
    requires m.view.l.first == m.segBase + AlignOffset(m.segBase) && m.leastAddr == m.segBase && m.heapBase <= m.segBase
    requires m.footprint == m.segSize + tsize <= m.maxFootprint
    modifies m`mem, m`view, m`top, m`topsize, m`segSize
    ensures Valid(m, core) && m.top == old(m.top) && m.topsize == old(m.topsize) + tsize
    ensures Live(m.view.l) == Live(old(m.view.l)) && Quiet(Live(m.view.l), old(m.mem), m.mem)
    ensures m.view.l.first == old(m.view.l.first)
    ensures SameLists(old(m.view), m.view) && HeapOf(m) == GrownHeap(old(HeapOf(m)), core.heapEnd - tsize, tsize)
  {
    hide Core, Quiet;
    ghost var st, v := m.St(), m.view;
    TopAligned(m);
    m.segSize := m.segSize + tsize;
    InitTop(m, m.top, m.topsize + tsize);
    CoreExtended(st, m.sb, v, old(m.Resting()), m.top, tsize, m.mem);
    m.view := v.(l := Extend(v.l, m.top, tsize));
    assert m.Resting() == old(m.Resting());
  }

  lemma TopAligned(m: MallocState)
    requires m.Settled()
    ensures AlignOffset(m.top) == 0 && m.top >= m.view.l.first && m.top < m.view.l.end
    ensures m.dvsize > 0 ==> Next(m.view.l, m.dv) <= m.top && m.dv != m.top
  {
    hide Quiet;
    if m.dvsize > 0 { TopIsLast(m.view.l, m.top, m.dv); }
    FreeFacts(m.St(), m.sb, m.view, m.Resting(), m.top);
    AlignOffsetAligns(m.top);
  }

  /** A padded, aligned request size as dlmalloc computes it; MAX_SIZE stands for a request too large to meet. */
  ghost predicate RequestSize(nb: nat) {
    nb == MAX_SIZE || (16 <= nb < MAX_SIZE && nb % 8 == 0)
  }

  lemma RoundedDown(t: nat)
    ensures var r := t / GRANULARITY * GRANULARITY; r % GRANULARITY == 0 && r % 8 == 0 && r <= t < r + GRANULARITY
  {
    WholeGranules(t / GRANULARITY);
  }

  lemma WholeGranules(k: nat)
    ensures k * GRANULARITY % GRANULARITY == 0 && k * GRANULARITY % 8 == 0
  {
    assert k * GRANULARITY == 8 * (512 * k);
  }

  lemma AlignedUp(s: nat)
    requires s < WORD
    ensures GranularityAlign(s) % GRANULARITY == 0 && GranularityAlign(s) % 8 == 0 && GranularityAlign(s) < WORD
    ensures s + GRANULARITY <= WORD ==> s <= GranularityAlign(s) < s + GRANULARITY
    ensures s + GRANULARITY > WORD ==> GranularityAlign(s) == 0
  {
    RoundedDown((s + (GRANULARITY - 1)) % WORD);
  }

  /** tbase is the old heap end, and the tsize bytes there are enough for nb on top of what top has, and not
      much more. */
  ghost predicate Obtained(m: MallocState, core: LinearMemory, nb: nat, tbase: nat, tsize: nat)
    reads m, core
  {
    && core.Valid() && core.heapEnd % 8 == 0 && ValidUpTo(m, tbase) && core.heapEnd == tbase + tsize && tsize % 8 == 0
    && nb < m.topsize + tsize - (if m.top == 0 then TOP_FOOT_SIZE else 0)
    && 0 < tsize < nb + SYS_ALLOC_PADDING + 2 * GRANULARITY
  }

  /** tsize more bytes stay within the footprint limit, if there is one. */
  predicate Within(m: MallocState, tsize: nat)
    reads m
  {
    m.footprintLimit == 0 || m.footprint + tsize <= m.footprintLimit
  }

  lemma FirstAskFits(base: nat, asize: nat)
    requires base < WORD && base % 8 == 0 && asize < WORD && asize % GRANULARITY == 0
    ensures var ssize := if base % GRANULARITY == 0 then asize
      else (asize + GranularityAlign(base) + WORD - base) % WORD;
      && ssize % 8 == 0
      && (base + ssize < WORD ==> asize <= ssize < asize + GRANULARITY)
  {
    hide GranularityAlign;
    AlignedUp(base);
    if base % GRANULARITY != 0 {
      AskWraps(base, GranularityAlign(base), asize);
    } else {
      GranulesAreEights(asize);
    }
  }

  lemma AskWraps(base: nat, up: nat, asize: nat)
    requires base < WORD && base % 8 == 0 && asize < WORD && asize % GRANULARITY == 0 && up % GRANULARITY == 0
    requires up < WORD
    requires if base + GRANULARITY <= WORD then base <= up < base + GRANULARITY else up == 0
    ensures var ssize := (asize + up + WORD - base) % WORD;
      && ssize % 8 == 0
      && (base + ssize < WORD ==> asize <= ssize < asize + GRANULARITY)
  {
    var i, j, h := asize / GRANULARITY, up / GRANULARITY, base / 8;
    Wrapped(i, j, h);
  }

  lemma Wrapped(i: nat, j: nat, h: nat)
    requires 8 * h < WORD && 4096 * i < WORD && 4096 * j < WORD
    requires if 8 * h + 4096 <= WORD then 8 * h <= 4096 * j < 8 * h + 4096 else j == 0
    ensures var ssize := (4096 * i + 4096 * j + WORD - 8 * h) % WORD;
      && ssize % 8 == 0
      && (8 * h + ssize < WORD ==> 4096 * i <= ssize < 4096 * i + 4096)
  {
    var k := 512 * i + 512 * j - h;
    if k < 0 {
      Multiple(k + 0x2000_0000);
    } else {
      assert k < 0x2000_0000;
      Multiple(k);
    }
  }

  lemma Multiple(k: nat)
    requires k < 0x2000_0000
    ensures 8 * k % WORD == 8 * k && (8 * k + WORD) % WORD == 8 * k && 8 * k % 8 == 0
  {
  }

  /** What the first call asks for, in the code's terms. */
  lemma FirstAskIs(s: Machine, nb: nat, asize: nat, ssize: nat, fp: nat)
    requires s.heap.top == 0 && fp == (s.room.footprint + ssize) % WORD
    requires var end := s.room.span.end;
      ssize == (asize + (if end % GRANULARITY == 0 then 0 else GranularityAlign(end) + WORD - end)) % WORD
    ensures FirstAsk(s, nb, asize) ==
      if ssize > nb && ssize < HALF_MAX_SIZE
        && (s.room.limit == 0 || (fp > s.room.footprint && fp <= s.room.limit)) then ssize else 0
  {
    hide GranularityAlign;
  }

  lemma SameSize(end: nat, asize: nat)
    requires asize < WORD
    ensures (asize + (if end % GRANULARITY == 0 then 0 else GranularityAlign(end) + WORD - end)) % WORD ==
      if end % GRANULARITY == 0 then asize else (asize + GranularityAlign(end) + WORD - end) % WORD
  {
    hide GranularityAlign;
  }

  /** The first MORECORE call: enough to end on a granularity boundary. */
  method FirstMorecore(m: MallocState, core: LinearMemory, nb: nat, asize: nat)
        returns (br: nat, tbase: nat, tsize: nat)
    requires Valid(m, core) && RequestSize(nb) && nb >= m.topsize && nb + SYS_ALLOC_PADDING <= asize < WORD
    requires asize % GRANULARITY == 0
    requires asize < nb + SYS_ALLOC_PADDING + GRANULARITY && m.top == 0
    modifies core
    ensures Asked(old(core.Reach()), FirstAsk(old(MachineOf(m, core)), nb, asize), tbase != CMFAIL, core.Reach())
    ensures tbase != CMFAIL ==> tsize == FirstAsk(old(MachineOf(m, core)), nb, asize)
    ensures Grew(old(core.Reach()), core.Reach())
    ensures tbase == CMFAIL ==>
      br == CMFAIL && core.heapEnd == old(core.heapEnd) && core.pages == old(core.pages) && Valid(m, core)
    ensures tbase != CMFAIL ==> tbase == old(core.heapEnd) && Obtained(m, core, nb, tbase, tsize)
    ensures tbase != CMFAIL ==> tsize <= asize || Within(m, tsize)
  {
    hide Core, GranularityAlign, ValidUpTo, PagesUpTo, Asked, Reachable, FirstAsk;
    NothingAsked(core.Reach());
    HeldPages(core.heapEnd, core.pages);
    assert m.topsize == 0 by { BlankTop(m, core); }
    br, tbase, tsize := CMFAIL, CMFAIL, 0;
    var ssize := asize;
    var base := core.WasmMorecore(0);
    FirstAskFits(base, asize);
    if base % GRANULARITY != 0 {
      ssize := (asize + GranularityAlign(base) + WORD - base) % WORD;
    }
    var fp := (m.footprint + ssize) % WORD;
    EightMore(base, ssize);
    NoWrapBelow(m.footprint, ssize, m.footprintLimit);
    SameSize(base, asize);
    FirstAskIs(MachineOf(m, core), nb, asize, ssize, fp);
    if ssize > nb && ssize < HALF_MAX_SIZE && (m.footprintLimit == 0 || (fp > m.footprint && fp <= m.footprintLimit)) {
      br := core.WasmMorecore(ssize);
      if br == base {
        tbase, tsize := base, ssize;
      }
    }
  }

  lemma BlankTop(m: MallocState, core: LinearMemory)
    requires Valid(m, core) && m.top == 0
    ensures m.topsize == 0
  {
    hide Core;
  }

  lemma LeastMultiple(a: nat, b: nat)
    requires a % GRANULARITY == 0 && b % GRANULARITY == 0 && a < b + GRANULARITY
    ensures a <= b
  {
    assert a == GRANULARITY * (a / GRANULARITY) && b == GRANULARITY * (b / GRANULARITY);
  }

  /** Later ones: what top lacks. */
  method ExtendMorecore(m: MallocState, core: LinearMemory, nb: nat, asize: nat)
        returns (br: nat, tbase: nat, tsize: nat)
    requires Valid(m, core) && RequestSize(nb) && nb >= m.topsize && nb + SYS_ALLOC_PADDING <= asize < WORD
    requires asize % GRANULARITY == 0
    requires m.top != 0
    modifies core
    ensures Asked(old(core.Reach()), FirstAsk(old(MachineOf(m, core)), nb, asize), tbase != CMFAIL, core.Reach())
    ensures tbase != CMFAIL ==> tsize == FirstAsk(old(MachineOf(m, core)), nb, asize)
    ensures Grew(old(core.Reach()), core.Reach())
    ensures tbase == CMFAIL ==>
      br == CMFAIL && core.heapEnd == old(core.heapEnd) && core.pages == old(core.pages) && Valid(m, core)
    ensures tbase != CMFAIL ==> tbase == old(core.heapEnd) && Obtained(m, core, nb, tbase, tsize)
    ensures tbase != CMFAIL ==> tsize <= asize || Within(m, tsize)
  {
    hide Core, GranularityAlign, m.Settled, PagesUpTo, Asked;
    NothingAsked(core.Reach());
    HeldPages(core.heapEnd, core.pages);
    br, tbase, tsize := CMFAIL, CMFAIL, 0;
    AlignedUp(nb - m.topsize + SYS_ALLOC_PADDING);
    var ssize := GranularityAlign(nb - m.topsize + SYS_ALLOC_PADDING);
    EightMore(core.heapEnd, ssize);
    LeastMultiple(ssize, asize);
    if ssize < HALF_MAX_SIZE {
      br := core.WasmMorecore(ssize);
      if br == m.segBase + m.segSize {
        tbase, tsize := br, ssize;
      }
    }
  }

  /** The contiguous MORECORE of sys_alloc.  What it returns always starts at the segment's end, so the
      code that copes with a discontiguous answer is never entered. */
  method ContiguousMorecore(m: MallocState, core: LinearMemory, nb: nat, asize: nat) returns (tbase: nat, tsize: nat)
    requires Valid(m, core) && RequestSize(nb) && nb >= m.topsize && nb + SYS_ALLOC_PADDING <= asize < WORD
    requires asize % GRANULARITY == 0
    requires asize < nb + SYS_ALLOC_PADDING + GRANULARITY
    modifies core, m`noncontiguous
    ensures Asked(old(core.Reach()), FirstAsk(old(MachineOf(m, core)), nb, asize), tbase != CMFAIL, core.Reach())
    ensures tbase != CMFAIL ==> tsize == FirstAsk(old(MachineOf(m, core)), nb, asize)
    ensures m.noncontiguous == (old(m.noncontiguous) || tbase == CMFAIL)
    ensures Grew(old(core.Reach()), core.Reach())
    ensures tbase == CMFAIL ==> core.heapEnd == old(core.heapEnd) && core.pages == old(core.pages) && Valid(m, core)
    ensures tbase != CMFAIL ==> tbase == old(core.heapEnd) && Obtained(m, core, nb, tbase, tsize)
    ensures tbase != CMFAIL ==> tsize <= asize || Within(m, tsize)
    ensures core.Valid()
  {
    hide Core, m.TopAndDv, m.Holds, FirstAsk, Asked;
    var br: nat;
    if m.top == 0 {
      br, tbase, tsize := FirstMorecore(m, core, nb, asize);
    } else {
      br, tbase, tsize := ExtendMorecore(m, core, nb, asize);
    }
    if tbase == CMFAIL {
      assert br == CMFAIL;
      NoncontiguousNow(m, core);
    }
  }

  /** disable_contiguous. */
  method NoncontiguousNow(m: MallocState, core: LinearMemory)
    requires Valid(m, core)
    modifies m`noncontiguous
    ensures Valid(m, core) && m.noncontiguous
  {
    hide Core;
    m.noncontiguous := true;
  }

  lemma GranulesAreEights(s: nat)
    requires s % GRANULARITY == 0
    ensures s % 8 == 0
  {
    assert s == 8 * (s / GRANULARITY * 512);
  }

  /** The last resort of sys_alloc: MORECORE without the promise of contiguity, which here keeps it too. */
  method NoncontiguousMorecore(m: MallocState, core: LinearMemory, nb: nat, asize: nat) returns (tbase: nat, tsize: nat)
    requires Valid(m, core) && RequestSize(nb) && nb >= m.topsize && nb + SYS_ALLOC_PADDING <= asize < WORD
    requires asize % GRANULARITY == 0
    requires asize < nb + SYS_ALLOC_PADDING + GRANULARITY
    modifies core
    ensures Asked(old(core.Reach()), LastAsk(asize), tbase != CMFAIL, core.Reach())
    ensures tbase != CMFAIL ==> tsize == LastAsk(asize)
    ensures Grew(old(core.Reach()), core.Reach())
    ensures tbase == CMFAIL ==> core.heapEnd == old(core.heapEnd) && core.pages == old(core.pages) && Valid(m, core)
    ensures tbase != CMFAIL ==> tbase == old(core.heapEnd) && Obtained(m, core, nb, tbase, tsize)
    ensures tbase != CMFAIL ==> tsize <= asize || Within(m, tsize)
    ensures core.Valid()
  {
    hide Core, GranularityAlign, ValidUpTo, PagesUpTo;
    tbase, tsize := CMFAIL, 0;
    HeldPages(core.heapEnd, core.pages);
    GranulesAreEights(asize);
    EightMore(core.heapEnd, asize);
    if asize < HALF_MAX_SIZE {
      var br := core.WasmMorecore(asize);
      var end := core.WasmMorecore(0);
      if br != CMFAIL && end != CMFAIL && br < end {
        var ssize := end - br;
        if ssize > nb + TOP_FOOT_SIZE {
          tbase, tsize := br, ssize;
        }
      }
    }
  }

  lemma FootprintBelow(m: MallocState, core: LinearMemory)
    requires Valid(m, core)
    ensures m.footprint <= core.heapEnd
  {
    hide Core;
  }

  /** Like Grant, on a segment that may have grown. */
  ghost predicate GrantGrown(l0: Layout, l: Layout, p: nat, nb: nat) {
    && l.end >= l0.end && (l0.chunks != map[] ==> l.first == l0.first)
    && p !in Live(l0) && p in l.chunks && l.chunks[p].inuse && l.chunks[p].pin
    && nb <= l.chunks[p].size < nb + MIN_CHUNK_SIZE
    && Live(l) == Live(l0)[p := l.chunks[p].size]
  }

  /** The request was met: one more live chunk; every other payload, and the order within every free list, as
      it was. */
  ghost predicate Served(m: MallocState, core: LinearMemory, v0: View, m0: Mem, p: nat, nb: nat)
    reads m, core
  {
    && Valid(m, core) && m.top != 0 && GrantGrown(v0.l, m.view.l, p, nb) && Quiet(Live(v0.l), m0, m.mem)
    && SteadySince(v0, m.view)
  }

  lemma AskSize(nb: nat)
    requires RequestSize(nb)
    ensures var asize := AskedFor(nb);
      asize > nb ==>
        && nb + SYS_ALLOC_PADDING <= asize < WORD && asize % GRANULARITY == 0
        && asize < nb + SYS_ALLOC_PADDING + GRANULARITY
    ensures nb == MAX_SIZE ==> AskedFor(nb) <= nb
  {
    hide GranularityAlign;
    AlignedUp((nb + SYS_ALLOC_PADDING) % WORD);
  }

  lemma EmptyLive(l: Layout)
    requires l.chunks == map[]
    ensures Live(l) == map[]
  {
  }

  /** Record the memory and give it to top.  The append path is the only one taken once there is a segment. */
  method GrowTop(m: MallocState, core: LinearMemory, nb: nat, tbase: nat, tsize: nat)
    requires Obtained(m, core, nb, tbase, tsize) && 16 <= nb && nb % 8 == 0
    modifies m
    ensures Valid(m, core) && m.top != 0 && nb < m.topsize && Live(m.view.l) == Live(old(m.view.l))
    ensures Quiet(Live(m.view.l), old(m.mem), m.mem)
    ensures m.view.l.end >= old(m.view.l.end)
    ensures (old(m.view.l.chunks) != map[] ==> m.view.l.first == old(m.view.l.first))
    ensures m.footprintLimit == old(m.footprintLimit)
    ensures m.footprint == old(m.footprint) + tsize && m.maxFootprint == MaxOf(old(m.maxFootprint), m.footprint)
    ensures HeapOf(m) == GrownHeap(old(HeapOf(m)), tbase, tsize)
    ensures HeadroomOf(m, core) == Recorded(old(HeadroomOf(m, core)), old(m.top) == 0, tbase, tsize)
    ensures SameLists(old(m.view), m.view) && (old(m.top) != 0 ==> m.top == old(m.top))
  {
    hide Core, Quiet, FirstHeap, Extend, SameLists, TopDv, Live;
    ghost var m0 := m.mem;
    m.footprint := m.footprint + tsize;
    if m.footprint > m.maxFootprint {
      m.maxFootprint := m.footprint;
    }
    if m.top == 0 {
      AlignOffsetAligns(tbase);
      EmptyLive(m.view.l);
      FirstSegment(m, core, tbase, tsize);
      NothingQuiet(m0, m.mem);
    } else {
      assert tbase == m.segBase + m.segSize && m.segBase <= m.top < m.segBase + m.segSize by { TopAligned(m); }
      AppendSegment(m, core, tsize);
    }
  }

  /** The tail of sys_alloc: nb bytes from the extended top. */
  method UseObtained(m: MallocState, core: LinearMemory, nb: nat, tbase: nat, tsize: nat) returns (mem: nat)
    requires Obtained(m, core, nb, tbase, tsize) && 16 <= nb && nb % 8 == 0
    modifies m
    ensures mem >= 8 && Valid(m, core) && Served(m, core, old(m.view), old(m.mem), MemToChunk(mem), nb)
    ensures m.footprintLimit == old(m.footprintLimit)
    ensures m.footprint == old(m.footprint) + tsize && m.maxFootprint == MaxOf(old(m.maxFootprint), m.footprint)
    ensures old(m.top) != 0 ==> MemToChunk(mem) == old(m.top)
    ensures HeapOf(m) == FromTop(GrownHeap(old(HeapOf(m)), tbase, tsize), nb)
    ensures MemToChunk(mem) == GrownHeap(old(HeapOf(m)), tbase, tsize).top
    ensures HeadroomOf(m, core) == Recorded(old(HeadroomOf(m, core)), old(m.top) == 0, tbase, tsize)
  {
    hide Core, Quiet, Steady, Grant, GrantGrown, Obtained, GrownHeap, FromTop;
    GrowTop(m, core, nb, tbase, tsize);
    ghost var l1, m1 := m.view.l, m.mem;
    mem := UseTop(m, nb);
    QuietTransitive(Live(l1), old(m.mem), m1, m.mem);
    GrantThenGrown(old(m.view.l), l1, m.view.l, MemToChunk(mem), nb);
  }

  lemma NothingQuiet(m: Mem, m': Mem)
    ensures Quiet(map[], m, m')
  {
  }

  lemma GrantThenGrown(l0: Layout, l1: Layout, l: Layout, p: nat, nb: nat)
    requires Grant(l1, l, p, nb) && Live(l1) == Live(l0) && l1.end >= l0.end
    requires (l0.chunks != map[] ==> l1.first == l0.first)
    ensures GrantGrown(l0, l, p, nb) && l.first == l1.first && l.end == l1.end
  {
  }

  lemma NoWrapBelow(a: nat, b: nat, limit: nat)
    requires b < WORD
    ensures a < (a + b) % WORD <= limit ==> a + b <= limit
    ensures b > 0 && (a + b) % WORD <= a ==> a + b >= WORD
    ensures (a + b) % WORD > limit ==> a + b > limit
  {
  }

  /** sys_alloc's search for memory, contiguous first. */
  method ObtainMemory(m: MallocState, core: LinearMemory, nb: nat, asize: nat) returns (tbase: nat, tsize: nat)
    requires Valid(m, core) && RequestSize(nb) && nb >= m.topsize && nb + SYS_ALLOC_PADDING <= asize < WORD
    requires asize % GRANULARITY == 0
    requires asize < nb + SYS_ALLOC_PADDING + GRANULARITY
    modifies core, m`noncontiguous
    ensures Grew(old(core.Reach()), core.Reach())
    ensures tbase == CMFAIL ==> core.heapEnd == old(core.heapEnd) && core.pages == old(core.pages) && Valid(m, core)
    ensures tbase != CMFAIL ==> tbase == old(core.heapEnd) && Obtained(m, core, nb, tbase, tsize)
    ensures tbase != CMFAIL ==> tsize <= asize || Within(m, tsize)
    ensures Searched(old(MachineOf(m, core)), nb, asize, if tbase == CMFAIL then HeadroomOf(m, core)
      else Recorded(HeadroomOf(m, core), m.top == 0, tbase, tsize))
  {
    hide Core, m.Settled, m.Pristine, Grew, Obtained;
    tbase, tsize := CMFAIL, 0;
    ghost var s0 := core.Reach();
    assert Grew(s0, s0) by { GrewNot(core); }
    if !m.noncontiguous {
      tbase, tsize := ContiguousMorecore(m, core, nb, asize);
    }
    if tbase == CMFAIL {
      ghost var s1 := core.Reach();
      assert s0.refusals <= s1.refusals by { GrewRefusals(s0, s1); }
      tbase, tsize := NoncontiguousMorecore(m, core, nb, asize);
      GrewTransitive(s0, s1, core.Reach());
    }
  }

  lemma GrewNot(core: LinearMemory)
    requires core.Valid()
    ensures Grew(core.Reach(), core.Reach())
  {
    HeldPages(core.heapEnd, core.pages);
  }

  lemma GrewRefusals(s0: Span, s: Span)
    requires Grew(s0, s)
    ensures s0.refusals <= s.refusals
  {
  }

  /** sys_alloc.  Whatever pattern of memory.grow failures came before, a failed call changes nothing that
      is represented, and any memory obtained extends the one segment and serves the request from top. */
  method SysAlloc(m: MallocState, core: LinearMemory, nb: nat) returns (mem: nat)
    requires Valid(m, core) && RequestSize(nb) && nb >= m.topsize
    modifies m, core
    ensures Valid(m, core) && m.footprintLimit == old(m.footprintLimit)
    ensures mem == NULL ==> m.view == old(m.view) && m.St() == old(m.St()) && core.heapEnd == old(core.heapEnd)
    ensures mem == NULL ==>
      m.top == old(m.top) && m.dv == old(m.dv) && m.dvsize == old(m.dvsize) && m.topsize == old(m.topsize)
    ensures mem != NULL ==> mem >= 8 && Served(m, core, old(m.view), old(m.mem), MemToChunk(mem), nb)
    ensures nb == MAX_SIZE ==> mem == NULL
    ensures mem != NULL ==>
      m.footprint > old(m.footprint) && m.footprint < old(m.footprint) + nb + SYS_ALLOC_PADDING + 2 * GRANULARITY
    ensures mem != NULL ==> m.maxFootprint == MaxOf(old(m.maxFootprint), m.footprint)
    ensures mem != NULL ==> m.footprintLimit == 0 || m.footprint <= m.footprintLimit
    ensures mem != NULL && old(m.top) != 0 ==> MemToChunk(mem) == old(m.top)
    ensures Sought(old(MachineOf(m, core)), nb, HeadroomOf(m, core))
    ensures HeapOf(m) == SoughtHeap(old(MachineOf(m, core)), nb, HeadroomOf(m, core))
    ensures mem == SoughtAnswer(old(MachineOf(m, core)), nb, HeadroomOf(m, core))
    ensures AskedFor(nb) <= nb || !old(Within(m, AskedFor(nb))) ==> mem == NULL
  {
    hide Core, Quiet, Steady, GranularityAlign, Served, m.Settled, m.Pristine, Grew,
      Searched, GrownHeap, FromTop;
    mem := NULL;
    AskSize(nb);
    var asize := GranularityAlign((nb + SYS_ALLOC_PADDING) % WORD);
    assert asize == AskedFor(nb);
    if asize <= nb {
      return;
    }
    if m.footprintLimit != 0 {
      var fp := (m.footprint + asize) % WORD;
      if fp <= m.footprint || fp > m.footprintLimit {
        return;
      }
    }
    NoWrapBelow(m.footprint, asize, m.footprintLimit);
    var tbase, tsize := ObtainMemory(m, core, nb, asize);
    if tbase != CMFAIL {
      mem := UseObtained(m, core, nb, tbase, tsize);
    }
  }
}
