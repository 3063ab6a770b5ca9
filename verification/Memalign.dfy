/** internal_memalign, dlmemalign and dlposix_memalign. */
module Memaligns {
  import opened Memory
  import opened Layouts
  import opened Tags
  import opened Payloads
  import opened TreeIndices
  import opened Ages
  import opened Heaps
  import opened MallocStates
  import opened Policies
  import opened Freeing
  import opened Morecores
  import opened Machines
  import opened SysAllocs
  import opened Mallocs
  import opened Reallocating
  import opened Reallocs
  import opened Alignments

  /** One more live chunk, at q, of at least nb bytes; every other payload, and the order within every free list, as
      it was. */
  ghost predicate Roomy(m: MallocState, core: LinearMemory, v0: View, m0: Mem, q: nat, nb: nat)
    reads m, core
  {
    && Valid(m, core) && m.top != 0
    && q !in Live(v0.l) && q in Live(m.view.l) && nb <= Live(m.view.l)[q]
    && Live(m.view.l) == Live(v0.l)[q := Live(m.view.l)[q]] && Quiet(Live(v0.l), m0, m.mem)
    && SteadySince(v0, m.view) && (v0.l.chunks != map[] ==> m.view.l.first == v0.l.first)
  }

  /** The same with no more than 16 bytes to spare. */
  ghost predicate Carved(m: MallocState, core: LinearMemory, v0: View, m0: Mem, q: nat, nb: nat)
    reads m, core
  {
    Roomy(m, core, v0, m0, q, nb) && Live(m.view.l)[q] <= nb + MIN_CHUNK_SIZE
  }

  lemma CarvedRoomy(m: MallocState, core: LinearMemory, v0: View, m0: Mem, q: nat, nb: nat)
    requires Carved(m, core, v0, m0, q, nb)
    ensures Roomy(m, core, v0, m0, q, nb)
  {
    hide Roomy;
  }

  /** Cut the leader off: the front of the chunk, up to the aligned spot. */
  method SplitLeader(m: MallocState, p: nat, lead: nat, newsize: nat, ghost e: nat, ghost v0: View)
    requires Resizing(m, p, e, {}, v0, m.mem) && e != v0.l.end && e == p + lead + newsize && lead >= 16
    requires newsize >= 16 && lead % 8 == 0
    modifies m`mem, m`view
    ensures m.Settled() && m.view.l.first == v0.l.first && m.view.l.end == v0.l.end && p in Live(v0.l)
    ensures Live(m.view.l) == Live(v0.l)[p := lead][p + lead := newsize] && p + lead !in Live(v0.l)
    ensures Quiet(Live(v0.l)[p := Min(Live(v0.l)[p], lead)], old(m.mem), m.mem) && SameLists(old(m.view), m.view)
    ensures HeapOf(m) == old(HeapOf(m)).(l := Parted(v0.l, p, p + lead, e, true))
    ensures p in m.view.l.chunks && p in v0.l.chunks && m.view.l.chunks[p].pin == v0.l.chunks[p].pin
  {
    hide Core, Quiet, Two, Room, SetInuse, Live, TopDv, Steady;
    OutsideRoom(m, p, e, {}, v0, m.mem);
    ghost var st := m.St();
    var newp := p + lead;
    PartedIs(v0.l, p, newp, e, true);
    m.mem := SetInuse(m.mem, newp, newsize);
    m.mem := SetInuse(m.mem, p, lead);
    CoreSplitRoom(st, m.sb, m.view, m.Resting() + {}, p, newp, e, {}, m.mem);
    TwoKeepsTopDv(v0.l, p, newp, e, m.top, m.topsize, m.dv, m.dvsize);
    TwoKeeps(v0.l, p, newp, e, true, e);
    m.view := m.view.(l := Two(v0.l, p, newp, e, true));
  }

  /** The view before any call, or one with a heap. */
  ghost predicate AtRest(v: View) {
    v.lists == map[] || Orderly(v)
  }

  lemma RestNow(m: MallocState, core: LinearMemory)
    requires Valid(m, core)
    ensures AtRest(m.view)
  {
    hide Core, Steady, Orderly;
    if m.top != 0 { OrderNow(m); }
  }

  /** The leader was in no list, under its size: if a free chunk started at p, it reached beyond what is used now. */
  lemma LeaderUnlisted(v0: View, l1: Layout, l: Layout, p: nat, size: nat)
    requires AtRest(v0) && Tiled(l1) && Tiled(l) && p !in Live(v0.l) && Live(l1) == Live(v0.l)[p := size]
    requires p in l.chunks && l.chunks[p].pin && l.chunks[p].size < size
    requires Next(l, p) in l.chunks && l.chunks[Next(l, p)].inuse
    ensures Unlisted(v0.lists, l, p)
  {
    assert FitsAt(l, p);
    forall x | x in l.chunks && Next(l, x) == p ensures l.chunks[x].inuse { assert LinkedAt(l, x); }
    forall s: nat, x: nat |
      Queued(v0.lists, s, x) && (x == p || (x in l.chunks && !l.chunks[x].inuse && Next(l, x) == p)) && p < x + s
      ensures Next(l, p) < x + s
    {
      if x == p {
        assert LinkedAt(v0.l, p) && FitsAt(v0.l, p);
        assert Next(v0.l, p) in Live(v0.l) && Next(v0.l, p) in Live(l1) && p in Live(l1);
        assert ApartAt(l1, p, Next(v0.l, p));
      }
    }
  }

  lemma InUseInFront(l: Layout, t: nat) returns (c: nat)
    requires Tiled(l) && t in l.chunks && !l.chunks[t].inuse && t != l.first
    ensures c in Live(l) && Next(l, c) == t
  {
    assert FitsAt(l, t);
    c := Predecessor(l, t);
    assert LinkedAt(l, c);
  }

  /** No listed chunk started inside the one at q. */
  lemma TailAbsent(v0: View, l: Layout, q: nat, size: nat, t: nat)
    requires AtRest(v0) && Tiled(l) && q !in Live(v0.l) && Live(l) == Live(v0.l)[q := size] && q < t < q + size
    requires v0.l.chunks != map[] ==> l.first == v0.l.first
    ensures Absent(v0.lists, t)
  {
    assert q in Live(l) && FitsAt(l, q);
    forall c | c in Live(v0.l) ensures Next(v0.l, c) != t {
      assert c in Live(l) && ApartAt(l, c, q) && ApartAt(l, q, c);
    }
    forall s: nat ensures !Queued(v0.lists, s, t) {
      if Queued(v0.lists, s, t) {
        var c := InUseInFront(v0.l, t);
      }
    }
  }

  lemma ResizingSince(m: MallocState, p: nat, e: nat, taken: set<nat>, v1: View, m0: Mem, v0: View)
    requires Resizing(m, p, e, taken, v1, m0) && SteadySince(v0, m.view)
    ensures Resizing(m, p, e, taken, v0.(l := v1.l), m0)
  {
    hide Core, Quiet, Steady;
  }

  lemma LeaderReady(m: MallocState, v0: View, l1: Layout, p: nat, lead: nat, size: nat)
    requires m.Settled() && AtRest(v0) && Tiled(l1) && 0 < lead < size && p in m.view.l.chunks
    requires p !in Live(v0.l) && Live(l1) == Live(v0.l)[p := size] && m.view.l.chunks[p].pin
    requires Live(m.view.l) == Live(l1)[p := lead][p + lead := size - lead]
    ensures m.view.l.chunks[p].inuse && m.view.l.chunks[p].size == lead && Unlisted(v0.lists, m.view.l, p)
  {
    hide AtRest, Unlisted, Tiled, Live;
    TiledNow(m);
    LiveSize(m.view.l, p);
    LiveSize(m.view.l, p + lead);
    LeaderUnlisted(v0, l1, m.view.l, p, size);
  }

  /** Give the leader back, use the rest. */
  method GiveBackLeader(m: MallocState, core: LinearMemory, p: nat, lead: nat, nb: nat, ghost v0: View, ghost m0: Mem)
    requires Roomy(m, core, v0, m0, p, nb + lead) && 16 <= lead && lead % 8 == 0 && 16 <= nb
    requires AtRest(v0) && p in m.view.l.chunks && m.view.l.chunks[p].pin
    modifies m`mem, m`smallmap, m`treemap, m`treebins, m`view, m`top, m`topsize, m`dv, m`dvsize
    ensures Roomy(m, core, v0, m0, p + lead, nb) && Live(m.view.l)[p + lead] == old(Live(m.view.l)[p]) - lead
    ensures HeapOf(m) == LeadOff(old(HeapOf(m)), p, p + lead)
  {
    hide Core, Quiet, m.TopAndDv, m.Holds, Resizing, Steady, Unlisted, AtRest, Tiled, Live, AfterFree, Parted;
    ghost var v1, m1, size := m.view, m.mem, Live(m.view.l)[p];
    OwnSize(m, p);
    TiledNow(m);
    SplitLeader(m, p, lead, ChunkSize(m.mem, p) - lead, p + size, v1);
    ghost var v2, m2 := m.view, m.mem;
    LeaderReady(m, v0, v1.l, p, lead, size);
    DisposeSince(m, p, lead, v0.(l := v2.l));
    SegmentHolds(m, core, v1.l);
    LeaderGone(v0.l, v1.l, Live(m.view.l), p, lead, size, m0, m1, m2, m.mem);
  }

  lemma TiledNow(m: MallocState)
    requires m.Settled()
    ensures Tiled(m.view.l)
  {
    CoreTiled(m.St(), m.sb, m.view, m.Resting());
  }

  lemma OwnSize(m: MallocState, p: nat)
    requires m.Settled() && p in Live(m.view.l)
    ensures ChunkSize(m.mem, p) == Live(m.view.l)[p] == m.view.l.chunks[p].size
    ensures Resizing(m, p, p + Live(m.view.l)[p], {}, m.view, m.mem) && p + Live(m.view.l)[p] != m.view.l.end
  {
    LiveFacts(m.St(), m.sb, m.view, m.Resting(), p);
    hide Core;
    OwnRoom(m, p);
  }

  lemma LeaderGone(l0: Layout, l1: Layout, live: map<nat, nat>, p: nat, lead: nat, size: nat, m0: Mem, m1: Mem, m2: Mem,
          m3: Mem)
    requires p !in Live(l0) && Live(l1) == Live(l0)[p := size] && lead <= size && p + lead !in Live(l1) && lead > 0
    requires live == Live(l1)[p := lead][p + lead := size - lead] - {p}
    requires Quiet(Live(l0), m0, m1) && Quiet(Live(l1)[p := Min(size, lead)], m1, m2) && Quiet(live, m2, m3)
    ensures live == Live(l0)[p + lead := size - lead] && Quiet(Live(l0), m0, m3)
  {
    hide Quiet;
    QuietFewer(Live(l1)[p := Min(size, lead)], Live(l0), m1, m2);
    QuietFewer(live, Live(l0), m2, m3);
    QuietTransitive(Live(l0), m0, m1, m2);
    QuietTransitive(Live(l0), m0, m2, m3);
  }

  lemma TailReady(m: MallocState, v0: View, q: nat, size: nat, t: nat)
    requires m.Settled() && AtRest(v0) && SteadySince(v0, m.view) && q !in Live(v0.l) && q in Live(m.view.l)
    requires Live(m.view.l) == Live(v0.l)[q := size] && q < t < q + size
    requires v0.l.chunks != map[] ==> m.view.l.first == v0.l.first
    ensures Resizing(m, q, q + size, {}, v0.(l := m.view.l), m.mem) && q + size != m.view.l.end
    ensures Absent(v0.lists, t)
  {
    hide m.Settled, AtRest, Steady, Quiet, Tiled, Live, Resizing, Absent;
    TiledNow(m);
    OwnSize(m, q);
    TailAbsent(v0, m.view.l, q, size, t);
    ResizingSince(m, q, q + size, {}, m.view, m.mem, v0);
  }

  /** Give back spare room at the end. */
  method GiveBackTail(m: MallocState, core: LinearMemory, q: nat, nb: nat, ghost v0: View, ghost m0: Mem)
    requires Roomy(m, core, v0, m0, q, nb) && 16 <= nb && nb % 8 == 0 && AtRest(v0)
    modifies m`mem, m`smallmap, m`treemap, m`treebins, m`view, m`top, m`topsize, m`dv, m`dvsize
    ensures Carved(m, core, v0, m0, q, nb) && HeapOf(m) == TailOff(old(HeapOf(m)), q, nb)
  {
    hide Core, Quiet, m.TopAndDv, Resizing, Steady, AtRest, Absent, Live, CutBack;
    ghost var v1, m1 := m.view, m.mem;
    OwnSize(m, q);
    LiveSize(m.view.l, q);
    var size := ChunkSize(m.mem, q);
    assert Behind(m.view.l, q) == q + size;
    if size > nb + MIN_CHUNK_SIZE {
      TailReady(m, v0, q, size, q + nb);
      SplitAndDispose(m, q, nb, size - nb, q + size, {}, v0.(l := v1.l), m1);
      QuietFewer(Live(v1.l)[q := Min(Live(v1.l)[q], nb)], Live(v0.l), m1, m.mem);
      QuietTransitive(Live(v0.l), m0, m1, m.mem);
      SegmentHolds(m, core, v1.l);
    }
  }

  /** What internal_malloc hands over is roomy enough. */
  lemma ServedRoomy(m: MallocState, core: LinearMemory, v0: View, m0: Mem, p: nat, nb: nat)
    requires Served(m, core, v0, m0, p, nb)
    ensures Roomy(m, core, v0, m0, p, nb) && p % 8 == 0 && p + Live(m.view.l)[p] + TOP_FOOT_SIZE < WORD
    ensures p in m.view.l.chunks && m.view.l.chunks[p].pin
  {
    hide Quiet, Steady;
    InUseFacts(m.St(), m.sb, m.view, m.Resting(), p);
  }

  /** The request for `bytes` at alignment a leaves room for any leader. */
  lemma OverAllocation(bytes: nat, a: nat)
    requires bytes + a < MAX_REQUEST && a % 8 == 0 && 16 <= a
    ensures var nb := Request2Size(bytes);
      && nb >= bytes + CHUNK_OVERHEAD && nb >= 16 && nb % 8 == 0 && nb == PaddedSize(bytes)
      && nb + a + MIN_CHUNK_SIZE - CHUNK_OVERHEAD < WORD
      && (nb + a + MIN_CHUNK_SIZE - CHUNK_OVERHEAD < MAX_REQUEST ==>
            PaddedSize(nb + a + MIN_CHUNK_SIZE - CHUNK_OVERHEAD) == nb + a + MIN_CHUNK_SIZE)
  {
    PaddedEnough(bytes);
  }

  lemma NoLeader(h: Heap, p: nat)
    ensures LeadOff(h, p, p) == h
  {
  }

  /** The chunk that an address aligned to a inside the chunk at p belongs to: the next such address, or the one after
      it where that leaves a leader too small to be a chunk. */
  function AlignedChunk(p: nat, a: nat): nat
    requires a > 0
  {
    if ChunkToMem(p) % a == 0 then p
    else
      var q := p - ChunkToMem(p) % a + a;
      if q < p + MIN_CHUNK_SIZE then q + a else q
  }

  lemma SpotIsNext(p: nat, a: nat, br: nat)
    requires a > 0 && p < br < p + a && (br + 8) % a == 0 && (p + 8) % a != 0
    ensures br == p - (p + 8) % a + a
  {
    var k, r := (p + 8) / a, (p + 8) % a;
    assert p + 8 == a * k + r;
    var j := (br + 8) / a;
    assert br + 8 == a * j;
    NextMultiple(a, k, j, r, br - p);
  }

  lemma NextMultiple(a: nat, k: nat, j: nat, r: nat, d: nat)
    requires 0 < d < a && 0 < r < a && a * j == a * k + r + d
    ensures r + d == a
  {
    MulOrder(a, j, k);
    MulOrder(a, k + 2, j);
    assert a * (k + 1) == a * k + a && a * (k + 2) == a * k + 2 * a;
  }

  lemma MulOrder(a: nat, j: nat, k: nat)
    ensures j <= k ==> a * j <= a * k
  {
  }

  /** Use an aligned spot inside the chunk at p: the next multiple of a, or the one after it when that
      leaves a leader too small to be a chunk. */
  method AlignWithin(m: MallocState, core: LinearMemory, p: nat, a: nat, nb: nat, ghost v0: View, ghost m0: Mem)
        returns (q: nat)
    requires Roomy(m, core, v0, m0, p, nb + a + MIN_CHUNK_SIZE) && nb >= 16 && p % 8 == 0 && p + 8 + a <= WORD
    requires PowerOfTwo(a) && MIN_ALIGNMENT <= a
    requires AtRest(v0) && p in m.view.l.chunks && m.view.l.chunks[p].pin
    modifies m`mem, m`smallmap, m`treemap, m`treebins, m`view, m`top, m`topsize, m`dv, m`dvsize
    ensures Roomy(m, core, v0, m0, q, nb) && ChunkToMem(q) % a == 0
    ensures a > 0 && q == AlignedChunk(p, a) && HeapOf(m) == LeadOff(old(HeapOf(m)), p, q)
  {
    hide Core, Quiet, PowerOfTwo, BitAnd, Valid, Roomy, AtRest, LeadOff;
    MultipleOfEight(a);
    NoLeader(HeapOf(m), p);
    var mem := ChunkToMem(p);
    q := p;
    AndMask(mem, a);
    if BitAnd(mem, a - 1) != 0 {
      AlignedSpots(mem, a);
      var br := MemToChunk(BitAnd(mem + a - 1, WORD - a));
      var pos := if br - p >= MIN_CHUNK_SIZE then br else br + a;
      LeaderFits(p, a, br, pos);
      SpotIsNext(p, a, br);
      RoomyEnough(m, core, v0, m0, p, nb + a + MIN_CHUNK_SIZE, nb + (pos - p));
      GiveBackLeader(m, core, p, pos - p, nb, v0, m0);
      q := pos;
    } else {
      RoomyEnough(m, core, v0, m0, p, nb + a + MIN_CHUNK_SIZE, nb);
    }
  }

  lemma LeaderFits(p: nat, a: nat, br: nat, pos: nat)
    requires p % 8 == 0 && a % 8 == 0 && a >= 16 && p < br < p + a && (br + 8) % 8 == 0
    requires pos == if br - p >= MIN_CHUNK_SIZE then br else br + a
    ensures MIN_CHUNK_SIZE <= pos - p <= a + 8 && (pos - p) % 8 == 0
  {
  }

  lemma RoomyEnough(m: MallocState, core: LinearMemory, v0: View, m0: Mem, p: nat, nb: nat, less: nat)
    requires Roomy(m, core, v0, m0, p, nb) && less <= nb
    ensures Roomy(m, core, v0, m0, p, less)
  {
    hide Quiet, Valid, Steady;
  }

  /** The chunk size internal_memalign looks for. */
  function AlignedNeed(bytes: nat, unit: nat): nat {
    if bytes + unit >= MAX_REQUEST then MAX_SIZE
    else PaddedSize(Request2Size(bytes) + unit + MIN_CHUNK_SIZE - CHUNK_OVERHEAD)
  }

  /** A block of `bytes` at a multiple of `unit`: more than that is allocated, and what is in front of the block and
      behind it given back. */
  ghost predicate AlignedStep(s: Machine, bytes: nat, unit: nat, mem: nat, s': Machine)
    requires unit > 0
  {
    if bytes + unit >= MAX_REQUEST then mem == NULL && s' == s
    else
      var h := MallocHeap(Primed(s), AlignedNeed(bytes, unit), s'.room);
      var raw := MallocAnswer(Primed(s), AlignedNeed(bytes, unit), s'.room);
      && MallocStep(s, AlignedNeed(bytes, unit), raw, Machine(h, s'.room))
      && (if raw < 8 then mem == NULL && s'.heap == h
          else
            var q := AlignedChunk(MemToChunk(raw), unit);
            mem == ChunkToMem(q) && s'.heap == TailOff(LeadOff(h, MemToChunk(raw), q), q, PaddedSize(bytes)))
  }

  /** internal_memalign.  `unit` is the alignment it really gives. */
  method InternalMemalign(m: MallocState, core: LinearMemory, alignment: nat, bytes: nat)
        returns (mem: nat, ghost unit: nat)
    requires Valid(m, core) && alignment <= MAX_ALIGNMENT
    modifies m, core
    ensures Valid(m, core) && m.footprintLimit == old(m.footprintLimit)
    ensures mem == NULL ==> Unserved(m, old(m.view), old(m.mem))
    ensures LeastUnit(unit, alignment)
    ensures bytes + unit >= MAX_REQUEST ==> mem == NULL
    ensures unit > 0 && AlignedStep(old(MachineOf(m, core)), bytes, unit, mem, MachineOf(m, core))
    ensures mem != NULL ==>
      mem >= 8 && mem % unit == 0 && Carved(m, core, old(m.view), old(m.mem), MemToChunk(mem), PaddedSize(bytes))
  {
    hide Core, Quiet, PowerOfTwo, BitAnd, Valid, PaddedSize, Request2Size, Served, Roomy, Carved, MallocStep, AtRest,
      MallocHeap, MallocAnswer, Primed, LeadOff, TailOff, AlignedChunk;
    ghost var s := MachineOf(m, core);
    mem := NULL;
    RestNow(m, core);
    QuietSame(Live(m.view.l), m.mem);
    var a := RoundAlignment(alignment);
    unit := a;
    MultipleOfEight(a);
    if bytes < MAX_REQUEST - a {
      OverAllocation(bytes, a);
      var nb := Request2Size(bytes);
      var req := nb + a + MIN_CHUNK_SIZE - CHUNK_OVERHEAD;
      mem := Malloc(m, core, req);
      StepParts(s, PaddedSize(req), mem, MachineOf(m, core));
      if mem != NULL {
        var p := MemToChunk(mem);
        ServedRoomy(m, core, old(m.view), old(m.mem), p, nb + a + MIN_CHUNK_SIZE);
        RoomyFits(m, core, old(m.view), old(m.mem), p, nb + a + MIN_CHUNK_SIZE);
        p := AlignWithin(m, core, p, a, nb, old(m.view), old(m.mem));
        GiveBackTail(m, core, p, nb, old(m.view), old(m.mem));
        CarvedValid(m, core, old(m.view), old(m.mem), p, nb);
        mem := ChunkToMem(p);
      }
    }
  }

  lemma RoomyFits(m: MallocState, core: LinearMemory, v0: View, m0: Mem, p: nat, nb: nat)
    requires Roomy(m, core, v0, m0, p, nb) && p + Live(m.view.l)[p] < WORD
    ensures p + nb < WORD
  {
  }

  lemma CarvedValid(m: MallocState, core: LinearMemory, v0: View, m0: Mem, q: nat, nb: nat)
    requires Carved(m, core, v0, m0, q, nb)
    ensures Valid(m, core)
  {
  }

  ghost predicate LeastUnit(unit: nat, alignment: nat) {
    PowerOfTwo(unit) && MIN_ALIGNMENT <= unit <= MAX_ALIGNMENT && unit >= alignment
      && (unit == MIN_ALIGNMENT || unit / 2 < alignment)
  }

  /** A power of two of at least 16 is given as it is asked for. */
  lemma UnitIsAlignment(unit: nat, alignment: nat)
    requires LeastUnit(unit, alignment) && PowerOfTwo(alignment)
    ensures unit == if alignment < MIN_ALIGNMENT then MIN_ALIGNMENT else alignment
  {
    MaxIsPower();
    if alignment < unit { PowersApart(alignment, unit); }
  }

  /** The least power of two that is no less than 16 and the alignment. */
  function UnitOf(alignment: nat): nat {
    if alignment <= MIN_ALIGNMENT then MIN_ALIGNMENT else 2 * UnitOf((alignment + 1) / 2)
  }

  lemma {:induction false} UnitIsUnitOf(unit: nat, alignment: nat)
    requires LeastUnit(unit, alignment)
    ensures unit == UnitOf(alignment)
    decreases alignment
  {
    MaxIsPower();
    if unit > MIN_ALIGNMENT { PowersApart(MIN_ALIGNMENT, unit); }
    if alignment > MIN_ALIGNMENT {
      UnitIsUnitOf(unit / 2, (alignment + 1) / 2);
    }
  }

  lemma {:induction false} UnitAtLeast(alignment: nat)
    ensures alignment <= UnitOf(alignment)
  {
    if alignment > MIN_ALIGNMENT { UnitAtLeast((alignment + 1) / 2); }
  }

  const MALLOC_ALIGNMENT: nat := 8
  const POINTER_SIZE: nat := 4

  lemma CarvedAligned(m: MallocState, core: LinearMemory, v0: View, m0: Mem, p: nat, nb: nat)
    requires Served(m, core, v0, m0, p, nb)
    ensures Carved(m, core, v0, m0, p, nb) && ChunkToMem(p) % 8 == 0
  {
    hide Quiet, Steady;
    InUseFacts(m.St(), m.sb, m.view, m.Resting(), p);
  }

  lemma SmallPowers(a: nat, mem: nat)
    requires PowerOfTwo(a) && a <= 8 && mem % 8 == 0
    ensures mem % a == 0
  {
    assert a == 1 || a == 2 || a == 4 || a == 8 by {
      assert PowerOfTwo(a / 2) || a == 1;
      assert a > 1 ==> a / 2 == 1 || PowerOfTwo(a / 2 / 2);
    }
    hide PowerOfTwo;
    EightsDivide(mem / 8);
  }

  lemma EightsDivide(k: nat)
    ensures 8 * k % 2 == 0 && 8 * k % 4 == 0
  {
    assert 8 * k == 2 * (4 * k) && 8 * k == 4 * (2 * k);
  }

  /** dlmemalign. */
  ghost predicate MemalignStep(s: Machine, alignment: nat, bytes: nat, mem: nat, s': Machine) {
    if alignment <= MALLOC_ALIGNMENT then MallocStep(s, PaddedSize(bytes), mem, s')
    else UnitOf(alignment) > 0 && AlignedStep(s, bytes, UnitOf(alignment), mem, s')
  }

  /** dlposix_memalign with an alignment it accepts. */
  ghost predicate PosixStep(s: Machine, alignment: nat, bytes: nat, mem: nat, s': Machine) {
    if alignment == MALLOC_ALIGNMENT then MallocStep(s, PaddedSize(bytes), mem, s')
    else UnitOf(alignment) > 0 && AlignedStep(s, bytes, UnitOf(alignment), mem, s')
  }

  /** dlmemalign. */
  method Memalign(m: MallocState, core: LinearMemory, alignment: nat, bytes: nat) returns (mem: nat)
    requires Valid(m, core) && alignment <= MAX_ALIGNMENT
    modifies m, core
    ensures Valid(m, core) && m.footprintLimit == old(m.footprintLimit)
    ensures mem == NULL ==> Unserved(m, old(m.view), old(m.mem))
    ensures mem != NULL ==>
      mem >= 8 && bytes < MAX_REQUEST && Carved(m, core, old(m.view), old(m.mem), MemToChunk(mem), PaddedSize(bytes))
    ensures mem != NULL && PowerOfTwo(alignment) ==> mem % alignment == 0
    ensures MemalignStep(old(MachineOf(m, core)), alignment, bytes, mem, MachineOf(m, core))
  {
    hide Core, Quiet, PowerOfTwo, Valid, PaddedSize, Served, Carved, MallocStep, AlignedNeed, AlignedStep;
    if alignment <= MALLOC_ALIGNMENT {
      mem := Malloc(m, core, bytes);
      if mem != NULL {
        CarvedAligned(m, core, old(m.view), old(m.mem), MemToChunk(mem), PaddedSize(bytes));
        if PowerOfTwo(alignment) { SmallPowers(alignment, mem); }
      }
    } else {
      ghost var unit;
      mem, unit := InternalMemalign(m, core, alignment, bytes);
      UnitIsUnitOf(unit, alignment);
      if PowerOfTwo(alignment) {
        UnitIsAlignment(unit, alignment);
        if mem != NULL { DividesDown(mem, unit, alignment); }
      }
    }
  }

  lemma {:induction false} DividesDown(x: nat, a: nat, b: nat)
    requires PowerOfTwo(a) && PowerOfTwo(b) && b <= a && x % a == 0
    ensures x % b == 0
  {
    if b < a {
      PowersApart(b, a);
      HalfMod(x, a / 2);
      HalfDivides(x, a / 2);
      DividesDown(x, a / 2, b);
    }
  }

  lemma HalfDivides(x: nat, h: nat)
    requires h > 0 && x % (2 * h) == 0
    ensures x % h == 0
  {
    var q := x / (2 * h);
    assert x == 2 * h * q;
    assert x == h * (2 * q) by { MulAssociates(h, 2, q); }
    ModUnique(x, h, 2 * q, 0);
  }

  datatype Posix = Allotted(mem: nat) | Einval | Enomem

  /** dlposix_memalign refuses an alignment that is not a power of two times the size of a pointer. */
  method PosixMemalign(m: MallocState, core: LinearMemory, alignment: nat, bytes: nat) returns (r: Posix)
    requires Valid(m, core) && alignment < WORD
    modifies m, core
    ensures Valid(m, core) && m.footprintLimit == old(m.footprintLimit)
    ensures !r.Allotted? ==> Unserved(m, old(m.view), old(m.mem))
    ensures r.Einval? <==> !(PowerOfTwo(alignment) && alignment >= POINTER_SIZE)
    ensures r.Allotted? ==>
      && r.mem >= 8 && r.mem % alignment == 0 && bytes < MAX_REQUEST
      && Carved(m, core, old(m.view), old(m.mem), MemToChunk(r.mem), PaddedSize(bytes))
    ensures r.Einval? ==> MachineOf(m, core) == old(MachineOf(m, core))
    ensures !r.Einval? ==>
      PosixStep(old(MachineOf(m, core)), alignment, bytes, if r.Allotted? then r.mem else NULL, MachineOf(m, core))
  {
    hide Core, Quiet, PowerOfTwo, BitAnd, Valid, PaddedSize, Served, Carved, MallocStep, MallocHeap, MallocAnswer,
      Primed;
    var mem := NULL;
    QuietSame(Live(m.view.l), m.mem);
    MaxIsPower();
    PointerUnits(alignment);
    if alignment == MALLOC_ALIGNMENT {
      mem := Malloc(m, core, bytes);
      if mem != NULL { CarvedAligned(m, core, old(m.view), old(m.mem), MemToChunk(mem), PaddedSize(bytes)); }
    } else {
      var d, rem := alignment / POINTER_SIZE, alignment % POINTER_SIZE;
      if rem != 0 || d == 0 || BitAnd(d, d - 1) != 0 {
        return Einval;
      } else if bytes <= MAX_REQUEST - alignment {
        var a := if alignment < MIN_CHUNK_SIZE then MIN_CHUNK_SIZE else alignment;
        ghost var unit;
        mem, unit := InternalMemalign(m, core, a, bytes);
        UnitIsAlignment(unit, a);
        UnitIsUnitOf(unit, a);
        if mem != NULL { DividesDown(mem, unit, alignment); }
      } else {
        UnitAtLeast(alignment);
      }
    }
    r := if mem == NULL then Enomem else Allotted(mem);
  }

  lemma PointerUnits(alignment: nat)
    requires alignment < WORD
    ensures PowerOfTwo(alignment) && alignment >= 4 <==>
      alignment % 4 == 0 && alignment / 4 != 0 && BitAnd(alignment / 4, alignment / 4 - 1) == 0
    ensures PowerOfTwo(alignment) ==> alignment <= MAX_ALIGNMENT
  {
    hide BitAnd;
    var d := alignment / 4;
    if d > 0 { AndLessOne(d); }
    assert alignment / 2 / 2 == d;
    assert PowerOfTwo(alignment) && alignment >= 4 ==> PowerOfTwo(alignment / 2) && PowerOfTwo(alignment / 2 / 2);
    assert alignment % 4 == 0 && PowerOfTwo(d) ==> PowerOfTwo(alignment / 2);
    MaxIsPower();
    if PowerOfTwo(alignment) && alignment > MAX_ALIGNMENT { PowersApart(MAX_ALIGNMENT, alignment); }
  }
}
