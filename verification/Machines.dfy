/** What dlmalloc does when nothing in the heap fits: how much memory it asks the system for, and what the whole
    allocator is afterwards. */
module Machines {
  import opened Layouts
  import opened Tags
  import opened TreeIndices
  import opened MallocStates
  import opened Freeing
  import opened Growing
  import opened Morecores
  import opened Policies

  const GRANULARITY: nat := 4096
  const SYS_ALLOC_PADDING: nat := 48
  const HALF_MAX_SIZE: nat := 0x7FFF_FFFF
  const MAX_SIZE: nat := 0xFFFF_FFFF

  /** align_offset(chunk2mem(p)). */
  function AlignOffset(p: nat): nat { (8 - p % 8) % 8 }

  /** granularity_align and page_align, in 32 bits. */
  function GranularityAlign(s: nat): nat { (s + (GRANULARITY - 1)) % WORD / GRANULARITY * GRANULARITY }

  /** What decides whether the heap can grow: the linker's __heap_base, where the segment starts, what it has and may
      have at most, whether it is still thought to be contiguous, and how far it and the memory under it reach. */
  datatype Headroom = Headroom(start: nat, base: nat, footprint: nat, peak: nat, limit: nat, contiguous: bool,
    span: Span)

  /** The whole allocator, leaving out the words. */
  datatype Machine = Machine(heap: Heap, room: Headroom)

  ghost function HeadroomOf(m: MallocState, core: LinearMemory): Headroom
    reads m, core
  {
    Headroom(m.heapBase, m.segBase, m.footprint, m.maxFootprint, m.footprintLimit, !m.noncontiguous, core.Reach())
  }

  ghost function MachineOf(m: MallocState, core: LinearMemory): Machine
    reads m, core
  {
    Machine(HeapOf(m), HeadroomOf(m, core))
  }

  // the first segment

  /** The heap when its first segment is [base, end): all but the foot and what alignment costs is top. */
  ghost function FirstHeap(base: nat, end: nat): Heap {
    var p := base + AlignOffset(base);
    var size := Gap(p + TOP_FOOT_SIZE, end);
    Heap(Layout(p, p + size, map[p := Chunk(size, false, true)]), map[], 0, 0, p, size)
  }

  /** Before the first call the linker's heap, if it is large enough, is made the first segment. */
  ghost function Primed(s: Machine): Machine {
    var size := Gap(s.room.start, s.room.span.end);
    if s.heap.top == 0 && size > MIN_CHUNK_SIZE + TOP_FOOT_SIZE + 8 then
      Machine(FirstHeap(s.room.start, s.room.span.end),
              s.room.(base := s.room.start, footprint := size, peak := size))
    else s
  }

  // growth

  /** asize: what sys_alloc reckons with for nb bytes. */
  function AskedFor(nb: nat): nat { GranularityAlign((nb + SYS_ALLOC_PADDING) % WORD) }

  /** What it asks for first: without a heap, all of that and what takes the end to a granularity boundary; with one,
      what top lacks.  0 stands for nothing. */
  ghost function FirstAsk(s: Machine, nb: nat, asize: nat): nat {
    if s.heap.top == 0 then
      var end := s.room.span.end;
      var size := (asize + (if end % GRANULARITY == 0 then 0 else GranularityAlign(end) + WORD - end)) % WORD;
      if size > nb && size < HALF_MAX_SIZE && Permitted(s.room, size) then size else 0
    else
      var size := GranularityAlign(Gap(s.heap.topsize, nb) + SYS_ALLOC_PADDING);
      if size < HALF_MAX_SIZE then size else 0
  }

  /** What it asks for in the end. */
  function LastAsk(asize: nat): nat { if asize < HALF_MAX_SIZE then asize else 0 }

  /** The footprint limit, if there is one, allows for `size` more bytes. */
  predicate Permitted(r: Headroom, size: nat) {
    r.limit == 0 || r.footprint < (r.footprint + size) % WORD <= r.limit
  }

  /** The heap with `size` bytes more at `end`, where the segment, if there is one, ends. */
  ghost function GrownHeap(h: Heap, end: nat, size: nat): Heap {
    if h.top == 0 then FirstHeap(end, end + size)
    else h.(l := if h.top in h.l.chunks then Extend(h.l, h.top, size) else h.l, topsize := h.topsize + size)
  }

  /** `size` more bytes at tbase are recorded. */
  function Recorded(r: Headroom, isFirst: bool, tbase: nat, size: nat): Headroom {
    r.(base := if isFirst then tbase else r.base, footprint := r.footprint + size,
       peak := MaxOf(r.peak, r.footprint + size))
  }

  ghost function Enlarged(s: Machine, size: nat): Headroom {
    Recorded(s.room.(span := Gained(s.room.span, size)), s.heap.top == 0, s.room.span.end, size)
  }

  /** The search for memory: first what is lacking, if the heap is still thought to be contiguous, and, when that is not
      to be had, all of asize. */
  ghost predicate Searched(s: Machine, nb: nat, asize: nat, room: Headroom) {
    var r := s.room;
    var first, last := if r.contiguous then FirstAsk(s, nb, asize) else 0, LastAsk(asize);
    var r' := r.(contiguous := false, span := Vain(r.span, first));
    || (CanCome(r.span, first) && room == Enlarged(s, first))
    || (CanFail(r.span, first)
        && (|| (CanCome(r'.span, last) && room == Enlarged(s.(room := r'), last))
            || (CanFail(r'.span, last) && room == r'.(span := Vain(r'.span, last)))))
  }

  /** sys_alloc asks for nothing if the size or the limit forbids it. */
  ghost predicate Sought(s: Machine, nb: nat, room: Headroom) {
    if AskedFor(nb) <= nb || !Permitted(s.room, AskedFor(nb)) then room == s.room
    else Searched(s, nb, AskedFor(nb), room)
  }

  /** The heap once the room for growth is `room`: if it has grown, nb bytes are granted from top. */
  ghost function SoughtHeap(s: Machine, nb: nat, room: Headroom): Heap {
    if room.footprint > s.room.footprint then
      FromTop(GrownHeap(s.heap, s.room.span.end, room.footprint - s.room.footprint), nb)
    else s.heap
  }

  ghost function SoughtAnswer(s: Machine, nb: nat, room: Headroom): nat {
    if room.footprint > s.room.footprint then
      ChunkToMem(GrownHeap(s.heap, s.room.span.end, room.footprint - s.room.footprint).top)
    else NULL
  }

  // dlmalloc

  /** The heap after a request for nb bytes, when the room for growth is `room` afterwards. */
  ghost function MallocHeap(s: Machine, nb: nat, room: Headroom): Heap {
    if Serves(s.heap, nb) then AfterMalloc(s.heap, nb) else SoughtHeap(s, nb, room)
  }

  /** What it answers. */
  ghost function MallocAnswer(s: Machine, nb: nat, room: Headroom): nat {
    if Serves(s.heap, nb) then ChunkToMem(Granted(s.heap, nb)) else SoughtAnswer(s, nb, room)
  }

  ghost predicate MallocRoom(s: Machine, nb: nat, room: Headroom) {
    if Serves(s.heap, nb) then room == s.room else Sought(s, nb, room)
  }

  /** A request for nb bytes answers mem and leaves s'. */
  ghost predicate ServedStep(s: Machine, nb: nat, mem: nat, s': Machine) {
    MallocRoom(s, nb, s'.room) && mem == MallocAnswer(s, nb, s'.room) && s'.heap == MallocHeap(s, nb, s'.room)
  }

  lemma FetchedStep(s: Machine, nb: nat, p: nat, s': Machine)
    requires Serves(s.heap, nb) && Fetched(s.heap, nb, p, s'.heap) && s'.room == s.room
    ensures ServedStep(s, nb, ChunkToMem(p), s')
  {
    hide Serves, AfterMalloc, Granted;
  }

  lemma SoughtStep(s: Machine, nb: nat, mem: nat, s': Machine)
    requires !Serves(s.heap, nb) && Sought(s, nb, s'.room)
    requires s'.heap == SoughtHeap(s, nb, s'.room) && mem == SoughtAnswer(s, nb, s'.room)
    ensures ServedStep(s, nb, mem, s')
  {
    hide Serves, Sought, SoughtHeap, SoughtAnswer;
  }

  /** dlmalloc of nb bytes. */
  ghost predicate MallocStep(s: Machine, nb: nat, mem: nat, s': Machine) {
    ServedStep(Primed(s), nb, mem, s')
  }

  lemma StepParts(s: Machine, nb: nat, mem: nat, s': Machine)
    requires MallocStep(s, nb, mem, s')
    ensures s'.heap == MallocHeap(Primed(s), nb, s'.room) && mem == MallocAnswer(Primed(s), nb, s'.room)
    ensures s' == Machine(MallocHeap(Primed(s), nb, s'.room), s'.room)
  {
    hide MallocRoom, MallocAnswer, MallocHeap, Primed;
  }
}
