/** When the heap grows, by how much, and when a request goes unmet. */
module Provisions {
  import opened TreeIndices
  import opened Payloads
  import opened Tags
  import opened MallocStates
  import opened Policies
  import opened Freeing
  import opened Morecores
  import opened Machines
  import opened SysAllocs
  import opened Mallocs
  import opened Alignments
  import opened Callocs
  import opened Reallocating
  import opened Reallocs
  import opened Memaligns
  import opened Iallocs
  import opened Independents
  import opened Clients
  import opened Runs

  // one request

  /** Before there is a heap, a request that fits in the linker's is served from its start: nothing is asked of the
      system, and nothing is refused. */
  lemma FirstRequest(s: Machine, nb: nat, mem: nat, s': Machine)
    requires MallocStep(s, nb, mem, s') && s.heap.top == 0 && nb > 0
    requires var r := s.room;
      && r.span.end > r.start + MIN_CHUNK_SIZE + TOP_FOOT_SIZE + 8
      && nb + TOP_FOOT_SIZE + r.start + AlignOffset(r.start) < r.span.end
    ensures mem == ChunkToMem(s.room.start + AlignOffset(s.room.start)) && s'.room.base == s.room.start
    ensures s'.room.span == s.room.span && s'.room.footprint == s.room.span.end - s.room.start
  {
    hide Sought, SoughtHeap, SoughtAnswer, FromTop, FromDv, FromBin;
  }

  /** A larger one finds the linker's heap in place: the segment starts where it does, and top has all of it. */
  lemma FirstGrowth(s: Machine, nb: nat, mem: nat, s': Machine)
    requires MallocStep(s, nb, mem, s') && s.heap.top == 0
    requires var r := s.room;
      && r.span.end > r.start + MIN_CHUNK_SIZE + TOP_FOOT_SIZE + 8 && r.start > 0
      && nb + TOP_FOOT_SIZE + r.start + AlignOffset(r.start) >= r.span.end
    ensures var b := s.room.start + AlignOffset(s.room.start);
      var t := s.room.span.end - TOP_FOOT_SIZE - b;
      && s'.room.base == s.room.start && (mem != NULL ==> mem == ChunkToMem(b))
      && (|| s'.room.span.end == s.room.span.end
          || s'.room.span.end == s.room.span.end + GranularityAlign(nb - t + SYS_ALLOC_PADDING)
          || s'.room.span.end == s.room.span.end + AskedFor(nb))
  {
    hide AfterMalloc, FromTop, FromBin, FromDv, GranularityAlign, CanCome, CanFail, PagesUpTo, Permitted, AskedFor;
    AlignOffsetAligns(s.room.start);
  }

  /** What is asked for first, once there is a heap: the least multiple of the granularity that makes up what top lacks
      of nb bytes and the padding. */
  lemma AskLeast(s: Machine, nb: nat)
    requires s.heap.top != 0 && s.heap.topsize <= nb && nb + SYS_ALLOC_PADDING + GRANULARITY <= HALF_MAX_SIZE
    ensures var lack := nb - s.heap.topsize + SYS_ALLOC_PADDING; var size := FirstAsk(s, nb, AskedFor(nb));
      size % GRANULARITY == 0 && lack <= size < lack + GRANULARITY
  {
    hide GranularityAlign;
    AlignedUp(nb - s.heap.topsize + SYS_ALLOC_PADDING);
  }

  /** Without a heap what is asked for first is asize and what takes the end to a granularity boundary. */
  lemma AskToBoundary(s: Machine, nb: nat)
    requires s.heap.top == 0 && nb + SYS_ALLOC_PADDING + 2 * GRANULARITY <= HALF_MAX_SIZE
    requires FirstAsk(s, nb, AskedFor(nb)) > 0
    requires s.room.span.end + nb + SYS_ALLOC_PADDING + 3 * GRANULARITY <= WORD
    ensures var size := FirstAsk(s, nb, AskedFor(nb));
      AskedFor(nb) <= size < AskedFor(nb) + GRANULARITY && (s.room.span.end + size) % GRANULARITY == 0
  {
    hide GranularityAlign;
    var end, asize := s.room.span.end, AskedFor(nb);
    AlignedUp(nb + SYS_ALLOC_PADDING);
    AlignedUp(end);
    BoundarySum(end, GranularityAlign(end), asize);
  }

  lemma BoundarySum(end: nat, up: nat, asize: nat)
    requires up % GRANULARITY == 0 && asize % GRANULARITY == 0 && end <= up < end + GRANULARITY
    requires up + asize < WORD
    ensures (asize + up + WORD - end) % WORD == asize + (up - end)
    ensures (end + (asize + (up - end))) % GRANULARITY == 0 && (end % GRANULARITY == 0 ==> up == end)
  {
    var i, j := up / GRANULARITY, asize / GRANULARITY;
    assert up == GRANULARITY * i && asize == GRANULARITY * j && up + asize == GRANULARITY * (i + j);
  }

  /** What top lacks is had if it is in reach and the memory is there or the host does not refuse: then the heap grows
      by just that, and the request is met. */
  lemma GrowthExact(s: Machine, nb: nat, mem: nat, s': Machine)
    requires ServedStep(s, nb, mem, s') && !Serves(s.heap, nb) && s.room.contiguous
    requires AskedFor(nb) > nb && Permitted(s.room, AskedFor(nb))
    requires var size, span := FirstAsk(s, nb, AskedFor(nb)), s.room.span;
      && size > 0 && Reachable(span, size)
      && (span.end + size <= span.pages * WASM_PAGE || s'.room.span.refusals == span.refusals)
    ensures var size := FirstAsk(s, nb, AskedFor(nb));
      && mem != NULL && s'.room.footprint == s.room.footprint + size
      && s'.room.span.end == s.room.span.end + size && s'.room.contiguous
      && (s.heap.top != 0 ==> mem == ChunkToMem(s.heap.top))
  {
    hide Serves, FirstAsk, AskedFor, Reachable, FromTop, Permitted;
  }

  /** Why a request for nb bytes goes unmet: its size or the footprint limit rules it out, or what is asked for first,
      if the heap is thought to be contiguous, and then all of asize were both denied. */
  ghost predicate Denied(s: Machine, nb: nat, span: Span) {
    var asize := AskedFor(nb);
    || asize <= nb || !Permitted(s.room, asize)
    || (var first := if s.room.contiguous then FirstAsk(s, nb, asize) else 0;
        && CanFail(s.room.span, first) && CanFail(Vain(s.room.span, first), LastAsk(asize))
        && span == Vain(Vain(s.room.span, first), LastAsk(asize)))
  }

  /** A request goes unmet only where the heap has nothing that fits and no more is to be had; the heap is then as it
      was. */
  lemma UnmetIsDenied(s: Machine, nb: nat, s': Machine)
    requires ServedStep(s, nb, NULL, s')
    ensures !Serves(s.heap, nb) && Denied(s, nb, s'.room.span) && s'.heap == s.heap
    ensures s'.room.span.end == s.room.span.end && s'.room.span.pages == s.room.span.pages
    ensures s'.room.footprint == s.room.footprint && s'.room.limit == s.room.limit
  {
    hide Serves, FirstAsk, AskedFor, Reachable, FromTop, Permitted, AfterMalloc, LastAsk, Granted;
  }

  // the demands of a run

  /** Whether a call asks for memory, ... */
  ghost predicate Asks(r: Request) {
    match r
    case Malloc(_) => true
    case Calloc(_, _) => true
    case Realloc(_, _) => true
    case Memalign(_, _) => true
    case PosixMemalign(alignment, _) => PowerOfTwo(alignment) && alignment >= POINTER_SIZE
    case IndependentCalloc(n, _, target) => n > 0 || ChunksOf(target) == NULL
    case IndependentComalloc(sizes, target) => |sizes| > 0 || ChunksOf(target) == NULL
    case _ => false
  }

  /** ... and how large a chunk it needs. */
  function NeedOf(r: Request): nat {
    match r
    case Malloc(bytes) => PaddedSize(bytes)
    case Calloc(count, size) => PaddedSize(Mul(count, size))
    case Realloc(_, bytes) => PaddedSize(bytes)
    case Memalign(alignment, bytes) =>
      if alignment <= MALLOC_ALIGNMENT then PaddedSize(bytes) else AlignedNeed(bytes, UnitOf(alignment))
    case PosixMemalign(alignment, bytes) =>
      if alignment == MALLOC_ALIGNMENT then PaddedSize(bytes) else AlignedNeed(bytes, UnitOf(alignment))
    case IndependentCalloc(n, size, target) => AggregateNeed(n, true, [size], ChunksOf(target) == NULL)
    case IndependentComalloc(sizes, target) => AggregateNeed(|sizes|, false, sizes, ChunksOf(target) == NULL)
    case _ => 0
  }

  /** A call that needs nb bytes finds them without dlmalloc, has dlmalloc look for them, or asks for more than there
      can be. */
  ghost predicate Looks(s: Machine, nb: nat, answer: nat, room: Headroom) {
    || (room == s.room && (answer != NULL || nb == MAX_SIZE))
    || (exists mem: nat :: LooksFor(s, nb, mem, room) && (mem == NULL <==> answer == NULL))
  }

  ghost predicate LooksFor(s: Machine, nb: nat, mem: nat, room: Headroom) {
    MallocStep(s, nb, mem, Machine(MallocHeap(Primed(s), nb, room), room))
  }

  lemma StepLooks(s: Machine, nb: nat, answer: nat, s': Machine)
    requires MallocStep(s, nb, answer, s')
    ensures Looks(s, nb, answer, s'.room)
  {
    hide MallocStep, MallocHeap, Primed;
    StepParts(s, nb, answer, s');
    assert LooksFor(s, nb, answer, s'.room);
  }

  lemma AlignedLooks(s: Machine, bytes: nat, unit: nat, mem: nat, s': Machine)
    requires unit > 0 && AlignedStep(s, bytes, unit, mem, s')
    ensures Looks(s, AlignedNeed(bytes, unit), mem, s'.room)
  {
    hide MallocStep, MallocHeap, Primed, AlignedNeed, AlignedChunk, TailOff, LeadOff, SoughtAnswer, PaddedSize;
    if bytes + unit >= MAX_REQUEST {
      assert AlignedNeed(bytes, unit) == MAX_SIZE by { TooAligned(bytes, unit); }
    } else {
      var raw := MallocAnswer(Primed(s), AlignedNeed(bytes, unit), s'.room);
      assert LooksFor(s, AlignedNeed(bytes, unit), raw, s'.room);
      AnswerSomewhere(Primed(s), AlignedNeed(bytes, unit), s'.room);
    }
  }

  lemma TooAligned(bytes: nat, unit: nat)
    requires bytes + unit >= MAX_REQUEST
    ensures AlignedNeed(bytes, unit) == MAX_SIZE
  {
  }

  lemma AnswerSomewhere(s: Machine, nb: nat, room: Headroom)
    ensures MallocAnswer(s, nb, room) == NULL || MallocAnswer(s, nb, room) >= 8
  {
    hide Serves, Granted, GrownHeap;
  }

  lemma ReallocLooks(s: Machine, oldmem: nat, bytes: nat, mem: nat, s': Machine)
    requires ReallocStep(s, oldmem, bytes, mem, s')
    ensures Looks(s, PaddedSize(bytes), mem, s'.room)
  {
    hide MallocStep, MallocHeap, Primed, FitsInPlace, AfterResize, AfterFree, PaddedSize;
    PaddedEnough(bytes);
    if oldmem == NULL {
      StepLooks(s, PaddedSize(bytes), mem, s');
    } else if bytes < MAX_REQUEST && !FitsInPlace(s.heap.l, MemToChunk(oldmem), PaddedSize(bytes)) {
      assert LooksFor(s, PaddedSize(bytes), mem, s'.room);
    }
  }

  lemma IallocLooks(s: Machine, n: nat, same: bool, sizes: seq<nat>, chunks: nat, marray: nat, elements: seq<nat>,
          s': Machine)
    requires if same then |sizes| > 0 else |sizes| == n
    requires IallocStep(s, n, same, sizes, chunks, marray, elements, s') && (n > 0 || chunks == NULL)
    ensures Looks(s, AggregateNeed(n, same, sizes, chunks == NULL), marray, s'.room)
  {
    hide MallocStep, MallocHeap, MallocAnswer, Primed, CutUp, PieceSizes, Pointers, Needs, Sum, Aggregate, Live;
    if n == 0 {
      StepLooks(s, MIN_CHUNK_SIZE, marray, s');
    } else {
      var nb := AggregateNeed(n, same, sizes, chunks == NULL);
      assert LooksFor(s, nb, MallocAnswer(Primed(s), nb, s'.room), s'.room);
      AnswerSomewhere(Primed(s), nb, s'.room);
    }
  }

  lemma CallLooks(b: Blocks, s: Machine, r: Request, answer: nat, b': Blocks, s': Machine)
    requires Transition(b, s, r, answer, b', s') && Asks(r)
    ensures Looks(s, NeedOf(r), answer, s'.room)
  {
    hide MallocStep, ReallocStep, AlignedStep, IallocStep, Looks, Spread, Counts, PowerOfTwo, AlignedNeed, UnitOf,
      AggregateNeed, PaddedSize, Mul;
    match r {
      case Malloc(bytes) => StepLooks(s, PaddedSize(bytes), answer, s');
      case Calloc(count, size) => StepLooks(s, PaddedSize(Mul(count, size)), answer, s');
      case Realloc(mem, bytes) => ReallocLooks(s, mem, bytes, answer, s');
      case Memalign(alignment, bytes) =>
        if alignment <= MALLOC_ALIGNMENT { StepLooks(s, PaddedSize(bytes), answer, s'); }
        else { AlignedLooks(s, bytes, UnitOf(alignment), answer, s'); }
      case PosixMemalign(alignment, bytes) =>
        if alignment == MALLOC_ALIGNMENT { StepLooks(s, PaddedSize(bytes), answer, s'); }
        else { AlignedLooks(s, bytes, UnitOf(alignment), answer, s'); }
      case IndependentCalloc(n, size, target) =>
        ScatterLooks(b, s, n, true, [size], true, target, answer, b', s');
      case IndependentComalloc(sizes, target) =>
        ScatterLooks(b, s, |sizes|, false, sizes, false, target, answer, b', s');
      case _ =>
    }
  }

  lemma ScatterLooks(b: Blocks, s: Machine, n: nat, same: bool, sizes: seq<nat>, clear: bool, t: Target, answer: nat,
          b': Blocks, s': Machine)
    requires if same then |sizes| > 0 else |sizes| == n
    requires ScatterStep(b, s, n, same, sizes, clear, t, answer, b', s') && (n > 0 || ChunksOf(t) == NULL)
    ensures Looks(s, AggregateNeed(n, same, sizes, ChunksOf(t) == NULL), answer, s'.room)
  {
    hide IallocStep, Spread, Counts, AggregateNeed, Looks;
    var elements: seq<nat> :| IallocStep(s, n, same, sizes, ChunksOf(t), answer, elements, s');
    IallocLooks(s, n, same, sizes, ChunksOf(t), answer, elements, s');
  }

  /** By how much more than the chunk it needs a call may make the heap grow. */
  const SLACK: nat := SYS_ALLOC_PADDING + 2 * GRANULARITY

  lemma RoundedBelow(x: nat)
    ensures GranularityAlign(x) <= x + GRANULARITY
  {
    RoundedDown((x + (GRANULARITY - 1)) % WORD);
  }

  /** What takes the end to a granularity boundary is less than the granularity. */
  lemma GapBelow(end: nat, asize: nat)
    requires end < WORD
    ensures (asize + (if end % GRANULARITY == 0 then 0 else GranularityAlign(end) + WORD - end)) % WORD
      <= asize + GRANULARITY
  {
    hide GranularityAlign;
    AlignedUp(end);
  }

  lemma AsksLittle(s: Machine, nb: nat)
    requires s.room.span.end < WORD
    ensures FirstAsk(s, nb, AskedFor(nb)) <= nb + SLACK && LastAsk(AskedFor(nb)) <= AskedFor(nb) <= nb + SLACK
  {
    hide GranularityAlign, Permitted;
    RoundedBelow((nb + SYS_ALLOC_PADDING) % WORD);
    RoundedBelow(Gap(s.heap.topsize, nb) + SYS_ALLOC_PADDING);
    GapBelow(s.room.span.end, AskedFor(nb));
  }

  lemma PrimedRoom(s: Machine)
    ensures Primed(s).room.span == s.room.span && Primed(s).room.limit == s.room.limit
    ensures FootprintWithin(s) ==> FootprintWithin(Primed(s))
  {
  }

  lemma GainedGrew(s: Span, size: nat)
    requires s.end <= s.pages * WASM_PAGE
    ensures Grew(s, Gained(s, size)) && Grew(s, s) && Grew(s, Vain(s, size))
    ensures Vain(s, size).end == s.end && Vain(s, size).pages == s.pages
  {
    HeldPages(s.end, s.pages);
  }

  /** A request makes the heap grow by little more than what it is for, and the memory by no more than the heap
      needs. */
  lemma SoughtBounded(s: Machine, nb: nat, room: Headroom)
    requires Sought(s, nb, room) && s.room.span.end <= s.room.span.pages * WASM_PAGE && s.room.span.end < WORD
    ensures Grew(s.room.span, room.span) && room.limit == s.room.limit
    ensures room.span.end <= s.room.span.end + nb + SLACK && room.span.end < WORD
  {
    hide FirstAsk, AskedFor, LastAsk, Grew, CanFail, Vain, Permitted, PagesUpTo;
    AsksLittle(s, nb);
    var first := if s.room.contiguous then FirstAsk(s, nb, AskedFor(nb)) else 0;
    var span := Vain(s.room.span, first);
    GainedGrew(s.room.span, first);
    GainedGrew(span, LastAsk(AskedFor(nb)));
    GrewTransitive(s.room.span, span, Gained(span, LastAsk(AskedFor(nb))));
    GrewTransitive(s.room.span, span, Vain(span, LastAsk(AskedFor(nb))));
  }

  lemma LooksBounded(s: Machine, nb: nat, answer: nat, room: Headroom)
    requires Looks(s, nb, answer, room) && s.room.span.end <= s.room.span.pages * WASM_PAGE && s.room.span.end < WORD
    ensures Grew(s.room.span, room.span) && room.limit == s.room.limit
    ensures room.span.end <= s.room.span.end + nb + SLACK && room.span.end < WORD
  {
    hide Sought, Grew, Serves, SoughtAnswer, MallocHeap, AfterMalloc, Granted;
    GainedGrew(s.room.span, 0);
    PrimedRoom(s);
    hide Primed;
    if !(room == s.room) {
      var mem: nat :| LooksFor(s, nb, mem, room);
      if !Serves(Primed(s).heap, nb) { SoughtBounded(Primed(s), nb, room); }
    }
  }

  function CallDemand(legal: bool, asks: bool, need: nat): nat { if legal && asks then need + SLACK else 0 }

  /** What the first n calls of a run may make the heap grow by. */
  ghost function Demand(client: seq<nat> -> Request, answers: seq<nat>, states: seq<Blocks>, n: nat): nat
    requires n <= |answers| < |states|
  {
    if n == 0 then 0
    else
      var r := client(answers[..n - 1]);
      Demand(client, answers, states, n - 1) + CallDemand(Legal(states[n - 1], r), Asks(r), NeedOf(r))
  }

  lemma SpanStep(b: Blocks, s: Machine, r: Request, answer: nat, b': Blocks, s': Machine)
    requires Transition(b, s, r, answer, b', s') && s.room.span.end <= s.room.span.pages * WASM_PAGE
    requires s.room.span.end < WORD
    ensures Grew(s.room.span, s'.room.span) && s'.room.span.end < WORD
    ensures s'.room.span.end <= s.room.span.end + CallDemand(true, Asks(r), NeedOf(r))
  {
    hide Grew, NeedOf, Looks;
    if Asks(r) {
      CallLooks(b, s, r, answer, b', s');
      LooksBounded(s, NeedOf(r), answer, s'.room);
    } else {
      GainedGrew(s.room.span, 0);
      hide FitsInPlace, AfterResize, AfterFree, AfterBulk, LimitSet, Spread, Counts, PowerOfTwo;
    }
  }

  lemma GrewHeld(s0: Span, s: Span)
    requires Grew(s0, s)
    ensures s.end <= s.pages * WASM_PAGE
  {
    HeldPages(s.end, s.pages);
  }

  /** The heap has grown by no more than what was asked for, and the memory by no more than the heap needs. */
  lemma {:induction false} EndBounded(client: seq<nat> -> Request, answers: seq<nat>, states: seq<Blocks>,
          machines: seq<Machine>, n: nat)
    requires Works(client, answers, states, machines) && n <= |answers|
    requires machines[0].room.span.end <= machines[0].room.span.pages * WASM_PAGE && machines[0].room.span.end < WORD
    ensures Grew(machines[0].room.span, machines[n].room.span)
    ensures machines[n].room.footprint <= machines[n].room.span.end < WORD
    ensures machines[n].room.span.end <= machines[0].room.span.end + Demand(client, answers, states, n)
  {
    hide Legal, Asks, NeedOf, Grew, Transition;
    assert FootprintWithin(machines[n]);
    if n == 0 {
      GainedGrew(machines[0].room.span, 0);
    } else {
      EndBounded(client, answers, states, machines, n - 1);
      assert MachineAt(client, answers, states, machines, n - 1);
      GrewHeld(machines[0].room.span, machines[n - 1].room.span);
      var r := client(answers[..n - 1]);
      if Legal(states[n - 1], r) {
        SpanStep(states[n - 1], machines[n - 1], r, answers[n - 1], states[n], machines[n]);
        GrewTransitive(machines[0].room.span, machines[n - 1].room.span, machines[n].room.span);
      }
    }
  }

  /** A request is met where all of asize is in reach, and the memory is there or the host does not refuse. */
  lemma LooksMet(s: Machine, nb: nat, answer: nat, room: Headroom)
    requires Looks(s, nb, answer, room) && FootprintWithin(s) && s.room.span.pages < MAX_PAGES
    requires nb + SLACK <= HALF_MAX_SIZE && s.room.span.end + nb + SLACK <= WORD - WASM_PAGE
    requires s.room.limit == 0 || s.room.span.end + nb + SLACK <= s.room.limit
    requires s.room.span.end + nb + SLACK <= s.room.span.pages * WASM_PAGE || room.span.refusals == s.room.span.refusals
    ensures answer != NULL
  {
    hide Serves, FirstAsk, SoughtHeap, AfterMalloc, Granted, FromTop;
    if answer == NULL {
      var mem: nat :| LooksFor(s, nb, mem, room) && (mem == NULL <==> answer == NULL);
      PrimedRoom(s);
      hide Primed;
      UnmetIsDenied(Primed(s), nb, Machine(MallocHeap(Primed(s), nb, room), room));
      NotDenied(Primed(s), nb, room.span);
    }
  }

  lemma NotDenied(s: Machine, nb: nat, span: Span)
    requires FootprintWithin(s) && s.room.span.pages < MAX_PAGES
    requires nb + SLACK <= HALF_MAX_SIZE && s.room.span.end + nb + SLACK <= WORD - WASM_PAGE
    requires s.room.limit == 0 || s.room.span.end + nb + SLACK <= s.room.limit
    requires s.room.span.end + nb + SLACK <= s.room.span.pages * WASM_PAGE || span.refusals == s.room.span.refusals
    ensures !Denied(s, nb, span)
  {
    hide FirstAsk, GranularityAlign;
    AlignedUp(nb + SYS_ALLOC_PADDING);
  }

  /** In any run a request is met if all that was asked for so far fits below the last page, and below the footprint
      limit if there is one, and either the memory for it was there from the start or the host does not refuse. */
  lemma RequestMet(client: seq<nat> -> Request, answers: seq<nat>, states: seq<Blocks>, machines: seq<Machine>, i: nat)
    requires Works(client, answers, states, machines) && i < |answers|
    requires var span := machines[0].room.span;
      span.end <= span.pages * WASM_PAGE && span.end < WORD && span.pages < MAX_PAGES
    requires var r := client(answers[..i]);
      Legal(states[i], r) && Asks(r) && NeedOf(r) + SLACK <= HALF_MAX_SIZE
    requires var reach := machines[0].room.span.end + Demand(client, answers, states, i + 1);
      && reach <= WORD - WASM_PAGE
      && (machines[i].room.limit == 0 || reach <= machines[i].room.limit)
      && (|| reach <= machines[0].room.span.pages * WASM_PAGE
          || machines[i + 1].room.span.refusals == machines[i].room.span.refusals)
    ensures answers[i] != NULL
  {
    hide Legal, Asks, NeedOf, PagesUpTo, Transition, Looks;
    EndBounded(client, answers, states, machines, i);
    assert MachineAt(client, answers, states, machines, i);
    var r := client(answers[..i]);
    FewPages(machines[0].room.span, machines[i].room.span);
    CallLooks(states[i], machines[i], r, answers[i], states[i + 1], machines[i + 1]);
    LooksMet(machines[i], NeedOf(r), answers[i], machines[i + 1].room);
  }

  lemma FewPages(s0: Span, s: Span)
    requires Grew(s0, s) && s0.pages < MAX_PAGES && s.end <= WORD - WASM_PAGE
    ensures s0.pages <= s.pages < MAX_PAGES
  {
  }

  /** The first block of a run is the start of the linker's heap if it fits there, whatever the host would say to a
      request for more. */
  lemma FirstBlock(client: seq<nat> -> Request, answers: seq<nat>, states: seq<Blocks>, machines: seq<Machine>,
          heapBase: nat, heapEndSymbol: nat, pages: nat)
    requires Works(client, answers, states, machines) && |answers| > 0
    requires FirstMachine(machines[0], heapBase, heapEndSymbol, pages)
    requires client([]).Malloc? && Legal(states[0], client([]))
    requires heapEndSymbol > heapBase + MIN_CHUNK_SIZE + TOP_FOOT_SIZE + 8
    requires PaddedSize(client([]).bytes) + TOP_FOOT_SIZE + heapBase + AlignOffset(heapBase) < heapEndSymbol
    ensures answers[0] == ChunkToMem(heapBase + AlignOffset(heapBase))
    ensures machines[1].room.span == machines[0].room.span && machines[1].room.base == heapBase
  {
    hide PaddedSize, Primed, Legal, ServedStep;
    assert MachineAt(client, answers, states, machines, 0);
    assert answers[..0] == [];
    PaddedEnough(client([]).bytes);
    FirstRequest(machines[0], PaddedSize(client([]).bytes), answers[0], machines[1]);
  }
}
