/** Whole runs: to its client the allocator is a map from pointers to byte strings. */
module Runs {
  import opened Memory
  import opened Layouts
  import opened Payloads
  import opened TreeIndices
  import opened Ages
  import opened Heaps
  import opened MallocStates
  import opened Policies
  import opened Freeing
  import opened Morecores
  import opened Machines
  import opened SysAllocs
  import opened Mallocs
  import opened Bytes
  import opened UserWrites
  import opened Reallocating
  import opened Reallocs
  import opened Alignments
  import opened Memaligns
  import opened BulkFrees
  import opened Fifo
  import opened Callocs
  import opened Clients
  import opened Iallocs
  import opened Independents

  // the calls a client can make

  datatype Request =
    | Malloc(bytes: nat)
    | Calloc(count: nat, size: nat)
    | Realloc(mem: nat, bytes: nat)
    | ReallocInPlace(mem: nat, bytes: nat)
    | Memalign(alignment: nat, bytes: nat)
    | PosixMemalign(alignment: nat, bytes: nat)
    | IndependentCalloc(n: nat, size: nat, target: Target)
    | IndependentComalloc(sizes: seq<nat>, target: Target)
    | Free(mem: nat)
    | BulkFree(mems: seq<nat>)
    | SetFootprintLimit(bytes: nat)
    | Write(mem: nat, offset: nat, value: nat)

  /** The total size of the chunks for n elements and, if there is to be one, their array: ialloc trusts it to fit
      in 32 bits. */
  predicate Addressable(n: nat, same: bool, sizes: seq<nat>, own: bool)
    requires if same then |sizes| > 0 else |sizes| == n
  {
    Aggregate(n, same, sizes, own) < WORD
  }

  /** What a well-behaved client asks for: live pointers, and writes inside their blocks. */
  predicate Legal(b: Blocks, r: Request) {
    match r
    case Calloc(count, size) => count < WORD && size < WORD
    case Realloc(mem, _) => mem == NULL || mem in b
    case ReallocInPlace(mem, _) => mem == NULL || mem in b
    case Memalign(alignment, _) => alignment <= MAX_ALIGNMENT
    case PosixMemalign(alignment, _) => alignment < WORD
    case IndependentCalloc(n, size, target) => Addressable(n, true, [size], target == Own) && TargetLegal(b, n, target)
    case IndependentComalloc(sizes, target) => Addressable(|sizes|, false, sizes, target == Own)
      && TargetLegal(b, |sizes|, target)
    case Free(mem) => mem == NULL || mem in b
    case SetFootprintLimit(bytes) => bytes < WORD
    case BulkFree(mems) => (forall p | p in mems :: p == NULL || p in b)
      && (forall i, j | 0 <= i < j < |mems| :: mems[i] == NULL || mems[i] != mems[j])
    case Write(mem, offset, value) => mem in b && offset < |b[mem]| && value < BYTE
    case _ => true
  }

  /** The block at mem lives on at `answer`, which is mem or unused before, with `count` bytes, contents included as
      far as both reach. */
  ghost predicate Moves(b: Blocks, b': Blocks, mem: nat, answer: nat, count: nat)
    requires mem in b
  {
    && answer in b' && b' == (b - {mem})[answer := b'[answer]] && (answer == mem || answer !in b)
    && |b'[answer]| == count && b'[answer][..Min(|b[mem]|, count)] == b[mem][..Min(|b[mem]|, count)]
  }

  function Put(bytes: seq<nat>, offset: nat, value: nat): seq<nat>
    requires offset < |bytes|
  {
    bytes[offset := value]
  }

  /** A call that asks for many blocks at once. */
  ghost predicate Scatters(b: Blocks, b': Blocks, answer: nat, t: Target, counts: seq<nat>, zero: bool) {
    if answer == NULL then b' == b else exists elements :: Spread(b, b', answer, t, counts, zero, elements)
  }

  /** The meaning of each call on blocks. */
  ghost predicate Meaning(b: Blocks, r: Request, answer: nat, b': Blocks)
    requires Legal(b, r)
  {
    match r
    case Malloc(bytes) => Adds(b, b', answer, bytes)
    case Calloc(count, size) => Adds(b, b', answer, Mul(count, size))
      && (answer != NULL ==> forall x | x in b'[answer] :: x == 0)
    case Realloc(mem, bytes) =>
      && (if mem == NULL then Adds(b, b', answer, bytes) else if answer == NULL then b' == b
          else Moves(b, b', mem, answer, bytes))
      && (mem != NULL && bytes <= |b[mem]| ==> answer == mem)
    case ReallocInPlace(mem, bytes) =>
      && (if answer == NULL then b' == b else answer == mem && mem in b && Moves(b, b', mem, mem, bytes))
      && (mem != NULL && bytes <= |b[mem]| ==> answer == mem)
    case Memalign(alignment, bytes) => Adds(b, b', answer, bytes)
      && (answer != NULL && PowerOfTwo(alignment) ==> answer % alignment == 0)
    case PosixMemalign(alignment, bytes) =>
      Adds(b, b', answer, bytes)
        && (answer != NULL ==> PowerOfTwo(alignment) && alignment >= POINTER_SIZE && answer % alignment == 0)
    case IndependentCalloc(n, size, target) => Scatters(b, b', answer, target, Counts(n, true, [size]), true)
    case IndependentComalloc(sizes, target) => Scatters(b, b', answer, target, Counts(|sizes|, false, sizes), false)
    case Free(mem) => b' == b - {mem}
    case BulkFree(mems) => b' == b - (set p | p in mems)
    case SetFootprintLimit(_) => b' == b
    case Write(mem, offset, value) => b' == b[mem := Put(b[mem], offset, value)]
  }

  /** independent_calloc and independent_comalloc: the elements the client is told of are the pieces. */
  ghost predicate ScatterStep(b: Blocks, s: Machine, n: nat, same: bool, sizes: seq<nat>, clear: bool, t: Target,
          answer: nat, b': Blocks, s': Machine)
    requires if same then |sizes| > 0 else |sizes| == n
  {
    exists elements: seq<nat> ::
      && IallocStep(s, n, same, sizes, ChunksOf(t), answer, elements, s')
      && (answer != NULL ==> Spread(b, b', answer, t, Counts(n, same, sizes), clear, elements))
  }

  /** What each call does to the allocator: which chunks are taken, cut, joined, listed and unlisted, what becomes of dv
      and top, by how much the heap grows, and what the call answers. */
  ghost predicate Transition(b: Blocks, s: Machine, r: Request, answer: nat, b': Blocks, s': Machine) {
    match r
    case Malloc(bytes) => MallocStep(s, PaddedSize(bytes), answer, s')
    case Calloc(count, size) => MallocStep(s, PaddedSize(Mul(count, size)), answer, s')
    case Realloc(mem, bytes) => ReallocStep(s, mem, bytes, answer, s')
    case ReallocInPlace(mem, bytes) => ReallocInPlaceStep(s, mem, bytes, answer, s')
    case Memalign(alignment, bytes) => MemalignStep(s, alignment, bytes, answer, s')
    case PosixMemalign(alignment, bytes) =>
      if PowerOfTwo(alignment) && alignment >= POINTER_SIZE then PosixStep(s, alignment, bytes, answer, s')
      else answer == NULL && s' == s
    case IndependentCalloc(n, size, target) => ScatterStep(b, s, n, true, [size], true, target, answer, b', s')
    case IndependentComalloc(sizes, target) =>
      ScatterStep(b, s, |sizes|, false, sizes, false, target, answer, b', s')
    case Free(mem) => answer == NULL && s' == s.(heap := FreedHeap(s.heap, mem))
    case BulkFree(mems) => answer == NULL && s' == s.(heap := AfterBulk(s.heap, mems))
    case SetFootprintLimit(bytes) => LimitSet(bytes, answer) && s' == s.(room := s.room.(limit := answer))
    case Write(_, _, _) => answer == NULL && s' == s
  }

  /** dlfree, which ignores a null pointer. */
  ghost function FreedHeap(h: Heap, mem: nat): Heap {
    if mem < 8 then h else AfterFree(h, MemToChunk(mem))
  }

  // each call has its meaning

  method DoMalloc(m: MallocState, core: LinearMemory, b: Blocks, bytes: nat) returns (answer: nat, b': Blocks)
    requires Represents(m, core, b)
    modifies m, core
    ensures Represents(m, core, b') && Adds(b, b', answer, bytes)
    ensures SteadySince(old(m.view), m.view)
    ensures MallocStep(old(MachineOf(m, core)), PaddedSize(bytes), answer, MachineOf(m, core))
  {
    hide Steady, Quiet, Valid, Mirrors, Served, PaddedSize, NothingFree, Chosen, MallocStep;
    answer := Mallocs.Malloc(m, core, bytes);
    b' := b;
    if answer == NULL {
      SameOrder(m, core, old(m.view));
      MirrorsKept(old(m.mem), m.mem, Live(m.view.l), b);
    } else {
      PaddedEnough(bytes);
      ServedRoomy(m, core, old(m.view), old(m.mem), MemToChunk(answer), PaddedSize(bytes));
      b' := AddBlock(m, core, b, answer, bytes, old(m.view), old(m.mem), PaddedSize(bytes));
    }
  }

  method DoCalloc(m: MallocState, core: LinearMemory, b: Blocks, count: nat, size: nat)
        returns (answer: nat, b': Blocks)
    requires Represents(m, core, b) && count < WORD && size < WORD
    modifies m, core
    ensures Represents(m, core, b') && Adds(b, b', answer, Mul(count, size))
    ensures SteadySince(old(m.view), m.view)
    ensures answer != NULL ==> forall x | x in b'[answer] :: x == 0
    ensures MallocStep(old(MachineOf(m, core)), PaddedSize(Mul(count, size)), answer, MachineOf(m, core))
  {
    hide Steady, Quiet, Valid, Mirrors, Served, PaddedSize, Zeroed, MallocStep, Mul;
    answer := Callocs.Calloc(m, core, count, size);
    b' := b;
    if answer == NULL {
      SameOrder(m, core, old(m.view));
      MirrorsKept(old(m.mem), m.mem, Live(m.view.l), b);
    } else {
      PaddedEnough(Mul(count, size));
      ServedRoomy(m, core, old(m.view), old(m.mem), MemToChunk(answer), PaddedSize(Mul(count, size)));
      b' := AddBlock(m, core, b, answer, Mul(count, size), old(m.view), old(m.mem), PaddedSize(Mul(count, size)));
      ReadZeros(m.mem, answer, Mul(count, size));
    }
  }

  method DoScatter(m: MallocState, core: LinearMemory, b: Blocks, n: nat, same: bool, sizes: seq<nat>, clear: bool,
          t: Target)
        returns (answer: nat, b': Blocks)
    requires Represents(m, core, b) && (if same then |sizes| > 0 else |sizes| == n)
    requires TargetLegal(b, n, t) && Addressable(n, same, sizes, t == Own)
    modifies m, core
    ensures Represents(m, core, b') && Scatters(b, b', answer, t, Counts(n, same, sizes), clear)
    ensures SteadySince(old(m.view), m.view)
    ensures ScatterStep(b, old(MachineOf(m, core)), n, same, sizes, clear, t, answer, b', MachineOf(m, core))
  {
    hide Steady, Represents, Spread, Counts, Sum, ArraySize, Needs, IallocStep;
    var elements;
    answer, b', elements := DoIndependent(m, core, b, n, same, sizes, clear, t);
  }

  method DoPosix(m: MallocState, core: LinearMemory, b: Blocks, alignment: nat, bytes: nat)
        returns (answer: nat, b': Blocks)
    requires Represents(m, core, b) && alignment < WORD
    modifies m, core
    ensures Represents(m, core, b') && Adds(b, b', answer, bytes)
    ensures SteadySince(old(m.view), m.view)
    ensures answer != NULL ==> PowerOfTwo(alignment) && alignment >= POINTER_SIZE && answer % alignment == 0
    ensures if PowerOfTwo(alignment) && alignment >= POINTER_SIZE
      then PosixStep(old(MachineOf(m, core)), alignment, bytes, answer, MachineOf(m, core))
      else answer == NULL && MachineOf(m, core) == old(MachineOf(m, core))
  {
    hide Steady, Quiet, Valid, Mirrors, Roomy, PaddedSize, PowerOfTwo, PosixStep, UnitOf;
    var r := Memaligns.PosixMemalign(m, core, alignment, bytes);
    answer, b' := NULL, b;
    if r.Allotted? {
      answer := r.mem;
      CarvedRoomy(m, core, old(m.view), old(m.mem), MemToChunk(answer), PaddedSize(bytes));
      RoomySteady(m, core, old(m.view), old(m.mem), MemToChunk(answer), PaddedSize(bytes));
      PaddedEnough(bytes);
      b' := AddBlock(m, core, b, answer, bytes, old(m.view), old(m.mem), PaddedSize(bytes));
    } else {
      SameOrder(m, core, old(m.view));
      MirrorsKept(old(m.mem), m.mem, Live(m.view.l), b);
    }
  }

  method DoMemalign(m: MallocState, core: LinearMemory, b: Blocks, alignment: nat, bytes: nat)
        returns (answer: nat, b': Blocks)
    requires Represents(m, core, b) && alignment <= MAX_ALIGNMENT
    modifies m, core
    ensures Represents(m, core, b') && Adds(b, b', answer, bytes)
    ensures SteadySince(old(m.view), m.view)
    ensures answer != NULL && PowerOfTwo(alignment) ==> answer % alignment == 0
    ensures MemalignStep(old(MachineOf(m, core)), alignment, bytes, answer, MachineOf(m, core))
  {
    hide Steady, Quiet, Valid, Mirrors, Carved, PaddedSize, PowerOfTwo, MemalignStep, UnitOf;
    answer := Memaligns.Memalign(m, core, alignment, bytes);
    b' := b;
    if answer == NULL {
      SameOrder(m, core, old(m.view));
      MirrorsKept(old(m.mem), m.mem, Live(m.view.l), b);
    } else {
      CarvedRoomy(m, core, old(m.view), old(m.mem), MemToChunk(answer), PaddedSize(bytes));
      PaddedEnough(bytes);
      b' := AddBlock(m, core, b, answer, bytes, old(m.view), old(m.mem), PaddedSize(bytes));
    }
  }

  lemma ReadPrefix(m0: Mem, p: nat, bytes: seq<nat>, m: Mem, q: nat, count: nat, k: nat)
    requires Holding(m0, p, bytes) && Carried(m0, p, m, q, k) && k <= |bytes| && k <= count
    ensures Read(m, q, count)[..k] == bytes[..k]
  {
    hide Byte;
    forall i | 0 <= i < k ensures Byte(m, q + i) == bytes[i] {
      assert Byte(m, q + i) == Byte(m0, p + i);
    }
  }

  lemma CarriedFewer(m0: Mem, p: nat, m: Mem, q: nat, k: nat, fewer: nat)
    requires Carried(m0, p, m, q, k) && fewer <= k
    ensures Carried(m0, p, m, q, fewer)
  {
    hide Byte;
  }

  /** The blocks after a block was resized or moved. */
  method MoveBlock(m: MallocState, core: LinearMemory, b: Blocks, oldmem: nat, mem: nat, bytes: nat, ghost v0: View,
          ghost m0: Mem)
        returns (b': Blocks)
    requires Mirrors(m0, Live(v0.l), b) && oldmem in b && oldmem >= 8 && mem >= 8 && bytes < MAX_REQUEST
    requires m.top != 0 && Reallocated(m, core, v0, m0, MemToChunk(oldmem), MemToChunk(mem), bytes)
    ensures Represents(m, core, b') && Moves(b, b', oldmem, mem, bytes)
  {
    hide Quiet, Valid, Mirrors, BlockAt, Read, PaddedSize, Carried, Holding;
    PaddedEnough(bytes);
    var q, p := MemToChunk(mem), MemToChunk(oldmem);
    b' := (b - {oldmem})[mem := Read(m.mem, mem, bytes)];
    ReadHeld(m.mem, mem, bytes);
    LiveBlock(m0, Live(v0.l), b, oldmem);
    MirrorsFewer(m0, m0, Live(v0.l), {p}, b, b - {oldmem}) by { BlocksHigh(m0, Live(v0.l), b);
      QuietSame(Live(v0.l) - {p}, m0); }
    ServedBlock(m, core, q, bytes);
    MirrorsMore(m0, m.mem, Live(v0.l) - {p}, b - {oldmem}, q, Live(m.view.l)[q], Read(m.mem, mem, bytes));
    BlockHolds(m0, Live(v0.l), oldmem, b[oldmem]);
    CarriedFewer(m0, oldmem, m.mem, mem, Min(Live(v0.l)[p] - CHUNK_OVERHEAD, bytes), Min(|b[oldmem]|, bytes));
    ReadPrefix(m0, oldmem, b[oldmem], m.mem, mem, bytes, Min(|b[oldmem]|, bytes));
    if mem in b { LiveBlock(m0, Live(v0.l), b, mem); }
  }

  lemma BlockHolds(m: Mem, live: map<nat, nat>, p: nat, bytes: seq<nat>)
    requires BlockAt(m, live, p, bytes)
    ensures Holding(m, p, bytes)
  {
  }

  method DoRealloc(m: MallocState, core: LinearMemory, b: Blocks, mem: nat, bytes: nat)
        returns (answer: nat, b': Blocks)
    requires Represents(m, core, b) && (mem == NULL || mem in b)
    modifies m, core
    ensures Represents(m, core, b')
    ensures SteadySince(old(m.view), m.view)
    ensures if mem == NULL then Adds(b, b', answer, bytes) else if answer == NULL then b' == b
      else mem in b && Moves(b, b', mem, answer, bytes)
    ensures mem != NULL && bytes <= |b[mem]| ==> answer == mem
    ensures ReallocStep(old(MachineOf(m, core)), mem, bytes, answer, MachineOf(m, core))
  {
    hide Steady, Quiet, ValidUpTo, Mirrors, Reallocated, PaddedSize, FitsInPlace, NothingFree, BlockAt,
      m.Settled, m.Pristine, GrantGrown, MallocStep;
    if mem == NULL {
      answer, b' := DoMalloc(m, core, b, bytes);
    } else {
      LiveBlock(m.mem, Live(m.view.l), b, mem);
      if bytes <= |b[mem]| { LessFits(m, core, MemToChunk(mem), bytes); }
      answer := Reallocs.Realloc(m, core, mem, bytes);
      b' := b;
      if answer == NULL {
        SameOrder(m, core, old(m.view));
      } else {
        ReallocatedTop(m, core, old(m.view), old(m.mem), MemToChunk(mem), MemToChunk(answer), bytes);
        b' := MoveBlock(m, core, b, mem, answer, bytes, old(m.view), old(m.mem));
      }
    }
  }

  lemma ReallocatedTop(m: MallocState, core: LinearMemory, v0: View, m0: Mem, p: nat, q: nat, bytes: nat)
    requires Reallocated(m, core, v0, m0, p, q, bytes)
    ensures m.top != 0 && SteadySince(v0, m.view)
  {
    hide Quiet, m.Settled, Steady;
  }

  /** A block can be made smaller where it is. */
  lemma LessFits(m: MallocState, core: LinearMemory, p: nat, bytes: nat)
    requires Valid(m, core) && p in Live(m.view.l) && bytes + CHUNK_OVERHEAD <= Live(m.view.l)[p]
    ensures bytes < MAX_REQUEST && p in m.view.l.chunks && FitsInPlace(m.view.l, p, PaddedSize(bytes))
  {
    hide Core;
    InUseFacts(m.St(), m.sb, m.view, m.Resting(), p);
  }

  method DoReallocInPlace(m: MallocState, core: LinearMemory, b: Blocks, mem: nat, bytes: nat)
        returns (answer: nat, b': Blocks)
    requires Represents(m, core, b) && (mem == NULL || mem in b)
    modifies m
    ensures Represents(m, core, b')
    ensures SteadySince(old(m.view), m.view)
    ensures if answer == NULL then b' == b else answer == mem && mem in b && Moves(b, b', mem, mem, bytes)
    ensures mem != NULL && bytes <= |b[mem]| ==> answer == mem
    ensures ReallocInPlaceStep(old(MachineOf(m, core)), mem, bytes, answer, MachineOf(m, core))
  {
    hide Steady, Quiet, ValidUpTo, Mirrors, Reallocated, PaddedSize, FitsInPlace, BlockAt, m.Settled, m.Pristine;
    if mem != NULL {
      LiveBlock(m.mem, Live(m.view.l), b, mem);
      if bytes <= |b[mem]| { LessFits(m, core, MemToChunk(mem), bytes); }
    }
    answer := Reallocs.ReallocInPlace(m, core, mem, bytes);
    b' := b;
    if answer == NULL {
      SameOrder(m, core, old(m.view));
    } else {
      ReallocatedTop(m, core, old(m.view), old(m.mem), MemToChunk(mem), MemToChunk(answer), bytes);
      b' := MoveBlock(m, core, b, mem, answer, bytes, old(m.view), old(m.mem));
    }
  }

  method DoFree(m: MallocState, core: LinearMemory, b: Blocks, mem: nat) returns (b': Blocks)
    requires Represents(m, core, b) && (mem == NULL || mem in b)
    modifies m
    ensures Represents(m, core, b') && b' == b - {mem}
    ensures SteadySince(old(m.view), m.view)
    ensures MachineOf(m, core) == old(MachineOf(m, core)).(heap := FreedHeap(old(HeapOf(m)), mem))
  {
    hide Steady, Quiet, ValidUpTo, Mirrors, BlockAt, m.Settled, m.Pristine, AfterFree;
    b' := b - {mem};
    if mem != NULL { LiveBlock(m.mem, Live(m.view.l), b, mem); }
    NullFree(m.mem, Live(m.view.l), b);
    ghost var v0, m0 := m.view, m.mem;
    DlFree(m, core, mem);
    if mem == NULL {
      SameOrder(m, core, v0);
    } else {
      MirrorsFewer(m0, m.mem, Live(v0.l), {MemToChunk(mem)}, b, b') by { BlocksHigh(m0, Live(v0.l), b); }
    }
  }

  lemma NullFree(m: Mem, live: map<nat, nat>, b: Blocks)
    requires Mirrors(m, live, b)
    ensures NULL !in b && b - {NULL} == b
  {
    hide Mirrors;
    BlocksHigh(m, live, b);
  }

  method DoWrite(m: MallocState, core: LinearMemory, b: Blocks, mem: nat, offset: nat, value: nat) returns (b': Blocks)
    requires Represents(m, core, b) && mem in b && offset < |b[mem]| && value < BYTE
    modifies m`mem
    ensures Represents(m, core, b') && b' == b[mem := Put(b[mem], offset, value)]
    ensures SteadySince(old(m.view), m.view) && MachineOf(m, core) == old(MachineOf(m, core))
  {
    hide Steady, Quiet, Mirrors, BlockAt, Byte, SetByte, Core, WordsOutside, Holding;
    ghost var l, mem0, st := m.view.l, m.mem, m.St();
    SameOrder(m, core, m.view);
    LiveBlock(m.mem, Live(l), b, mem);
    ghost var q, a := MemToChunk(mem), mem + offset;
    SetByteOutside(m.mem, a, value);
    CoreUserWrites(st, m.sb, m.view, m.Resting(), q, a, a + 1, SetByte(m.mem, a, value));
    m.mem := SetByte(m.mem, mem + offset, value);
    b' := b[mem := Put(b[mem], offset, value)];
    WriteBlock(mem0, Live(l), mem, b[mem], offset, value);
    MirrorsFewer(mem0, m.mem, Live(l), {q}, b, b - {mem}) by { BlocksHigh(mem0, Live(l), b); }
    assert Live(l) == (Live(l) - {q})[q := Live(l)[q]];
    MirrorsMore(m.mem, m.mem, Live(l) - {q}, b - {mem}, q, Live(l)[q],
      Put(b[mem], offset, value)) by { QuietSame(Live(l) - {q}, m.mem); }
    assert (b - {mem})[mem := Put(b[mem], offset, value)] == b';
  }

  lemma WriteBlock(m: Mem, live: map<nat, nat>, p: nat, bytes: seq<nat>, offset: nat, value: nat)
    requires BlockAt(m, live, p, bytes) && offset < |bytes| && value < BYTE
    ensures BlockAt(SetByte(m, p + offset, value), live, p, Put(bytes, offset, value))
  {
    hide Byte, SetByte;
    SetByteBytes(m, p + offset, value);
  }

  /** Zero, which means no limit, for zero and for what rounds to a number beyond 32 bits; otherwise the next
      multiple. */
  predicate LimitSet(bytes: nat, limit: nat) {
    && (limit == 0 <==> bytes == 0 || bytes > WORD - GRANULARITY)
    && (limit != 0 ==> bytes <= limit < bytes + GRANULARITY && limit % GRANULARITY == 0)
  }

  /** dlmalloc_set_footprint_limit.  Zero is stored as zero, which means no limit. */
  method SetLimit(m: MallocState, bytes: nat) returns (result: nat)
    requires bytes < WORD
    modifies m`footprintLimit
    ensures m.footprintLimit == result && LimitSet(bytes, result)
  {
    hide GranularityAlign;
    AlignedUp(1);
    AlignedUp(bytes);
    if bytes == 0 {
      result := GranularityAlign(1);
    }
    if bytes == MAX_SIZE {
      result := 0;
    } else {
      result := GranularityAlign(bytes);
    }
    m.footprintLimit := result;
  }

  lemma BlocksFreeable(m: Mem, live: map<nat, nat>, b: Blocks, mems: seq<nat>)
    requires Mirrors(m, live, b) && Legal(b, BulkFree(mems))
    ensures Freeable(live, mems)
  {
    forall i | 0 <= i < |mems| && mems[i] != NULL ensures mems[i] >= 8 && MemToChunk(mems[i]) in live {
      assert mems[i] in mems;
      LiveBlock(m, live, b, mems[i]);
    }
  }

  lemma ChunksGone(m: Mem, live: map<nat, nat>, b: Blocks, mems: seq<nat>, p: nat)
    requires Mirrors(m, live, b) && Legal(b, BulkFree(mems)) && p in b
    ensures p >= 8 && (p in mems <==> MemToChunk(p) in Chunks(mems))
  {
    LiveBlock(m, live, b, p);
    if p in mems {
      var i: nat :| i < |mems| && mems[i] == p;
      assert MemToChunk(mems[i]) in Chunks(mems);
    }
    if MemToChunk(p) in Chunks(mems) {
      var i: nat :| i < |mems| && mems[i] >= 8 && MemToChunk(p) == MemToChunk(mems[i]);
      assert mems[i] == p;
    }
  }

  method DoBulkFree(m: MallocState, core: LinearMemory, b: Blocks, mems: seq<nat>) returns (b': Blocks)
    requires Represents(m, core, b) && Legal(b, BulkFree(mems))
    modifies m
    ensures Represents(m, core, b') && b' == b - (set p | p in mems)
    ensures SteadySince(old(m.view), m.view)
    ensures MachineOf(m, core) == old(MachineOf(m, core)).(heap := AfterBulk(old(HeapOf(m)), mems))
  {
    hide Steady, Quiet, Mirrors, BlockAt, m.Settled, Freeable, Chunks, Legal, AfterBulk;
    b' := b - (set p | p in mems);
    ghost var v0, m0 := m.view, m.mem;
    var a := new nat[|mems|](i requires 0 <= i < |mems| => mems[i]);
    assert a[..] == mems;
    BlocksFreeable(m.mem, Live(v0.l), b, mems);
    if m.top != 0 {
      var unfreed := BulkFrees.BulkFree(m, a);
      SegmentHolds(m, core, v0.l);
      assert mems[..|mems|] == mems;
    } else {
      NothingFreeable(v0.l, mems);
      AfterNulls(HeapOf(m), mems);
      SameOrder(m, core, v0);
      assert Live(v0.l) - Chunks(mems) == Live(v0.l);
      QuietSame(Live(v0.l), m0);
    }
    forall p | p in b ensures p >= 8 && (p in mems <==> MemToChunk(p) in Chunks(mems)) {
      ChunksGone(m0, Live(v0.l), b, mems, p);
    }
    MirrorsFewer(m0, m.mem, Live(v0.l), Chunks(mems), b, b');
  }

  lemma NothingFreeable(l: Layout, mems: seq<nat>)
    requires l.chunks == map[] && Freeable(Live(l), mems)
    ensures Chunks(mems) == {} && forall i {:trigger mems[i]} :: 0 <= i < |mems| ==> mems[i] < 8
  {
  }

  lemma {:induction false} AfterNulls(h: Heap, ps: seq<nat>)
    requires forall i {:trigger ps[i]} :: 0 <= i < |ps| ==> ps[i] < 8
    ensures AfterBulk(h, ps) == h
    decreases ps
  {
    hide AfterFree, Fused;
    if ps != [] { AfterNulls(h, ps[1..]); }
  }

  // runs

  /** One call: a legal request has its meaning, and the invariant is kept. */
  method Serve(m: MallocState, core: LinearMemory, b: Blocks, r: Request) returns (answer: nat, b': Blocks)
    requires Represents(m, core, b) && Legal(b, r)
    modifies m, core
    ensures Represents(m, core, b') && Meaning(b, r, answer, b')
    ensures Transition(b, old(MachineOf(m, core)), r, answer, b', MachineOf(m, core))
    ensures m.footprint <= core.heapEnd
    ensures SteadySince(old(m.view), m.view)
  {
    hide Represents, Adds, Moves, Steady, Scatters, Counts, Sum, ArraySize, Needs, LimitSet, PaddedSize, Mul,
      MallocStep, ReallocStep, ReallocInPlaceStep, MemalignStep, PosixStep, ScatterStep, AfterBulk, FreedHeap,
      PowerOfTwo;
    answer, b' := NULL, b;
    match r {
      case Malloc(bytes) => answer, b' := DoMalloc(m, core, b, bytes);
      case Calloc(count, size) => answer, b' := DoCalloc(m, core, b, count, size);
      case Realloc(mem, bytes) => answer, b' := DoRealloc(m, core, b, mem, bytes);
      case ReallocInPlace(mem, bytes) => answer, b' := DoReallocInPlace(m, core, b, mem, bytes);
      case Memalign(alignment, bytes) => answer, b' := DoMemalign(m, core, b, alignment, bytes);
      case PosixMemalign(alignment, bytes) => answer, b' := DoPosix(m, core, b, alignment, bytes);
      case IndependentCalloc(n, size, target) => answer, b' := DoScatter(m, core, b, n, true, [size], true, target);
      case IndependentComalloc(sizes, target) => answer, b' := DoScatter(m, core, b, |sizes|, false, sizes, false,
        target);
      case Free(mem) => b' := DoFree(m, core, b, mem);
      case BulkFree(mems) => b' := DoBulkFree(m, core, b, mems);
      case SetFootprintLimit(bytes) => answer := DoSetLimit(m, core, b, bytes);
      case Write(mem, offset, value) => b' := DoWrite(m, core, b, mem, offset, value);
    }
    FootprintIn(m, core, b');
  }

  lemma FootprintIn(m: MallocState, core: LinearMemory, b: Blocks)
    requires Represents(m, core, b)
    ensures m.footprint <= core.heapEnd
  {
    hide Valid;
    FootprintBelow(m, core);
  }

  method DoSetLimit(m: MallocState, core: LinearMemory, b: Blocks, bytes: nat) returns (limit: nat)
    requires Represents(m, core, b) && bytes < WORD
    modifies m
    ensures Represents(m, core, b) && LimitSet(bytes, limit)
    ensures MachineOf(m, core) == old(MachineOf(m, core)).(room := old(HeadroomOf(m, core)).(limit := limit))
    ensures SteadySince(old(m.view), m.view)
  {
    hide Steady, Core, Mirrors;
    SameOrder(m, core, m.view);
    limit := SetLimit(m, bytes);
  }

  /** What happened at step i of a run. */
  ghost predicate StepAt(client: seq<nat> -> Request, answers: seq<nat>, states: seq<Blocks>, i: nat)
    requires i < |answers| && |states| == |answers| + 1
  {
    var r := client(answers[..i]);
    if Legal(states[i], r) then Meaning(states[i], r, answers[i], states[i + 1]) else states[i + 1] == states[i]
  }

  ghost predicate RunOf(client: seq<nat> -> Request, answers: seq<nat>, states: seq<Blocks>) {
    && |states| == |answers| + 1 && states[0] == map[]
    && forall i: nat {:trigger StepAt(client, answers, states, i)} ::
        i < |answers| ==> StepAt(client, answers, states, i)
  }

  lemma RunGrows(client: seq<nat> -> Request, answers: seq<nat>, states: seq<Blocks>, answer: nat, b: Blocks)
    requires RunOf(client, answers, states)
    requires var r := client(answers); var b0 := states[|answers|];
      if Legal(b0, r) then Meaning(b0, r, answer, b) else b == b0
    ensures RunOf(client, answers + [answer], states + [b])
  {
    hide Legal, Meaning;
    var answers', states' := answers + [answer], states + [b];
    forall i: nat | i < |answers'| ensures StepAt(client, answers', states', i) {
      if i < |answers| {
        assert StepAt(client, answers, states, i);
        assert answers'[..i] == answers[..i];
      } else {
        assert answers'[..i] == answers;
      }
    }
  }

  /** What step i did to the allocator. */
  ghost predicate MachineAt(client: seq<nat> -> Request, answers: seq<nat>, states: seq<Blocks>,
          machines: seq<Machine>, i: nat)
    requires i < |answers| && |machines| == |states| == |answers| + 1
  {
    var r := client(answers[..i]);
    if Legal(states[i], r) then Transition(states[i], machines[i], r, answers[i], states[i + 1], machines[i + 1])
    else machines[i + 1] == machines[i]
  }

  ghost predicate FootprintWithin(s: Machine) {
    s.room.footprint <= s.room.span.end
  }

  ghost predicate Works(client: seq<nat> -> Request, answers: seq<nat>, states: seq<Blocks>, machines: seq<Machine>) {
    && |machines| == |states| == |answers| + 1
    && (forall i: nat {:trigger MachineAt(client, answers, states, machines, i)} ::
         i < |answers| ==> MachineAt(client, answers, states, machines, i))
    && (forall i: nat {:trigger FootprintWithin(machines[i])} :: i <= |answers| ==> FootprintWithin(machines[i]))
  }

  lemma WorksGrow(client: seq<nat> -> Request, answers: seq<nat>, states: seq<Blocks>, machines: seq<Machine>,
          answer: nat, b: Blocks, s: Machine)
    requires Works(client, answers, states, machines) && FootprintWithin(s)
    requires var r := client(answers);
      if Legal(states[|answers|], r) then Transition(states[|answers|], machines[|answers|], r, answer, b, s)
      else s == machines[|answers|]
    ensures Works(client, answers + [answer], states + [b], machines + [s])
  {
    hide Legal, Transition, FootprintWithin;
    var answers', states', machines' := answers + [answer], states + [b], machines + [s];
    forall i: nat | i < |answers'| ensures MachineAt(client, answers', states', machines', i) {
      if i < |answers| {
        assert MachineAt(client, answers, states, machines, i);
        assert answers'[..i] == answers[..i];
      } else {
        assert answers'[..i] == answers;
      }
    }
    forall i: nat | i <= |answers'| ensures FootprintWithin(machines'[i]) {
      if i <= |answers| { assert FootprintWithin(machines[i]); }
    }
  }

  /** Any client, choosing each request by the answers so far, for any number of calls, on any initial memory,
      with any pattern of memory.grow refusals: its blocks behave as the abstract meaning of its calls says, the
      heap invariant holds at the end, hence after every call, in every state on the way each tree holds the
      oldest chunk of each of its sizes, and every call does to the allocator just what Transition
      says.  Requests the client has no right to make are left out. */
  method Run(client: seq<nat> -> Request, n: nat, sb: nat, heapBase: nat, heapEndSymbol: nat, pages: nat, memory: Mem)
        returns (answers: seq<nat>, states: seq<Blocks>, m: MallocState, core: LinearMemory, ghost views: seq<View>,
          ghost machines: seq<Machine>)
    requires sb + MALLOC_STATE_BINS <= heapBase <= heapEndSymbol <= pages * WASM_PAGE && heapEndSymbol % 8 == 0
    requires pages <= MAX_PAGES && heapEndSymbol < WORD
    ensures |answers| == n && RunOf(client, answers, states) && Represents(m, core, states[n])
    ensures |views| == n + 1 && Queues(views) && views[n] == m.view
    ensures Works(client, answers, states, machines)
    ensures FirstMachine(machines[0], heapBase, heapEndSymbol, pages) && machines[n] == MachineOf(m, core)
  {
    hide Represents, RunOf, Legal, Meaning, Queues, Steady, OldestFirst, ByAge, Transition, Works, FirstMachine;
    m := new MallocState(sb, heapBase, heapEndSymbol, memory);
    core := new LinearMemory(heapEndSymbol, pages);
    answers, states := [], [map[]];
    NewRun(client);
    FreshRepresents(m, core);
    views := FirstView(m, core);
    machines := [MachineOf(m, core)];
    NothingWorked(client, MachineOf(m, core));
    Unstarted(m, core);
    while |answers| < n
      invariant |answers| <= n && |states| == |answers| + 1 && RunOf(client, answers, states)
      invariant Represents(m, core, states[|answers|]) && fresh(m) && fresh(core)
      invariant |views| == |answers| + 1 && Queues(views) && views[|answers|] == m.view
      invariant |machines| == |answers| + 1 && Works(client, answers, states, machines)
      invariant FirstMachine(machines[0], heapBase, heapEndSymbol, pages) && machines[|answers|] == MachineOf(m, core)
    {
      var b, r := states[|answers|], client(answers);
      var answer, b' := NULL, b;
      if Legal(b, r) {
        answer, b' := Serve(m, core, b, r);
      } else {
        NothingReordered(m, core, b);
        FootprintIn(m, core, b);
      }
      RunGrows(client, answers, states, answer, b');
      views := NextView(m, core, views, b');
      WorksGrow(client, answers, states, machines, answer, b', MachineOf(m, core));
      machines := machines + [MachineOf(m, core)];
      answers, states := answers + [answer], states + [b'];
    }
  }

  /** No heap yet, nothing counted, no limit, and memory up to the linker's __heap_end. */
  ghost predicate FirstMachine(s: Machine, heapBase: nat, heapEndSymbol: nat, pages: nat) {
    && s.room == Headroom(heapBase, 0, 0, 0, 0, true, Span(heapEndSymbol, pages, 0))
    && s.heap.top == 0 && s.heap.lists == map[] && s.heap.dvsize == 0 && s.heap.topsize == 0
  }

  lemma Unstarted(m: MallocState, core: LinearMemory)
    requires m.Pristine() && m.segBase == 0 && m.footprintLimit == 0 && !m.noncontiguous && core.refusals == 0
    ensures FirstMachine(MachineOf(m, core), m.heapBase, core.heapEnd, core.pages)
  {
  }

  lemma NothingWorked(client: seq<nat> -> Request, s: Machine)
    requires FootprintWithin(s)
    ensures Works(client, [], [map[]], [s])
  {
  }

  lemma FirstView(m: MallocState, core: LinearMemory) returns (views: seq<View>)
    requires Represents(m, core, map[])
    ensures views == [m.view] && Queues(views)
  {
    hide Valid, OldestFirst, ByAge, Steady;
    AlwaysOldestFirst(m, core);
    QueuesGrow([], m.view);
    views := [m.view];
    assert [] + [m.view] == views;
  }

  lemma NextView(m: MallocState, core: LinearMemory, views: seq<View>, b: Blocks) returns (views': seq<View>)
    requires Represents(m, core, b) && |views| > 0 && Queues(views) && SteadySince(views[|views| - 1], m.view)
    ensures views' == views + [m.view] && Queues(views')
  {
    hide Valid, OldestFirst, ByAge, Steady, Queues;
    AlwaysOldestFirst(m, core);
    QueuesGrow(views, m.view);
    views' := views + [m.view];
  }

  lemma NothingReordered(m: MallocState, core: LinearMemory, b: Blocks)
    requires Represents(m, core, b)
    ensures SteadySince(m.view, m.view)
  {
    hide Valid, Steady, Mirrors;
    SameOrder(m, core, m.view);
  }

  lemma NewRun(client: seq<nat> -> Request)
    ensures RunOf(client, [], [map[]])
  {
  }

  lemma FreshRepresents(m: MallocState, core: LinearMemory)
    requires core.Valid() && m.Pristine() && core.heapEnd == m.heapEndSymbol && core.heapEnd % 8 == 0
    ensures Represents(m, core, map[])
  {
  }

  /** In every state reached, blocks are aligned, do not overlap, and lie inside the one segment. */
  lemma BlocksApart(m: MallocState, core: LinearMemory, b: Blocks, p: nat, q: nat)
    requires Represents(m, core, b) && p in b && q in b && p != q
    ensures p % 8 == 0 && p + |b[p]| <= core.heapEnd <= core.pages * WASM_PAGE && p >= m.heapBase
    ensures p + |b[p]| <= q || q + |b[q]| <= p
  {
    hide Core, Mirrors;
    LiveBlock(m.mem, Live(m.view.l), b, p);
    LiveBlock(m.mem, Live(m.view.l), b, q);
    LiveApart(m.St(), m.sb, m.view, m.Resting(), MemToChunk(p), MemToChunk(q));
    InUseFacts(m.St(), m.sb, m.view, m.Resting(), MemToChunk(p));
  }
}
