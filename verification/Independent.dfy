/** independent_calloc and independent_comalloc as their client sees them: many blocks, and the array that names
    them. */
module Independents {
  import opened Memory
  import opened Tags
  import opened Rings
  import opened Payloads
  import opened TreeIndices
  import opened Bins
  import opened SmallBins
  import opened TreeBins
  import opened Ages
  import opened Heaps
  import opened MallocStates
  import opened Freeing
  import opened Morecores
  import opened Machines
  import opened SysAllocs
  import opened Mallocs
  import opened Bytes
  import opened Memaligns
  import opened Iallocs
  import opened Clients

  /** Where the pointers are to go: into an array of the allocator's making, or `offset` bytes into the client's
      block at mem. */
  datatype Target = Own | In(mem: nat, offset: nat)

  predicate TargetLegal(b: Blocks, n: nat, t: Target) {
    t.In? ==> t.mem in b && (t.mem + t.offset) % 4 == 0 && t.offset + 4 * n <= |b[t.mem]|
  }

  function ChunksOf(t: Target): nat {
    match t
    case Own => NULL
    case In(mem, offset) => mem + offset
  }

  /** The chunk of the client's block that holds the array. */
  function HomeOf(t: Target): nat {
    if t.In? && t.mem >= 8 then MemToChunk(t.mem) else 0
  }

  /** How many bytes each element is asked to have. */
  function Counts(n: nat, same: bool, sizes: seq<nat>): (r: seq<nat>)
    requires if same then |sizes| > 0 else |sizes| == n
    ensures |r| == n
  {
    seq(n, i requires 0 <= i < n => if same then sizes[0] else sizes[i])
  }

  lemma CountsFit(n: nat, same: bool, sizes: seq<nat>, i: nat)
    requires (if same then |sizes| > 0 else |sizes| == n) && i < n
    ensures |Needs(n, same, sizes)| == n && Counts(n, same, sizes)[i] + CHUNK_OVERHEAD <= Needs(n, same, sizes)[i]
  {
  }

  /** The pointer whose four bytes start at index `at`. */
  function PointerAt(bytes: seq<nat>, at: nat): nat
    requires at + 4 <= |bytes|
  {
    bytes[at] + 0x100 * bytes[at + 1] + 0x1_0000 * bytes[at + 2] + 0x100_0000 * bytes[at + 3]
  }

  ghost predicate PointsTo(bytes: seq<nat>, offset: nat, elements: seq<nat>) {
    && offset + 4 * |elements| <= |bytes|
    && forall i: nat {:trigger elements[i]} :: i < |elements| ==> PointerAt(bytes, offset + 4 * i) == elements[i]
  }

  /** The i-th element is a new block of the size asked for. */
  ghost predicate ElementAt(b: Blocks, b': Blocks, elements: seq<nat>, counts: seq<nat>, zero: bool, i: nat)
    requires i < |elements| == |counts|
  {
    var e := elements[i];
    e !in b && e in b' && |b'[e]| == counts[i] && (zero ==> forall x | x in b'[e] :: x == 0)
  }

  ghost predicate Elements(b: Blocks, b': Blocks, elements: seq<nat>, counts: seq<nat>, zero: bool) {
    && |elements| == |counts| && Distinct(elements)
    && forall i: nat {:trigger ElementAt(b, b', elements, counts, zero, i)} ::
        i < |elements| ==> ElementAt(b, b', elements, counts, zero, i)
  }

  /** What the client gets: the elements, pairwise apart, and their addresses in the array; nothing else is touched. */
  ghost predicate Spread(b: Blocks, b': Blocks, answer: nat, t: Target, counts: seq<nat>, zero: bool,
          elements: seq<nat>) {
    && Elements(b, b', elements, counts, zero)
    && (match t
        case Own =>
          && answer !in b && answer !in elements && answer in b' && |b'[answer]| == 4 * |counts|
          && PointsTo(b'[answer], 0, elements)
          && (forall p {:trigger p in b'} :: p in b' <==> p in b || p == answer || p in elements)
          && (forall p {:trigger p in b} :: p in b ==> b'[p] == b[p])
        case In(mem, offset) =>
          && answer == mem + offset && mem in b && mem in b' && |b'[mem]| == |b[mem]|
          && PointsTo(b'[mem], offset, elements)
          && (forall x {:trigger b'[mem][x]} ::
               0 <= x < |b[mem]| && !(offset <= x < offset + 4 * |counts|) ==> b'[mem][x] == b[mem][x])
          && (forall p {:trigger p in b'} :: p in b' <==> p in b || p in elements)
          && (forall p {:trigger p in b} :: p in b && p != mem ==> b'[p] == b[p]))
  }

  // words and bytes

  lemma ByteOfWord(m: Mem, a: nat, k: nat)
    requires a >= 4 && a % 4 == 0 && k < 4
    ensures Byte(m, a + k) == Digit(Word(m, a), k)
  {
    hide Digit;
    Granule(a, k);
  }

  lemma Granule(a: nat, k: nat)
    requires a % 4 == 0 && k < 4
    ensures (a % 8 == 0 || a % 8 == 4) && (a + k) % 8 == a % 8 + k
  {
  }

  lemma WordOfBytes(m: Mem, a: nat)
    requires a >= 4 && a % 4 == 0 && Word(m, a) < WORD
    ensures Word(m, a) == Byte(m, a) + 0x100 * Byte(m, a + 1) + 0x1_0000 * Byte(m, a + 2) + 0x100_0000 * Byte(m, a + 3)
  {
    hide Digit, Byte, Word;
    var q := Split(Word(m, a));
    ByteOfWord(m, a, 0);
    ByteOfWord(m, a, 1);
    ByteOfWord(m, a, 2);
    ByteOfWord(m, a, 3);
  }

  lemma ReadPointer(m: Mem, p: nat, count: nat, at: nat)
    requires at + 4 <= count && p + at >= 4 && (p + at) % 4 == 0 && Word(m, p + at) < WORD
    ensures PointerAt(Read(m, p, count), at) == Word(m, p + at)
  {
    WordOfBytes(m, p + at);
    hide Byte, Word;
  }

  lemma ReadPointers(m: Mem, p: nat, count: nat, offset: nat, elements: seq<nat>)
    requires Stored(m, p + offset, elements) && offset + 4 * |elements| <= count
    requires forall i {:trigger elements[i]} :: 0 <= i < |elements| ==> elements[i] < WORD
    ensures PointsTo(Read(m, p, count), offset, elements)
  {
    hide Byte, Word, Read, PointerAt;
    assert |Read(m, p, count)| == count by { ReadHeld(m, p, count); }
    forall i: nat | i < |elements| ensures PointerAt(Read(m, p, count), offset + 4 * i) == elements[i] {
      FourMore(p + offset, i);
      assert p + (offset + 4 * i) == p + offset + 4 * i;
      assert Word(m, p + offset + 4 * i) == elements[i] < WORD;
      ReadPointer(m, p, count, offset + 4 * i);
    }
  }

  // what was delivered

  lemma {:induction false} PieceKeys(p: nat, ss: seq<nat>, q: nat) returns (i: nat)
    requires q in PieceMap(p, ss)
    ensures i < |ss| && q == p + Sum(ss[..i])
    decreases ss
  {
    if q == p {
      i := 0;
      assert ss[..0] == [] && Sum([]) == 0;
    } else {
      var k := PieceKeys(p + ss[0], ss[1..], q);
      i := k + 1;
      assert ss[..i][1..] == ss[1..][..k] && ss[..i][0] == ss[0];
    }
  }

  lemma {:induction false} PrefixesGrow(ss: seq<nat>, i: nat, j: nat)
    requires i < j <= |ss| && (forall k {:trigger ss[k]} :: 0 <= k < |ss| ==> ss[k] > 0)
    ensures Sum(ss[..i]) < Sum(ss[..j])
  {
    PrefixBelow(ss[..j], i);
    assert ss[..j][..i] == ss[..i];
  }

  lemma {:induction false} PieceZeroed(m: Mem, p: nat, ss: seq<nat>, i: nat)
    requires PiecesZeroed(m, p, ss) && i < |ss|
    ensures ss[i] >= 4 && Zeroed(m, p + Sum(ss[..i]) + 8, ss[i] - 4)
    decreases ss
  {
    hide Zeroed;
    if i == 0 {
      assert ss[..0] == [] && Sum([]) == 0;
    } else {
      PieceZeroed(m, p + ss[0], ss[1..], i - 1);
      assert ss[..i][1..] == ss[1..][..i - 1] && ss[..i][0] == ss[0];
    }
  }

  /** The chunk of element i: new, live, large enough, and zero if that was asked for. */
  lemma ElementFacts(m: MallocState, core: LinearMemory, v0: View, m0: Mem, needs: seq<nat>, own: bool, ac: nat,
          clear: bool, marray: nat, elements: seq<nat>, p0: nat, ss: seq<nat>, i: nat)
    requires Delivered(m, core, v0, m0, needs, own, ac, clear, marray, elements, p0, ss) && i < |needs|
    requires ChunkSizes(needs)
    ensures |elements| == |needs| == |ss| && elements[i] == ChunkToMem(p0 + Sum(ss[..i]))
    ensures var q := MemToChunk(elements[i]); q !in Live(v0.l) && q in Live(m.view.l) && needs[i] <= Live(m.view.l)[q]
    ensures elements[i] < WORD && (own ==> elements[i] != marray)
    ensures clear ==> Zeroed(m.mem, elements[i], needs[i] - 4)
  {
    hide Quiet, Steady, Valid, PieceMap, Sum, Stored, PiecesZeroed, StillLive, KeptBut;
    ElementFreeable(m, core, v0, m0, needs, own, ac, clear, marray, elements, p0, ss, i);
    PrefixBelow(ss, i);
    LiveEnds(m, core, MemToChunk(elements[i]));
    if clear {
      PieceZeroed(m.mem, p0, ss, i);
      ZeroedPart(m.mem, elements[i], ss[i] - 4, elements[i], needs[i] - 4);
    }
  }

  lemma LiveEnds(m: MallocState, core: LinearMemory, q: nat)
    requires Valid(m, core) && m.top != 0 && q in Live(m.view.l)
    ensures ChunkToMem(q) < WORD
  {
    InUseFacts(m.St(), m.sb, m.view, m.Resting(), q);
    CoreBelow(m.St(), m.sb, m.view, m.Resting());
  }

  lemma CoreBelow(st: Store, sb: nat, v: View, loose: set<nat>)
    requires Core(st, sb, v, loose)
    ensures v.l.end + TOP_FOOT_SIZE < WORD
  {
    hide SmallReady, TreeReady, Tagged;
  }

  lemma ElementsSeparate(elements: seq<nat>, p0: nat, ss: seq<nat>)
    requires Pointers(elements, p0, ss) && (forall k {:trigger ss[k]} :: 0 <= k < |ss| ==> ss[k] > 0)
    ensures Distinct(elements)
  {
    hide Sum;
    forall i: nat, j: nat | i < j < |elements| ensures elements[i] != elements[j] { PrefixesGrow(ss, i, j); }
  }

  /** Every live chunk was live before, or is an element's, or the new array's. */
  lemma NothingElse(m: MallocState, core: LinearMemory, v0: View, m0: Mem, needs: seq<nat>, own: bool, ac: nat,
          clear: bool, marray: nat, elements: seq<nat>, p0: nat, ss: seq<nat>, q: nat)
    requires Delivered(m, core, v0, m0, needs, own, ac, clear, marray, elements, p0, ss) && q in Live(m.view.l)
    ensures q in Live(v0.l) || ChunkToMem(q) in elements || (own && ChunkToMem(q) == marray)
  {
    hide Quiet, Steady, Valid, PieceMap, Sum, Stored, PiecesZeroed, StillLive, KeptBut, Anew, Live, Fulfills;
    if q in PieceMap(p0, ss) {
      var i := PieceKeys(p0, ss, q);
      assert elements[i] == ChunkToMem(q);
    }
  }

  /** A block that was there before, other than the one with the array, is as it was. */
  lemma OtherBlockKept(m: MallocState, core: LinearMemory, v0: View, m0: Mem, needs: seq<nat>, own: bool, ac: nat,
          clear: bool, marray: nat, elements: seq<nat>, p0: nat, ss: seq<nat>, p: nat, bytes: seq<nat>)
    requires Delivered(m, core, v0, m0, needs, own, ac, clear, marray, elements, p0, ss)
    requires BlockAt(m0, Live(v0.l), p, bytes) && (own || MemToChunk(p) != ac)
    ensures BlockAt(m.mem, Live(m.view.l), p, bytes)
  {
    hide Quiet, Steady, Valid, PieceMap, Sum, Stored, PiecesZeroed, KeptBut, Anew, BlockAt, Live, Fulfills, Pointers;
    BlockChunk(m0, Live(v0.l), p, bytes);
    BlockKept(m0, Live(v0.l), m.mem, Live(m.view.l), if own then Live(v0.l) else Live(v0.l) - {ac}, p, bytes);
  }

  /** The bytes of the caller's block, of which only the array has changed. */
  lemma ArrayBlock(m: Mem, m0: Mem, ac: nat, room: nat, offset: nat, n: nat, live: map<nat, nat>, bytes: seq<nat>)
    requires KeptBut(m0, m, ac, room, ChunkToMem(ac) + offset, ChunkToMem(ac) + offset + 4 * n)
    requires BlockAt(m0, live, ChunkToMem(ac), bytes) && live[ac] == room
    ensures forall x {:trigger bytes[x]} :: 0 <= x < |bytes| && !(offset <= x < offset + 4 * n) ==>
      Read(m, ChunkToMem(ac), |bytes|)[x] == bytes[x]
  {
    hide Byte;
    forall x | 0 <= x < |bytes| && !(offset <= x < offset + 4 * n) ensures Byte(m, ChunkToMem(ac) + x) == bytes[x] {
      assert Byte(m, ChunkToMem(ac) + x) == Byte(m0, ChunkToMem(ac) + x);
    }
  }

  /** The blocks there would be with only the array written. */
  function WithArray(m: Mem, b: Blocks, t: Target, marray: nat, n: nat): Blocks {
    match t
    case Own => b[marray := Read(m, marray, 4 * n)]
    case In(mem, _) => b[mem := Read(m, mem, if mem in b then |b[mem]| else 0)]
  }

  /** The first k elements added to the blocks b1. */
  ghost predicate Collected(m: Mem, b1: Blocks, b': Blocks, elements: seq<nat>, counts: seq<nat>, k: nat)
    requires k <= |elements| == |counts|
  {
    && (forall p {:trigger p in b'} :: p in b' <==> p in b1 || p in elements[..k])
    && (forall p {:trigger b'[p]} :: p in b1 && p !in elements ==> p in b' && b'[p] == b1[p])
    && (forall i: nat {:trigger elements[i]} ::
         i < k ==> elements[i] in b' && b'[elements[i]] == Read(m, elements[i], counts[i]))
  }

  method Collect(m: Mem, b1: Blocks, elements: seq<nat>, counts: seq<nat>) returns (b': Blocks)
    requires |elements| == |counts| && Distinct(elements)
    ensures Collected(m, b1, b', elements, counts, |elements|)
  {
    hide Read;
    b' := b1;
    for k := 0 to |elements|
      invariant Collected(m, b1, b', elements, counts, k)
    {
      assert elements[..k + 1] == elements[..k] + [elements[k]];
      b' := b'[elements[k] := Read(m, elements[k], counts[k])];
    }
  }

  /** All that a delivery means for single elements and blocks, before the blocks are put together. */
  ghost predicate Placed(m: MallocState, v0: View, b: Blocks, b1: Blocks, elements: seq<nat>, counts: seq<nat>,
          zero: bool)
    reads m
  {
    && |elements| == |counts| && Distinct(elements)
    && (forall i: nat {:trigger elements[i]} :: i < |elements| ==>
          && elements[i] !in b && elements[i] !in b1
          && BlockAt(m.mem, Live(m.view.l), elements[i], Read(m.mem, elements[i], counts[i]))
          && (zero ==> Zeroed(m.mem, elements[i], counts[i])))
    && (forall p {:trigger p in b1} :: p in b1 ==> BlockAt(m.mem, Live(m.view.l), p, b1[p]))
    && (forall q {:trigger q in Live(m.view.l)} ::
         q in Live(m.view.l) ==> ChunkToMem(q) in b1 || ChunkToMem(q) in elements)
  }

  lemma CollectedMirrors(m: MallocState, v0: View, b: Blocks, b1: Blocks, b': Blocks, elements: seq<nat>,
          counts: seq<nat>, zero: bool)
    requires Placed(m, v0, b, b1, elements, counts, zero) && Collected(m.mem, b1, b', elements, counts, |elements|)
    ensures Mirrors(m.mem, Live(m.view.l), b') && Elements(b, b', elements, counts, zero)
  {
    hide BlockAt, Read, Zeroed;
    assert elements[..|elements|] == elements;
    forall p | p in b' ensures BlockAt(m.mem, Live(m.view.l), p, b'[p]) {
      if p in elements {
        var i: nat :| i < |elements| && elements[i] == p;
      } else {
        assert p in b1;
      }
    }
    forall i: nat | i < |elements| ensures ElementAt(b, b', elements, counts, zero, i) {
      ReadHeld(m.mem, elements[i], counts[i]);
      assert elements[i] !in b;
      if zero { ReadZeros(m.mem, elements[i], counts[i]); }
    }
  }

  /** The delivery, element by element. */
  lemma DeliveredPlaced(m: MallocState, core: LinearMemory, v0: View, m0: Mem, n: nat, same: bool, sizes: seq<nat>,
          t: Target, clear: bool, marray: nat, elements: seq<nat>, p0: nat, ss: seq<nat>, b: Blocks)
    requires (if same then |sizes| > 0 else |sizes| == n) && TargetLegal(b, n, t) && Mirrors(m0, Live(v0.l), b) && n > 0
    requires t.In? ==> t.mem >= 8
    requires Delivered(m, core, v0, m0, Needs(n, same, sizes), t == Own, HomeOf(t), clear, marray, elements, p0, ss)
    requires t.In? ==> marray == t.mem + t.offset
    ensures Placed(m, v0, b, WithArray(m.mem, b, t, marray, n), elements, Counts(n, same, sizes), clear)
  {
    hide Quiet, Steady, Valid, PieceMap, Sum, Stored, PiecesZeroed, StillLive, KeptBut, Anew, BlockAt, Read, Zeroed,
      Mirrors, Live, Request2Size;
    var needs, own, ac, b1 := Needs(n, same, sizes), t == Own, HomeOf(t), WithArray(m.mem,
      b, t, marray, n);
    NeedsAreSizes(n, same, sizes);
    NeedsLength(n, same, sizes);
    ElementsSeparate(elements, p0, ss);
    forall i: nat | i < |elements|
      ensures elements[i] !in b && elements[i] !in b1
      ensures BlockAt(m.mem, Live(m.view.l), elements[i], Read(m.mem, elements[i], Counts(n, same, sizes)[i]))
      ensures clear ==> Zeroed(m.mem, elements[i], Counts(n, same, sizes)[i])
    {
      ElementFacts(m, core, v0, m0, needs, own, ac, clear, marray, elements, p0, ss, i);
      CountsFit(n, same, sizes, i);
      NewNotThere(m0, Live(v0.l), b, MemToChunk(elements[i]));
      ServedBlock(m, core, MemToChunk(elements[i]), Counts(n, same, sizes)[i]);
      if clear { ZeroedPart(m.mem, elements[i], needs[i] - 4, elements[i], Counts(n, same, sizes)[i]); }
    }
    forall p | p in b1 ensures BlockAt(m.mem, Live(m.view.l), p, b1[p]) {
      ArrayOrOld(m, core, v0, m0, n, same, sizes, t, clear, marray, elements, p0, ss, b, p);
    }
    forall q | q in Live(m.view.l) ensures ChunkToMem(q) in b1 || ChunkToMem(q) in elements {
      NothingElse(m, core, v0, m0, needs, own, ac, clear, marray, elements, p0, ss, q);
      if q in Live(v0.l) { OldThere(m0, Live(v0.l), b, q); }
    }
  }

  lemma NewNotThere(m: Mem, live: map<nat, nat>, b: Blocks, q: nat)
    requires Mirrors(m, live, b) && q !in live
    ensures ChunkToMem(q) !in b
  {
    if ChunkToMem(q) in b { LiveBlock(m, live, b, ChunkToMem(q)); }
  }

  lemma OldThere(m: Mem, live: map<nat, nat>, b: Blocks, q: nat)
    requires Mirrors(m, live, b) && q in live
    ensures ChunkToMem(q) in b
  {
  }

  lemma ArrayOrOld(m: MallocState, core: LinearMemory, v0: View, m0: Mem, n: nat, same: bool, sizes: seq<nat>,
          t: Target, clear: bool, marray: nat, elements: seq<nat>, p0: nat, ss: seq<nat>, b: Blocks, p: nat)
    requires (if same then |sizes| > 0 else |sizes| == n) && TargetLegal(b, n, t) && Mirrors(m0, Live(v0.l), b)
    requires t.In? ==> t.mem >= 8
    requires Delivered(m, core, v0, m0, Needs(n, same, sizes), t == Own, HomeOf(t), clear, marray, elements, p0, ss)
    requires p in WithArray(m.mem, b, t, marray, n)
    ensures BlockAt(m.mem, Live(m.view.l), p, WithArray(m.mem, b, t, marray, n)[p])
  {
    hide Quiet, Steady, Valid, PieceMap, Sum, Stored, PiecesZeroed, KeptBut, Anew, BlockAt, Read, Mirrors, Live,
      Request2Size;
    var needs, own, ac := Needs(n, same, sizes), t == Own, HomeOf(t);
    NeedsLength(n, same, sizes);
    if own && p == marray {
      ServedBlock(m, core, MemToChunk(marray), 4 * n);
    } else {
      LiveBlock(m0, Live(v0.l), b, p);
      if t.In? && p == t.mem {
        ServedBlock(m, core, MemToChunk(p), |b[p]|);
      } else {
        OtherBlockKept(m, core, v0, m0, needs, own, ac, clear, marray, elements, p0, ss, p, b[p]);
      }
    }
  }

  /** The array reads as the elements' addresses, and nothing else in its block has changed. */
  lemma ArrayReads(m: MallocState, core: LinearMemory, v0: View, m0: Mem, n: nat, same: bool, sizes: seq<nat>,
          t: Target, clear: bool, marray: nat, elements: seq<nat>, p0: nat, ss: seq<nat>, b: Blocks)
    requires (if same then |sizes| > 0 else |sizes| == n) && TargetLegal(b, n, t) && Mirrors(m0, Live(v0.l), b)
    requires t.In? ==> t.mem >= 8 && marray == t.mem + t.offset
    requires Delivered(m, core, v0, m0, Needs(n, same, sizes), t == Own, HomeOf(t), clear, marray, elements, p0, ss)
    ensures |elements| == n && marray >= 8
    ensures t == Own ==> PointsTo(Read(m.mem, marray, 4 * n), 0, elements) && marray !in b && marray !in elements
    ensures t.In? ==> PointsTo(Read(m.mem, t.mem, |b[t.mem]|), t.offset, elements)
    ensures t.In? ==> forall x {:trigger b[t.mem][x]} :: 0 <= x < |b[t.mem]| && !(t.offset <= x < t.offset + 4 * n) ==>
      Read(m.mem, t.mem, |b[t.mem]|)[x] == b[t.mem][x]
  {
    hide Quiet, Steady, Valid, PieceMap, Sum, Stored, PiecesZeroed, KeptBut, BlockAt, Read, Mirrors, Live, Request2Size,
      PointsTo;
    var needs, own, ac := Needs(n, same, sizes), t == Own, HomeOf(t);
    NeedsAreSizes(n, same, sizes);
    NeedsLength(n, same, sizes);
    forall i | 0 <= i < |elements| ensures elements[i] < WORD && (own ==> elements[i] != marray) {
      ElementFacts(m, core, v0, m0, needs, own, ac, clear, marray, elements, p0, ss, i);
    }
    if own {
      ReadPointers(m.mem, marray, 4 * n, 0, elements);
      NewNotThere(m0, Live(v0.l), b, MemToChunk(marray));
    } else {
      ReadPointers(m.mem, t.mem, |b[t.mem]|, t.offset, elements);
      LiveBlock(m0, Live(v0.l), b, t.mem);
      ArrayBlock(m.mem, m0, ac, Live(v0.l)[ac], t.offset, n, Live(v0.l), b[t.mem]);
    }
  }

  lemma SpreadOf(m: Mem, b: Blocks, b': Blocks, answer: nat, t: Target, counts: seq<nat>, zero: bool,
          elements: seq<nat>)
    requires |elements| == |counts| && Elements(b, b', elements, counts, zero)
    requires Collected(m, WithArray(m, b, t, answer, |counts|), b', elements, counts, |counts|)
    requires t == Own ==> PointsTo(Read(m, answer, 4 * |counts|), 0, elements) && answer !in b && answer !in elements
    requires t.In? ==>
      t.mem in b && answer == t.mem + t.offset && PointsTo(Read(m, t.mem, |b[t.mem]|), t.offset, elements)
    requires t.In? ==>
      forall x {:trigger b[t.mem][x]} :: 0 <= x < |b[t.mem]| && !(t.offset <= x < t.offset + 4 * |counts|) ==>
      Read(m, t.mem, |b[t.mem]|)[x] == b[t.mem][x]
    ensures Spread(b, b', answer, t, counts, zero, elements)
  {
    hide PointsTo, Read;
    assert elements[..|counts|] == elements;
    if t.In? { ReadHeld(m, t.mem, |b[t.mem]|); } else { ReadHeld(m, answer, 4 * |counts|); }
    forall p | p in b ensures p !in elements { NotNew(b, b', elements, counts, zero, p); }
  }

  lemma NotNew(b: Blocks, b': Blocks, elements: seq<nat>, counts: seq<nat>, zero: bool, p: nat)
    requires Elements(b, b', elements, counts, zero) && p in b
    ensures p !in elements
  {
    forall i: nat | i < |elements| ensures elements[i] != p { assert ElementAt(b, b', elements, counts, zero, i); }
  }

  lemma DeliveredState(m: MallocState, core: LinearMemory, v0: View, m0: Mem, needs: seq<nat>, own: bool, ac: nat,
          clear: bool, marray: nat, elements: seq<nat>, p0: nat, ss: seq<nat>)
    requires Delivered(m, core, v0, m0, needs, own, ac, clear, marray, elements, p0, ss)
    ensures Valid(m, core) && SteadySince(v0, m.view)
  {
    hide Quiet, Steady, Valid, PieceMap, Sum, Stored, PiecesZeroed, StillLive, KeptBut, Anew, Live, Fulfills, Pointers;
  }

  /** The blocks after a delivery. */
  method Gather(m: MallocState, core: LinearMemory, ghost v0: View, ghost m0: Mem, b: Blocks, n: nat, same: bool,
          sizes: seq<nat>, clear: bool, t: Target, marray: nat, elements: seq<nat>, ghost p0: nat, ghost ss: seq<nat>,
          ghost ac: nat)
        returns (b': Blocks)
    requires (if same then |sizes| > 0 else |sizes| == n) && TargetLegal(b, n, t) && Mirrors(m0, Live(v0.l), b) && n > 0
    requires t.In? ==> t.mem >= 8 && marray == t.mem + t.offset
    requires ac == HomeOf(t)
    requires Delivered(m, core, v0, m0, Needs(n, same, sizes), t == Own, ac, clear, marray, elements, p0, ss)
    ensures Represents(m, core, b') && SteadySince(v0, m.view)
    ensures Spread(b, b', marray, t, Counts(n, same, sizes), clear, elements)
  {
    hide Valid, Steady, Mirrors, Needs, Delivered, Placed, Collected, Elements, PointsTo, Spread, Read;
    DeliveredPlaced(m, core, v0, m0, n, same, sizes, t, clear, marray, elements, p0, ss, b);
    ArrayReads(m, core, v0, m0, n, same, sizes, t, clear, marray, elements, p0, ss, b);
    var b1 := WithArray(m.mem, b, t, marray, n);
    PlacedSeparate(m, v0, b, b1, elements, Counts(n, same, sizes), clear);
    b' := Collect(m.mem, b1, elements, Counts(n, same, sizes));
    CollectedMirrors(m, v0, b, b1, b', elements, Counts(n, same, sizes), clear);
    DeliveredState(m, core, v0, m0, Needs(n, same, sizes), t == Own, ac, clear, marray, elements, p0, ss);
    SpreadOf(m.mem, b, b', marray, t, Counts(n, same, sizes), clear, elements);
  }

  lemma PlacedSeparate(m: MallocState, v0: View, b: Blocks, b1: Blocks, elements: seq<nat>, counts: seq<nat>,
          zero: bool)
    requires Placed(m, v0, b, b1, elements, counts, zero)
    ensures Distinct(elements) && |elements| == |counts|
  {
    hide BlockAt, Read, Zeroed, Distinct;
  }

  /** With no elements there is at most an empty array. */
  method NoElements(m: MallocState, core: LinearMemory, ghost v0: View, ghost m0: Mem, b: Blocks, same: bool,
          sizes: seq<nat>, clear: bool, t: Target, answer: nat)
        returns (b': Blocks)
    requires (if same then |sizes| > 0 else |sizes| == 0) && Mirrors(m0, Live(v0.l), b) && TargetLegal(b, 0, t)
    requires t == Own ==> answer >= 8 && Served(m, core, v0, m0, MemToChunk(answer), MIN_CHUNK_SIZE)
    requires t.In? ==> Valid(m, core) && m.view == v0 && m.mem == m0 && answer == t.mem + t.offset
    ensures Represents(m, core, b') && SteadySince(v0, m.view)
    ensures Spread(b, b', answer, t, Counts(0, same, sizes), clear, [])
  {
    hide Quiet, Valid, Steady, Mirrors, Served, Read;
    b' := b;
    if t == Own {
      ServedRoomy(m, core, v0, m0, MemToChunk(answer), MIN_CHUNK_SIZE);
      RoomySteady(m, core, v0, m0, MemToChunk(answer), MIN_CHUNK_SIZE);
      b' := AddBlock(m, core, b, answer, 0, v0, m0, MIN_CHUNK_SIZE);
    } else {
      SameOrder(m, core, v0);
    }
  }

  lemma RoomySteady(m: MallocState, core: LinearMemory, v0: View, m0: Mem, q: nat, nb: nat)
    requires Roomy(m, core, v0, m0, q, nb)
    ensures SteadySince(v0, m.view)
  {
    hide Quiet, Valid, Steady;
  }

  /** independent_calloc and independent_comalloc. */
  method DoIndependent(m: MallocState, core: LinearMemory, b: Blocks, n: nat, same: bool, sizes: seq<nat>, clear: bool,
          t: Target)
        returns (answer: nat, b': Blocks, elements: seq<nat>)
    requires Represents(m, core, b) && (if same then |sizes| > 0 else |sizes| == n) && TargetLegal(b, n, t)
    requires Aggregate(n, same, sizes, t == Own) < WORD
    modifies m, core
    ensures Represents(m, core, b') && SteadySince(old(m.view), m.view)
    ensures answer == NULL ==> b' == b
    ensures answer != NULL ==> Spread(b, b', answer, t, Counts(n, same, sizes), clear, elements)
    ensures IallocStep(old(MachineOf(m, core)), n, same, sizes, ChunksOf(t), answer, elements, MachineOf(m, core))
  {
    hide Quiet, Valid, Steady, Mirrors, Needs, Counts, Sum, ArraySize, Served, Delivered, Request2Size, IallocStep,
      Aggregate;
    if t.In? { LiveBlock(m.mem, Live(m.view.l), b, t.mem); }
    ghost var ac := HomeOf(t);
    ghost var p0, ss;
    answer, elements, p0, ss := Ialloc(m, core, n, same, sizes, clear, ChunksOf(t), ac);
    b' := b;
    if answer == NULL {
      SameOrder(m, core, old(m.view));
      MirrorsKept(old(m.mem), m.mem, Live(m.view.l), b);
    } else if n > 0 {
      b' := Gather(m, core, old(m.view), old(m.mem), b, n, same, sizes, clear, t, answer, elements, p0, ss, ac);
    } else {
      b' := NoElements(m, core, old(m.view), old(m.mem), b, same, sizes, clear, t, answer);
    }
  }
}
