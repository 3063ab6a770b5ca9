/** What a client of the allocator sees: a map from pointers to byte strings. */
module Clients {
  import opened Memory
  import opened Payloads
  import opened Ages
  import opened Heaps
  import opened MallocStates
  import opened Freeing
  import opened Morecores
  import opened SysAllocs
  import opened Mallocs
  import opened Bytes
  import opened Reallocs
  import opened Memaligns

  /** What the client sees: live pointers and the bytes it may use at each. */
  type Blocks = map<nat, seq<nat>>

  /** The bytes at p are those of a live block with room for them. */
  ghost predicate BlockAt(m: Mem, live: map<nat, nat>, p: nat, bytes: seq<nat>) {
    && p >= 8 && p % 8 == 0 && MemToChunk(p) in live && live[MemToChunk(p)] % 8 == 0
    && |bytes| + CHUNK_OVERHEAD <= live[MemToChunk(p)]
    && Holding(m, p, bytes)
  }

  ghost predicate Holding(m: Mem, p: nat, bytes: seq<nat>) {
    forall x: nat {:trigger Byte(m, x)} :: p <= x < p + |bytes| ==> Byte(m, x) == bytes[x - p]
  }

  ghost predicate Mirrors(m: Mem, live: map<nat, nat>, b: Blocks) {
    && (forall p {:trigger BlockAt(m, live, p, b[p])} :: p in b ==> BlockAt(m, live, p, b[p]))
    && (forall q {:trigger q in live} :: q in live ==> ChunkToMem(q) in b)
  }

  /** The abstraction: the invariant holds, and the live blocks and their contents are those of b. */
  ghost predicate Represents(m: MallocState, core: LinearMemory, b: Blocks)
    reads m, core
  {
    Valid(m, core) && Mirrors(m.mem, Live(m.view.l), b)
  }

  function Read(m: Mem, p: nat, count: nat): seq<nat> {
    seq<nat>(count, i requires 0 <= i < count => Byte(m, p + i))
  }

  lemma BlockKept(m: Mem, live: map<nat, nat>, m': Mem, live': map<nat, nat>, fewer: map<nat, nat>, p: nat,
          bytes: seq<nat>)
    requires BlockAt(m, live, p, bytes) && Quiet(fewer, m, m') && MemToChunk(p) in fewer && MemToChunk(p) in live'
    requires fewer[MemToChunk(p)] == live[MemToChunk(p)] == live'[MemToChunk(p)]
    ensures BlockAt(m', live', p, bytes)
  {
    var q := MemToChunk(p);
    KeptOf(fewer, m, m', q);
    PayloadCarried(m, m', q, fewer[q], |bytes|);
    hide Byte;
    forall x: nat | p <= x < p + |bytes| ensures Byte(m', x) == bytes[x - p] {
      assert Byte(m', x) == Byte(m, x);
    }
  }

  /** Nothing but quiet happened. */
  lemma MirrorsKept(m: Mem, m': Mem, live: map<nat, nat>, b: Blocks)
    requires Mirrors(m, live, b) && Quiet(live, m, m')
    ensures Mirrors(m', live, b)
  {
    hide BlockAt, Quiet;
    forall p | p in b ensures BlockAt(m', live, p, b[p]) {
      assert BlockAt(m, live, p, b[p]);
      BlockChunk(m, live, p, b[p]);
      BlockKept(m, live, m', live, live, p, b[p]);
    }
  }

  lemma BlockChunk(m: Mem, live: map<nat, nat>, p: nat, bytes: seq<nat>)
    requires BlockAt(m, live, p, bytes)
    ensures p >= 8 && MemToChunk(p) in live && |bytes| + CHUNK_OVERHEAD <= live[MemToChunk(p)]
  {
  }

  /** The blocks at the chunks `gone` disappear. */
  lemma MirrorsFewer(m: Mem, m': Mem, live: map<nat, nat>, gone: set<nat>, b: Blocks, b': Blocks)
    requires Mirrors(m, live, b) && Quiet(live - gone, m, m')
    requires forall p {:trigger p in b'} :: p in b' <==> p in b && p >= 8 && MemToChunk(p) !in gone
    requires forall p {:trigger b'[p]} :: p in b' ==> b'[p] == b[p]
    ensures Mirrors(m', live - gone, b')
  {
    hide BlockAt, Quiet;
    forall p | p in b' ensures BlockAt(m', live - gone, p, b'[p]) {
      assert BlockAt(m, live, p, b[p]);
      BlockChunk(m, live, p, b[p]);
      BlockKept(m, live, m', live - gone, live - gone, p, b[p]);
    }
  }

  /** A new block appears, or one takes a new place or size. */
  lemma MirrorsMore(m: Mem, m': Mem, live: map<nat, nat>, b: Blocks, q: nat, s: nat, bytes: seq<nat>)
    requires Mirrors(m, live, b) && q !in live && Quiet(live, m, m') && BlockAt(m', live[q := s], ChunkToMem(q), bytes)
    ensures ChunkToMem(q) !in b && Mirrors(m', live[q := s], b[ChunkToMem(q) := bytes])
  {
    hide BlockAt, Quiet;
    var b' := b[ChunkToMem(q) := bytes];
    if ChunkToMem(q) in b {
      assert BlockAt(m, live, ChunkToMem(q), b[ChunkToMem(q)]);
      BlockChunk(m, live, ChunkToMem(q), b[ChunkToMem(q)]);
    }
    forall p | p in b' ensures BlockAt(m', live[q := s], p, b'[p]) {
      if p != ChunkToMem(q) {
        assert BlockAt(m, live, p, b[p]);
        BlockChunk(m, live, p, b[p]);
        BlockKept(m, live, m', live[q := s], live, p, b[p]);
      }
    }
  }

  lemma LiveBlock(m: Mem, live: map<nat, nat>, b: Blocks, p: nat)
    requires Mirrors(m, live, b) && p in b
    ensures p >= 8 && MemToChunk(p) in live && BlockAt(m, live, p, b[p])
    ensures |b[p]| + CHUNK_OVERHEAD <= live[MemToChunk(p)]
  {
    assert BlockAt(m, live, p, b[p]);
  }

  lemma BlocksHigh(m: Mem, live: map<nat, nat>, b: Blocks)
    requires Mirrors(m, live, b)
    ensures forall p {:trigger p in b} :: p in b ==> p >= 8
  {
    forall p | p in b ensures p >= 8 { assert BlockAt(m, live, p, b[p]); }
  }

  /** A call that may find no memory: then nothing changes, and otherwise a block of `count` bytes is added. */
  ghost predicate Adds(b: Blocks, b': Blocks, answer: nat, count: nat) {
    if answer == NULL then b' == b
      else answer !in b && answer in b' && b' == b[answer := b'[answer]] && |b'[answer]| == count
  }

  lemma ReadHeld(m: Mem, p: nat, count: nat)
    ensures Holding(m, p, Read(m, p, count)) && |Read(m, p, count)| == count
  {
    hide Byte;
  }

  lemma ReadZeros(m: Mem, p: nat, count: nat)
    requires Zeroed(m, p, count)
    ensures forall x | x in Read(m, p, count) :: x == 0
  {
    hide Byte;
  }

  lemma ServedBlock(m: MallocState, core: LinearMemory, q: nat, count: nat)
    requires Valid(m, core) && m.top != 0 && q in Live(m.view.l) && count + CHUNK_OVERHEAD <= Live(m.view.l)[q]
    ensures BlockAt(m.mem, Live(m.view.l), ChunkToMem(q), Read(m.mem, ChunkToMem(q), count))
  {
    hide Core;
    LiveFacts(m.St(), m.sb, m.view, m.Resting(), q);
    ReadHeld(m.mem, ChunkToMem(q), count);
  }

  /** The blocks with the new one. */
  method AddBlock(m: MallocState, core: LinearMemory, b: Blocks, mem: nat, count: nat, ghost v0: View, ghost m0: Mem,
          ghost nb: nat)
        returns (b': Blocks)
    requires mem >= 8 && Roomy(m, core, v0, m0, MemToChunk(mem), nb) && count + CHUNK_OVERHEAD <= nb
    requires Mirrors(m0, Live(v0.l), b)
    ensures Represents(m, core, b') && Adds(b, b', mem, count) && b'[mem] == Read(m.mem, mem, count)
  {
    hide Quiet, Valid, Mirrors, BlockAt, Read;
    b' := b[mem := Read(m.mem, mem, count)];
    ReadHeld(m.mem, mem, count);
    ServedBlock(m, core, MemToChunk(mem), count);
    MirrorsMore(m0, m.mem, Live(v0.l), b, MemToChunk(mem), Live(m.view.l)[MemToChunk(mem)], Read(m.mem, mem, count));
  }

  /** Where the free lists are as they were, so is their order. */
  lemma SameOrder(m: MallocState, core: LinearMemory, v0: View)
    requires Valid(m, core) && SameLists(v0, m.view)
    ensures SteadySince(v0, m.view)
  {
    hide m.TopAndDv, m.Holds, Steady;
    if m.top != 0 { OrderNow(m); } else { NothingListedSteady(m); }
  }

  lemma NothingListedSteady(m: MallocState)
    requires m.Blank()
    ensures SteadySince(m.view, m.view)
  {
  }
}
