/** The DEBUG checks of malloc.c that look at single chunks and at the whole segment, on memory words, pass in every
    state that satisfies the invariant. */
module Checks {
  import opened Memory
  import opened Layouts
  import opened Tags
  import opened Rings
  import opened Bins
  import opened BinMaps
  import opened SmallBins
  import opened Positions
  import opened TreeBins
  import opened Heaps
  import opened MallocStates
  import opened Freeing
  import opened Morecores
  import opened Machines
  import opened SysAllocs
  import opened BinFinds

  /** do_check_any_chunk. */
  predicate AnyChunk(m: MallocState, p: nat)
    reads m
  {
    (p + 8) % 8 == 0 && m.OkAddress(p)
  }

  /** do_check_inuse_chunk, of a chunk that is not mmapped. */
  predicate InuseChunk(m: MallocState, p: nat)
    reads m
  {
    && AnyChunk(m, p) && Cinuse(m.mem, p) && Pinuse(m.mem, p + ChunkSize(m.mem, p))
    && (Pinuse(m.mem, p) || (PrevFoot(m.mem, p) <= p
         && p - PrevFoot(m.mem, p) + ChunkSize(m.mem, p - PrevFoot(m.mem, p)) == p))
  }

  /** do_check_free_chunk. */
  predicate FreeChunk(m: MallocState, p: nat)
    reads m
  {
    var sz := ChunkSize(m.mem, p);
    var next := p + sz;
    && AnyChunk(m, p) && !Cinuse(m.mem, p) && !Pinuse(m.mem, next)
    && (p != m.dv && p != m.top ==>
          && sz >= MIN_CHUNK_SIZE && sz % 8 == 0 && PrevFoot(m.mem, next) == sz && Pinuse(m.mem, p)
          && (next == m.top || Cinuse(m.mem, next))
          && Bk(m.mem, Fd(m.mem, p)) == p && Fd(m.mem, Bk(m.mem, p)) == p)
  }

  /** do_check_top_chunk. */
  predicate TopChunk(m: MallocState, p: nat)
    reads m
  {
    var sz := ChunkSize(m.mem, p);
    && AnyChunk(m, p) && sz == m.topsize && sz > 0 && p + sz + TOP_FOOT_SIZE == m.segBase + m.segSize
    && Pinuse(m.mem, p) && !Pinuse(m.mem, p + sz)
  }

  lemma RingNeighbours(m: Mem, r: seq<nat>, k: nat)
    requires Ring(m, r) && k < |r|
    ensures Bk(m, Fd(m, r[k])) == r[k] && Fd(m, Bk(m, r[k])) == r[k]
  {
    assert RingAt(m, r, k);
    assert RingAt(m, r, if k == 0 then |r| - 1 else k - 1);
    assert RingAt(m, r, if k + 1 == |r| then 0 else k + 1);
  }

  lemma ListedLinks(st: Store, sb: nat, v: View, loose: set<nat>, p: nat)
    requires Core(st, sb, v, loose) && p in v.l.chunks && !v.l.chunks[p].inuse && p !in loose
    ensures Bk(st.mem, Fd(st.mem, p)) == p && Fd(st.mem, Bk(st.mem, p)) == p
  {
    hide Tagged, Marked, TreeWords;
    var s := v.l.chunks[p].size;
    var k := Find(v.l, v.lists, loose, p);
    if s < MIN_LARGE_SIZE {
      assert SmallAt(st.mem, sb, v.lists, s);
      RingNeighbours(st.mem, SmallRing(sb, v.lists, s), k + 1);
    } else {
      assert LargeRingAt(st.mem, v.lists, s);
      RingNeighbours(st.mem, v.lists[s], k);
    }
  }

  lemma FreeWords(st: Store, sb: nat, v: View, loose: set<nat>, p: nat)
    requires Core(st, sb, v, loose) && p in v.l.chunks && !v.l.chunks[p].inuse
    ensures ChunkSize(st.mem, p) == v.l.chunks[p].size && !Cinuse(st.mem, p) && Pinuse(st.mem, p) && p % 8 == 0
    ensures p >= v.l.first > 0
    ensures var n := Next(v.l, p); n != v.l.end ==>
      && n in v.l.chunks && v.l.chunks[n].inuse && Cinuse(st.mem, n) && !Pinuse(st.mem, n)
      && PrevFoot(st.mem, n) == v.l.chunks[p].size
      && v.l.chunks[p].size >= 16 && v.l.chunks[p].size % 8 == 0
    ensures Next(v.l, p) == v.l.end ==> Head(st.mem, Next(v.l, p)) == TOP_FOOT_SIZE
  {
    hide SmallReady, TreeReady, Binned;
    assert FitsAt(v.l, p) && LinkedAt(v.l, p) && TagAt(st.mem, v.l, p);
    ReadHead(st.mem, v.l, p);
    if Next(v.l, p) != v.l.end { ReadHead(st.mem, v.l, Next(v.l, p)); }
  }

  lemma FreePasses(m: MallocState, p: nat)
    requires m.Settled() && p in m.view.l.chunks && !m.view.l.chunks[p].inuse && p != m.top
    ensures FreeChunk(m, p)
  {
    hide Core;
    FreeWords(m.St(), m.sb, m.view, m.Resting(), p);
    NotTop(m.St(), m.sb, m.view, m.Resting(), p, m.top);
    if p !in m.Resting() { ListedLinks(m.St(), m.sb, m.view, m.Resting(), p); }
  }

  lemma InusePasses(m: MallocState, p: nat)
    requires m.Settled() && p in m.view.l.chunks && m.view.l.chunks[p].inuse
    ensures InuseChunk(m, p)
  {
    InUseFacts(m.St(), m.sb, m.view, m.Resting(), p);
    hide Core;
    if !Pinuse(m.mem, p) {
      var a := BackwardFacts(m.St(), m.sb, m.view, m.Resting(), p);
      InUseFacts(m.St(), m.sb, m.view, m.Resting(), a);
    }
  }

  lemma TopPasses(m: MallocState, core: LinearMemory)
    requires Valid(m, core) && m.top != 0
    ensures TopChunk(m, m.top)
  {
    hide Core;
    FreeWords(m.St(), m.sb, m.view, m.Resting(), m.top);
    TopSize(m);
  }

  lemma TopSize(m: MallocState)
    requires m.Settled()
    ensures m.topsize >= 8 && (m.dvsize > 0 ==> m.dvsize >= 16)
  {
    hide SmallReady, TreeReady, Tagged, Binned;
    assert FitsAt(m.view.l, m.top);
    assert m.dvsize > 0 ==> FitsAt(m.view.l, m.dv);
  }

  /** The head of a chunk of four bytes, which marks the end of a segment that another one follows. */
  const FENCEPOST_HEAD: nat := 7

  /** is_inuse. */
  predicate IsInuse(m: Mem, p: nat) {
    Cinuse(m, p) || !Pinuse(m, p)
  }

  /** segment_holds. */
  predicate InSegment(m: MallocState, q: nat)
    reads m
  {
    m.segBase <= q < m.segBase + m.segSize
  }

  /** q is where the walk over the segment stands. */
  ghost predicate Walking(m: MallocState, q: nat, lastq: nat, sum: nat)
    reads m
  {
    && q in m.view.l.chunks && q <= m.top && sum == m.topsize + TOP_FOOT_SIZE + (q - m.view.l.first)
    && q >= m.view.l.first
    && (lastq != 0 ==> lastq in m.view.l.chunks && Next(m.view.l, lastq) == q)
  }

  /** The one segment has no fencepost, and top ends the walk. */
  lemma WalkInside(m: MallocState, core: LinearMemory, q: nat, lastq: nat, sum: nat)
    requires Valid(m, core) && m.top != 0 && Walking(m, q, lastq, sum)
    ensures q != m.top ==> InSegment(m, q) && Head(m.mem, q) != FENCEPOST_HEAD
  {
    InUseFacts(m.St(), m.sb, m.view, m.Resting(), q);
    hide Core;
    if q != m.top {
      NotTop(m.St(), m.sb, m.view, m.Resting(), q, m.top);
      NoFencepost(m.St(), m.sb, m.view, m.Resting(), q);
    }
  }

  lemma NoFencepost(st: Store, sb: nat, v: View, loose: set<nat>, q: nat)
    requires Core(st, sb, v, loose) && q in v.l.chunks && Next(v.l, q) != v.l.end
    ensures Head(st.mem, q) != FENCEPOST_HEAD
  {
    hide SmallReady, TreeReady, Binned;
    assert FitsAt(v.l, q);
    ReadHead(st.mem, v.l, q);
    assert SizeOf(FENCEPOST_HEAD) == 0;
  }

  lemma WalkOn(m: MallocState, q: nat, lastq: nat, sum: nat)
    requires m.Settled() && Walking(m, q, lastq, sum) && q != m.top
    ensures ChunkSize(m.mem, q) == m.view.l.chunks[q].size > 0 && q > 0
    ensures IsInuse(m.mem, q) == m.view.l.chunks[q].inuse
    ensures Walking(m, q + ChunkSize(m.mem, q), q, sum + ChunkSize(m.mem, q))
    ensures lastq != 0 && !m.view.l.chunks[q].inuse ==> IsInuse(m.mem, lastq)
  {
    InUseFacts(m.St(), m.sb, m.view, m.Resting(), q);
    NotTop(m.St(), m.sb, m.view, m.Resting(), q, m.top);
    if lastq != 0 { InUseFacts(m.St(), m.sb, m.view, m.Resting(), lastq); }
    WalkStep(m.St(), m.sb, m.view, m.Resting(), q, lastq, m.top);
  }

  lemma WalkStep(st: Store, sb: nat, v: View, loose: set<nat>, q: nat, lastq: nat, top: nat)
    requires Core(st, sb, v, loose) && q in v.l.chunks && top in v.l.chunks && q != top && Next(v.l, top) == v.l.end
    requires Next(v.l, q) in v.l.chunks
    ensures v.l.chunks[q].size > 0 && (q < top ==> Next(v.l, q) <= top) && q >= v.l.first
    ensures lastq != 0 && lastq in v.l.chunks && Next(v.l, lastq) == q ==>
      v.l.chunks[lastq].inuse || v.l.chunks[q].inuse
    ensures v.l.chunks[q].inuse || v.l.chunks[q].pin
  {
    hide SmallReady, TreeReady, Tagged, Binned;
    assert FitsAt(v.l, q) && ApartAt(v.l, q, top) && LinkedAt(v.l, q);
    assert lastq in v.l.chunks ==> LinkedAt(v.l, lastq);
    assert FitsAt(v.l, top);
  }

  lemma WalkStart(m: MallocState, core: LinearMemory)
    requires Valid(m, core) && m.top != 0
    ensures Walking(m, m.segBase + AlignOffset(m.segBase), 0, m.topsize + TOP_FOOT_SIZE)
    ensures Pinuse(m.mem, m.segBase + AlignOffset(m.segBase))
  {
    FirstChunk(m.St(), m.sb, m.view, m.Resting(), m.top);
  }

  lemma FirstChunk(st: Store, sb: nat, v: View, loose: set<nat>, top: nat)
    requires Core(st, sb, v, loose) && top in v.l.chunks
    ensures v.l.first in v.l.chunks && v.l.first <= top && Pinuse(st.mem, v.l.first)
  {
    hide SmallReady, TreeReady, Binned;
    assert FitsAt(v.l, top);
    ReadHead(st.mem, v.l, v.l.first);
  }

  /** traverse_and_check: every check it makes passes, and what it adds up is the whole footprint, but for the bytes
      that aligning the segment's base leaves unused. */
  method TraverseAndCheck(m: MallocState, core: LinearMemory) returns (sum: nat)
    requires Valid(m, core)
    ensures sum == if m.top == 0 then 0 else m.footprint - AlignOffset(m.segBase)
    ensures sum <= m.footprint <= m.maxFootprint
  {
    hide Core, m.TopAndDv, m.Holds, InuseChunk, FreeChunk, Walking, m.Blank, InBin;
    sum := 0;
    if m.top != 0 {
      TopPasses(m, core);
      sum := m.topsize + TOP_FOOT_SIZE;
      var q: nat, lastq: nat := m.segBase + AlignOffset(m.segBase), 0;
      WalkStart(m, core);
      WalkInside(m, core, q, lastq, sum);
      assert Pinuse(m.mem, q);
      while InSegment(m, q) && q != m.top && Head(m.mem, q) != FENCEPOST_HEAD
        invariant Walking(m, q, lastq, sum)
        invariant q != m.top ==> InSegment(m, q) && Head(m.mem, q) != FENCEPOST_HEAD
        decreases m.top - q
      {
        WalkBelow(m, q, lastq, sum);
        WalkOn(m, q, lastq, sum);
        var found := BinFind(m, q);
        sum := sum + ChunkSize(m.mem, q);
        if IsInuse(m.mem, q) {
          InusePasses(m, q);
          assert !found && InuseChunk(m, q);
        } else {
          FreePasses(m, q);
          assert (q == m.dv || found) && (lastq == 0 || IsInuse(m.mem, lastq)) && FreeChunk(m, q);
        }
        lastq := q;
        q := q + ChunkSize(m.mem, q);
        WalkInside(m, core, q, lastq, sum);
      }
      WalkDone(m, core, lastq, sum);
    }
  }

  lemma WalkBelow(m: MallocState, q: nat, lastq: nat, sum: nat)
    requires Walking(m, q, lastq, sum) && q != m.top
    ensures q < m.top && q in m.view.l.chunks
  {
  }

  lemma WalkDone(m: MallocState, core: LinearMemory, lastq: nat, sum: nat)
    requires Valid(m, core) && m.top != 0 && Walking(m, m.top, lastq, sum)
    ensures sum == m.footprint - AlignOffset(m.segBase)
  {
    hide Core;
  }
}
