/** bin_find: looking a chunk up in the bin where its size puts it. */
module BinFinds {
  import opened Memory
  import opened Layouts
  import opened Tags
  import opened Rings
  import opened Bins
  import opened BinMaps
  import opened SmallBins
  import opened TreeIndices
  import opened Positions
  import opened Tries
  import opened TreeBins
  import opened Heaps
  import opened HeapBins
  import opened MallocStates

  /** Whether x is on the ring that is entered at `start`, following fd until it comes round. */
  method OnRing(mem: Mem, start: nat, x: nat, ghost r: seq<nat>) returns (found: bool)
    requires Ring(mem, r) && Distinct(r) && |r| > 0 && start == r[0]
    ensures found <==> x in r
  {
    var p := start;
    ghost var j := |r|;
    while true
      invariant 0 < j <= |r| && p == r[if j == |r| then 0 else j]
      invariant (forall i | j < i < |r| :: r[i] != x) && (j < |r| ==> r[0] != x)
      decreases j
    {
      if p == x {
        return true;
      }
      assert RingAt(mem, r, if j == |r| then 0 else j);
      p := Fd(mem, p);
      j := j - 1;
      if p == start {
        assert j == 0;
        return false;
      }
    }
  }

  /** The chunk at p is listed under its size. */
  ghost predicate InBin(v: View, p: nat) {
    p in v.l.chunks && v.l.chunks[p].size in v.lists && p in v.lists[v.l.chunks[p].size]
  }

  lemma BinnedOnce(st: Store, sb: nat, v: View, loose: set<nat>, p: nat)
    requires Core(st, sb, v, loose) && p in v.l.chunks
    ensures InBin(v, p) <==> !v.l.chunks[p].inuse && p !in loose
  {
    hide SmallReady, TreeReady, Tagged;
    if InBin(v, p) {
      var k: nat :| k < |v.lists[v.l.chunks[p].size]| && v.lists[v.l.chunks[p].size][k] == p;
      assert MemberAt(v.l, v.lists, loose, v.l.chunks[p].size, k);
    }
    assert FoundAt(v.l, v.lists, loose, p);
  }

  lemma ChunkFacts(st: Store, sb: nat, v: View, loose: set<nat>, x: nat)
    requires Core(st, sb, v, loose) && x in v.l.chunks
    ensures ChunkSize(st.mem, x) == v.l.chunks[x].size < WORD && v.l.chunks[x].size % 8 == 0 && x >= v.l.first
  {
    hide SmallReady, TreeReady, Binned;
    assert FitsAt(v.l, x);
    ReadHead(st.mem, v.l, x);
  }

  lemma SmallRingFacts(st: Store, sb: nat, v: View, loose: set<nat>, s: nat)
    requires Core(st, sb, v, loose) && s in v.lists && s < MIN_LARGE_SIZE
    ensures Ring(st.mem, SmallRing(sb, v.lists, s)) && Distinct(SmallRing(sb, v.lists, s)) && sb + s < v.l.first
  {
    hide TreeReady, Tagged, Marked;
    assert SmallAt(st.mem, sb, v.lists, s);
    SmallRingDistinct(v.l, v.lists, loose, sb, s);
  }

  method FindSmall(m: MallocState, x: nat, size: nat, ghost loose: set<nat>) returns (found: bool)
    requires m.Holds(loose) && x in m.view.l.chunks && size == m.view.l.chunks[x].size < MIN_LARGE_SIZE
    ensures found <==> InBin(m.view, x)
  {
    hide Core, Marked, Ring, Distinct;
    ChunkFacts(m.St(), m.sb, m.view, loose, x);
    var sidx := SmallIndex(size);
    SmallMarked(m.St(), m.sb, m.view, loose, size);
    found := false;
    if Marked(m.smallmap, sidx) {
      SmallRingFacts(m.St(), m.sb, m.view, loose, size);
      found := OnRing(m.mem, m.sb + 8 * sidx, x, SmallRing(m.sb, m.view.lists, size));
      assert x in SmallRing(m.sb, m.view.lists, size) <==> x == m.sb + size || x in m.view.lists[size];
    }
  }

  /** A size whose root or next node is missing is not listed. */
  lemma UnlistedSize(st: Store, sb: nat, v: View, loose: set<nat>, s: nat)
    requires Core(st, sb, v, loose) && s >= MIN_TREE_SIZE
    ensures s in v.t.pos <==> s in v.lists
    ensures TreeSize(s) && Root(TreeIndex(s)) !in v.t.size ==> s !in v.t.pos
  {
    hide SmallReady, Tagged, Marked;
    assert LargeAt(v.lists, v.t, s);
    if TreeSize(s) && Root(TreeIndex(s)) !in v.t.size { RootFree(v.t, s); }
  }

  lemma LargeRingFacts(st: Store, sb: nat, v: View, loose: set<nat>, s: nat)
    requires Core(st, sb, v, loose) && s in v.lists && s >= MIN_TREE_SIZE
    ensures Ring(st.mem, v.lists[s]) && Distinct(v.lists[s]) && |v.lists[s]| > 0
  {
    hide SmallReady, Tagged, Marked;
    assert LargeRingAt(st.mem, v.lists, s);
  }

  /** The descent of bin_find stands at t, the node at p, or has run out of the tree. */
  ghost predicate Seeking(v: View, t: nat, s: nat, p: Pos, sizebits: nat) {
    if t == 0 then s !in v.t.pos else Standing(v, t, s, p, sizebits)
  }

  method FindLarge(m: MallocState, x: nat, size: nat, ghost loose: set<nat>) returns (found: bool)
    requires m.Holds(loose) && x in m.view.l.chunks && size == m.view.l.chunks[x].size >= MIN_LARGE_SIZE
    ensures found <==> InBin(m.view, x)
  {
    hide Core, Marked, Standing, Ring, Distinct;
    ghost var st := m.St();
    ChunkFacts(st, m.sb, m.view, loose, x);
    IndexBound(size);
    UnlistedSize(st, m.sb, m.view, loose, size);
    var tidx := TreeIndex(size);
    ReadRoot(st, m.sb, m.view, loose, tidx);
    found := false;
    if Marked(m.treemap, tidx) {
      var t := m.treebins[tidx];
      var sizebits: nat := Shl(size, 31 - RootBit(tidx));
      ghost var p := Root(tidx);
      StandAtRoot(st, m.sb, m.view, loose, size, t, sizebits);
      while t != 0 && ChunkSize(m.mem, t) != size
        invariant Seeking(m.view, t, size, p, sizebits)
        decreases if t == 0 then 0 else p.bit + 1
      {
        StandLower(st, m.sb, m.view, loose, x, t, size, p, sizebits);
        var side := sizebits / 0x8000_0000 % 2;
        t := Child(m.mem, t, side);
        sizebits := sizebits * 2 % WORD;
        p := Down(p, side);
      }
      if t != 0 {
        StandFound(st, m.sb, m.view, loose, t, size, p, sizebits);
        LargeRingFacts(st, m.sb, m.view, loose, size);
        found := OnRing(m.mem, t, x, m.view.lists[size]);
      }
    }
  }

  /** bin_find: exactly the free chunks other than dv and top are in a bin, and the search finds them there. */
  method BinFind(m: MallocState, x: nat) returns (found: bool)
    requires m.Settled() && x in m.view.l.chunks
    ensures found <==> InBin(m.view, x)
    ensures found <==> !m.view.l.chunks[x].inuse && x != m.top && (m.dvsize > 0 ==> x != m.dv)
  {
    hide Core, InBin;
    BinnedOnce(m.St(), m.sb, m.view, m.Resting(), x);
    ChunkFacts(m.St(), m.sb, m.view, m.Resting(), x);
    var size := ChunkSize(m.mem, x);
    SmallOrLarge(size);
    if IsSmall(size) {
      found := FindSmall(m, x, size, m.Resting());
    } else {
      found := FindLarge(m, x, size, m.Resting());
    }
  }
}
