/** The searches of tmalloc_large and tmalloc_small: best fit over the tries. */
module Searching {
  import opened Memory
  import opened Tags
  import opened BinMaps
  import opened SmallBins
  import opened TreeIndices
  import opened Positions
  import opened Tries
  import opened TreeBins
  import opened Heaps
  import opened HeapBins
  import opened MallocStates

  /** size - nb in 32 bits. */
  function Minus32(size: nat, nb: nat): nat
    requires nb < WORD
  {
    (size + WORD - nb) % WORD
  }

  /** leftmost_child. */
  function LeftmostChild(m: Mem, t: nat): nat {
    if Child(m, t, 0) != 0 then Child(m, t, 0) else Child(m, t, 1)
  }

  /** The candidate v so far has rsize bytes to spare; no candidate counts as 2^32 bytes. */
  ghost predicate Candidate(v: View, nb: nat, c: nat, rsize: nat) {
    && 0 < nb < WORD
    && (c == 0 ==> rsize == WORD - nb)
    && (c != 0 ==> rsize + nb in v.t.pos && v.t.pos[rsize + nb] in v.t.node && v.t.node[v.t.pos[rsize + nb]] == c)
  }

  /** t is null, or the node at p. */
  ghost predicate AtNode(v: View, t: nat, p: Pos) {
    t != 0 ==> p in v.t.size && p in v.t.node && v.t.node[p] == t
  }

  /** Size s is either no better than what the candidate offers, or still ahead below t, or beaten by t. */
  ghost predicate Ahead(v: View, t: nat, p: Pos, best: nat, s: nat) {
    best <= s || (t != 0 && p in v.t.size && (Located(v.t, p, s) || v.t.size[p] < s))
  }

  ghost predicate AllAhead(v: View, t: nat, p: Pos, best: nat, nb: nat) {
    forall s {:trigger Ahead(v, t, p, best, s)} :: s in v.t.pos && nb <= s ==> Ahead(v, t, p, best, s)
  }

  /** Nothing below t is too small, or there is nothing left to improve. */
  ghost predicate NoneBelow(v: View, t: nat, p: Pos, nb: nat, rsize: nat) {
    rsize == 0 || t == 0 || forall s {:trigger Located(v.t, p, s)} :: Located(v.t, p, s) ==> nb <= s
  }

  /** What one visit to a node does to the candidate. */
  lemma Visit(st: Store, sb: nat, v: View, loose: set<nat>, p: Pos, nb: nat, c: nat, rsize: nat)
    requires Core(st, sb, v, loose) && p in v.t.size && p in v.t.node && Candidate(v, nb, c, rsize)
    ensures ChunkSize(st.mem, v.t.node[p]) == v.t.size[p] < WORD && v.t.node[p] != 0
    ensures var trem := Minus32(v.t.size[p], nb);
      && (trem < rsize ==> nb <= v.t.size[p] == trem + nb && Candidate(v, nb, v.t.node[p], trem))
      && (trem >= rsize ==> v.t.size[p] < nb || rsize + nb <= v.t.size[p])
  {
    hide SmallReady, Tagged, Chains, TreeWords, Marked;
    ReadNode(st, sb, v, loose, p);
    assert KeyAt(v.t, p);
    var s := v.t.size[p];
    if s >= nb { assert Minus32(s, nb) == s - nb; } else { assert Minus32(s, nb) == s + WORD - nb; }
    if c != 0 { assert SizeAt(v.t, rsize + nb) && KeyAt(v.t, v.t.pos[rsize + nb]); }
  }

  /** Stepping to the leftmost child loses sight of nothing better. */
  lemma StepLeft(st: Store, sb: nat, v: View, loose: set<nat>, p: Pos, nb: nat, rsize0: nat, rsize: nat)
        returns (q: Pos)
    requires Core(st, sb, v, loose) && p in v.t.size && p in v.t.node
    requires AllAhead(v, v.t.node[p], p, rsize0 + nb, nb) && NoneBelow(v, v.t.node[p], p, nb, rsize0)
    requires rsize <= rsize0 && (v.t.size[p] < nb || rsize + nb <= v.t.size[p])
    ensures var t := LeftmostChild(st.mem, v.t.node[p]);
      && AtNode(v, t, q) && (t != 0 ==> q.bit < p.bit)
      && AllAhead(v, t, q, rsize + nb, nb) && NoneBelow(v, t, q, nb, rsize)
  {
    hide SmallReady, Tagged, Chains, Marked;
    ReadNode(st, sb, v, loose, p);
    LocatedSelf(v.t, p);
    q := if Down(p, 0) in v.t.size then Down(p, 0) else Down(p, 1);
    var t := LeftmostChild(st.mem, v.t.node[p]);
    assert Down(p, 0) in v.t.node ==> PlacedAt(v.t.node, Down(p, 0));
    assert Down(p, 1) in v.t.node ==> PlacedAt(v.t.node, Down(p, 1));
    assert v.t.node.Keys == v.t.size.Keys;
    assert Down(p, 0) in v.t.size.Keys <==> Down(p, 0) in v.t.size;
    assert Down(p, 1) in v.t.size.Keys <==> Down(p, 1) in v.t.size;
    forall s | s in v.t.pos && nb <= s ensures Ahead(v, t, q, rsize + nb, s) {
      assert Ahead(v, v.t.node[p], p, rsize0 + nb, s);
      if Located(v.t, p, s) && s != v.t.size[p] { AheadBelow(v, p, q, s); }
    }
    if t != 0 {
      forall s | Located(v.t, q, s) ensures rsize == 0 || nb <= s { UnderChild(v.t, p, q, s); }
    }
  }

  lemma AheadBelow(v: View, p: Pos, q: Pos, s: nat)
    requires TrieOK(v.t) && p in v.t.size && Located(v.t, p, s) && s != v.t.size[p] && p.bit > 0
    requires q == if Down(p, 0) in v.t.size then Down(p, 0) else Down(p, 1)
    ensures q in v.t.size && (Located(v.t, q, s) || v.t.size[q] < s)
  {
    LocatedBelow(v.t, p, s);
    if Down(p, 0) in v.t.size && !Located(v.t, Down(p, 0), s) {
      LocatedSelf(v.t, Down(p, 0));
      LeftIsSmaller(v.t, p, v.t.size[q], s);
    }
  }

  lemma UnderChild(t: Trie, p: Pos, q: Pos, s: nat)
    requires p.bit > 0 && (q == Down(p, 0) || q == Down(p, 1)) && Located(t, q, s)
    ensures Located(t, p, s)
  {
    var r := t.pos[s];
    assert Shr(r.prefix, p.bit - r.bit) == Shr(r.prefix, q.bit - r.bit + 1);
    ShrNext(r.prefix, q.bit - r.bit);
  }

  /** Walk down leftmost children: find the smallest of a subtree. */
  method WalkLeftmost(m: MallocState, t0: nat, c0: nat, rsize0: nat, nb: nat, ghost loose: set<nat>, ghost p0: Pos)
        returns (c: nat, rsize: nat)
    requires m.Holds(loose) && Candidate(m.view, nb, c0, rsize0) && AtNode(m.view, t0, p0)
    requires AllAhead(m.view, t0, p0, rsize0 + nb, nb) && NoneBelow(m.view, t0, p0, nb, rsize0)
    ensures Candidate(m.view, nb, c, rsize)
    ensures forall s {:trigger s in m.view.t.pos} :: s in m.view.t.pos && nb <= s ==> rsize + nb <= s
  {
    hide Core, AllAhead, NoneBelow, Candidate;
    c, rsize := c0, rsize0;
    var t := t0;
    ghost var p := p0;
    while t != 0
      invariant Candidate(m.view, nb, c, rsize) && AtNode(m.view, t, p)
      invariant AllAhead(m.view, t, p, rsize + nb, nb) && NoneBelow(m.view, t, p, nb, rsize)
      decreases t != 0, p.bit
    {
      CandidateSize(m.view, nb, c, rsize);
      Visit(m.St(), m.sb, m.view, loose, p, nb, c, rsize);
      var trem := Minus32(ChunkSize(m.mem, t), nb);
      ghost var rsize1 := rsize;
      if trem < rsize {
        rsize := trem;
        c := t;
      }
      p := StepLeft(m.St(), m.sb, m.view, loose, p, nb, rsize1, rsize);
      t := LeftmostChild(m.mem, t);
    }
    AllSeen(m.view, p, rsize + nb, nb);
  }

  lemma CandidateSize(v: View, nb: nat, c: nat, rsize: nat)
    requires Candidate(v, nb, c, rsize)
    ensures 0 < nb < WORD
  {
  }

  lemma AllSeen(v: View, p: Pos, best: nat, nb: nat)
    requires AllAhead(v, 0, p, best, nb)
    ensures forall s {:trigger s in v.t.pos} :: s in v.t.pos && nb <= s ==> best <= s
  {
    forall s | s in v.t.pos && nb <= s ensures best <= s { assert Ahead(v, 0, p, best, s); }
  }

  // the descent of tmalloc_large along the bits of nb

  /** Size s of nb's bin is no better than the candidate, or ahead at p, or in or behind the deepest
      untaken right subtree rs. */
  ghost predicate Tracked(v: View, alive: bool, p: Pos, some: bool, rs: Pos, best: nat, s: nat) {
    best <= s || (alive && Located(v.t, p, s)) || (some && rs in v.t.size && (Located(v.t, rs, s) || v.t.size[rs] < s))
  }

  ghost predicate AllTracked(v: View, alive: bool, p: Pos, some: bool, rs: Pos, best: nat, nb: nat) {
    forall s {:trigger Tracked(v, alive, p, some, rs, best, s)} ::
      s in v.t.pos && nb <= s && TreeIndex(s) == TreeIndex(nb) ==> Tracked(v, alive, p, some, rs, best, s)
  }

  /** rs is an untaken right subtree met above p on nb's path. */
  ghost predicate Untaken(v: View, p: Pos, rs: Pos, nb: nat) {
    && rs in v.t.size && rs.bin == TreeIndex(nb) && p.bit <= rs.bit && Shr(nb, rs.bit + 1) < rs.prefix
  }

  /** Everything below p precedes everything in an untaken right subtree above p. */
  lemma PathBeforeUntaken(t: Trie, p: Pos, rs: Pos, nb: nat, r: nat, s: nat)
    requires TrieOK(t) && p == PathPos(nb, p.bit) && p.bit <= rs.bit && Shr(nb, rs.bit + 1) < rs.prefix
    requires Located(t, p, r) && Located(t, rs, s)
    ensures r < s
  {
    LocatedPath(t, p, r);
    ShrShr(nb, p.bit + 1, rs.bit - p.bit);
    ShrShr(r, p.bit + 1, rs.bit - p.bit);
    LocatedAbove(t, rs, s, r);
  }

  lemma TrackNext(v: View, nb: nat, p: Pos, some: bool, rs: Pos, best0: nat, best: nat, s: nat)
    requires TrieOK(v.t) && p in v.t.size && p == PathPos(nb, p.bit) && p.bit > 0
    requires some ==> Untaken(v, p, rs, nb)
    requires s in v.t.pos && nb <= s && Tracked(v, true, p, some, rs, best0, s)
    requires best <= best0 && (v.t.size[p] < nb || best <= v.t.size[p])
    ensures var k := Shr(nb, p.bit) % 2;
      var q := Down(p, k);
      var turn := k == 0 && Down(p, 1) in v.t.size;
      Tracked(v, q in v.t.size, q, some || turn, if turn then Down(p, 1) else rs, best, s)
  {
    var k := Shr(nb, p.bit) % 2;
    var turn := k == 0 && Down(p, 1) in v.t.size;
    ShrNext(nb, p.bit);
    if Located(v.t, p, s) && s != v.t.size[p] {
      LocatedBelow(v.t, p, s);
      if k == 1 && Located(v.t, Down(p, 0), s) { LocatedAbove(v.t, Down(p, 0), s, nb); }
    }
    if turn && some {
      LocatedSelf(v.t, Down(p, 1));
      LocatedSelf(v.t, rs);
      UnderChild(v.t, p, Down(p, 1), v.t.size[Down(p, 1)]);
      PathBeforeUntaken(v.t, p, rs, nb, v.t.size[Down(p, 1)], v.t.size[rs]);
      if Located(v.t, rs, s) { PathBeforeUntaken(v.t, p, rs, nb, v.t.size[Down(p, 1)], s); }
    }
  }

  lemma AllTrackNext(v: View, nb: nat, p: Pos, some: bool, rs: Pos, best0: nat, best: nat)
    requires TrieOK(v.t) && p in v.t.size && p == PathPos(nb, p.bit) && p.bit > 0
    requires some ==> Untaken(v, p, rs, nb)
    requires AllTracked(v, true, p, some, rs, best0, nb)
    requires best <= best0 && (v.t.size[p] < nb || best <= v.t.size[p])
    ensures var k := Shr(nb, p.bit) % 2;
      var q := Down(p, k);
      var turn := k == 0 && Down(p, 1) in v.t.size;
      && AllTracked(v, q in v.t.size, q, some || turn, if turn then Down(p, 1) else rs, best, nb)
      && q == PathPos(nb, p.bit - 1)
      && (some || turn ==> Untaken(v, q, if turn then Down(p, 1) else rs, nb))
  {
    var k := Shr(nb, p.bit) % 2;
    var q := Down(p, k);
    var turn := k == 0 && Down(p, 1) in v.t.size;
    PathUp(nb, p.bit);
    ShrNext(nb, p.bit);
    forall s | s in v.t.pos && nb <= s && TreeIndex(s) == TreeIndex(nb)
      ensures Tracked(v, q in v.t.size, q, some || turn, if turn then Down(p, 1) else rs, best, s)
    {
      assert Tracked(v, true, p, some, rs, best0, s);
      TrackNext(v, nb, p, some, rs, best0, best, s);
    }
  }

  lemma TrackStart(v: View, nb: nat, best: nat)
    requires TrieOK(v.t) && TreeSize(nb) && Root(TreeIndex(nb)) in v.t.size
    ensures AllTracked(v, true, Root(TreeIndex(nb)), false, Root(TreeIndex(nb)), best, nb)
    ensures Root(TreeIndex(nb)) == PathPos(nb, RootBit(TreeIndex(nb)))
  {
    var p := Root(TreeIndex(nb));
    PathRoot(nb);
    forall s | s in v.t.pos && nb <= s && TreeIndex(s) == TreeIndex(nb) ensures Tracked(v, true, p, false, p, best, s) {
      BelowRoot(v.t, s);
    }
  }

  lemma BelowRoot(t: Trie, s: nat)
    requires TrieOK(t) && s in t.pos
    ensures TreeSize(s) && Root(TreeIndex(s)) in t.size && Located(t, Root(TreeIndex(s)), s)
  {
    assert SizeAt(t, s) && KeyAt(t, t.pos[s]);
    var r := t.pos[s];
    PathRoot(s);
    PathOccupied(t, s, RootBit(TreeIndex(s)));
    ShrShr(s, r.bit + 1, RootBit(r.bin) - r.bit);
  }

  /** The descent ends with the subtree rst to search, or with a candidate of nb's own bin, or with nothing. */
  lemma TrackEnd(v: View, nb: nat, c: nat, rsize: nat, rst: nat, p: Pos, rs: Pos)
    requires TrieOK(v.t) && Candidate(v, nb, c, rsize) && AtNode(v, rst, rs)
    requires (c != 0 ==> TreeIndex(rsize + nb) == TreeIndex(nb))
    requires AllTracked(v, false, p, rst != 0, rs, rsize + nb, nb) && (rst != 0 ==> Untaken(v, p, rs, nb))
    ensures rst != 0 || c != 0 ==> AllAhead(v, rst, rs, rsize + nb, nb) && NoneBelow(v, rst, rs, nb, rsize)
    ensures rst == 0 && c == 0 ==> forall s {:trigger s in v.t.pos} :: s in v.t.pos && nb <= s ==>
      TreeIndex(nb) < TreeIndex(s)
  {
    forall s | s in v.t.pos && nb <= s
      ensures rst != 0 || c != 0 ==> Ahead(v, rst, rs, rsize + nb, s)
      ensures rst == 0 && c == 0 ==> TreeIndex(nb) < TreeIndex(s)
    {
      IndexMonotone(nb, s);
      assert SizeAt(v.t, s) && KeyAt(v.t, v.t.pos[s]);
      if TreeIndex(s) == TreeIndex(nb) {
        assert Tracked(v, false, p, rst != 0, rs, rsize + nb, s);
      } else if rst != 0 {
        assert KeyAt(v.t, rs);
        if s <= v.t.size[rs] { IndexMonotone(s, v.t.size[rs]); }
      } else if c != 0 {
        if s <= rsize + nb { IndexMonotone(s, rsize + nb); }
      }
    }
    if rst != 0 {
      forall s | Located(v.t, rs, s) ensures nb <= s { LocatedAbove(v.t, rs, s, nb); }
    }
  }

  lemma CoreTrie(st: Store, sb: nat, v: View, loose: set<nat>)
    requires Core(st, sb, v, loose)
    ensures TrieOK(v.t)
  {
    hide SmallReady, Tagged, Chains, TreeWords, Marked;
  }

  /** What one level of the descent reads. */
  lemma ReadLevel(st: Store, sb: nat, v: View, loose: set<nat>, nb: nat, p: Pos)
    requires Core(st, sb, v, loose) && p in v.t.size && p in v.t.node && p.bit <= 31 && nb < WORD
    ensures p.bit >= 2
    ensures var k := Shr(nb, p.bit) % 2; var x := v.t.node[p];
      && Shl(nb, 31 - p.bit) / 0x8000_0000 % 2 == k
      && AtNode(v, Child(st.mem, x, k), Down(p, k)) && (Child(st.mem, x, k) != 0 <==> Down(p, k) in v.t.size)
      && AtNode(v, Child(st.mem, x, 1), Down(p, 1)) && (Child(st.mem, x, 1) != 0 <==> Down(p, 1) in v.t.size)
      && (Child(st.mem, x, 1) != 0 && Child(st.mem, x, 1) != Child(st.mem, x, k) <==> k == 0 && Down(p, 1) in v.t.size)
  {
    hide SmallReady, Tagged, Chains, TreeWords, Marked;
    ReadNode(st, sb, v, loose, p);
    KeyBit(nb, 31 - p.bit);
    assert Down(p, 0) in v.t.size.Keys <==> Down(p, 0) in v.t.size;
    assert Down(p, 1) in v.t.size.Keys <==> Down(p, 1) in v.t.size;
    assert Down(p, 0) in v.t.node ==> PlacedAt(v.t.node, Down(p, 0));
    assert Down(p, 1) in v.t.node ==> PlacedAt(v.t.node, Down(p, 1));
    if Down(p, 0) in v.t.node && Down(p, 1) in v.t.node { assert SpreadAt(v.t.node, Down(p, 0), Down(p, 1)); }
  }

  lemma SmallerIndex(v: View, p: Pos)
    requires TrieOK(v.t) && p in v.t.size
    ensures TreeIndex(v.t.size[p]) == p.bin && RootBit(p.bin) <= 31 && p.bit <= 31
  {
    assert KeyAt(v.t, p);
    IndexBound(v.t.size[p]);
  }

  /** The first half of tmalloc_large: follow nb's bits through its own tree. */
  method SearchOwnBin(m: MallocState, nb: nat, ghost loose: set<nat>) returns (c: nat, rsize: nat, t: nat, ghost p: Pos)
    requires m.Holds(loose) && TreeSize(nb)
    ensures Candidate(m.view, nb, c, rsize) && AtNode(m.view, t, p)
    ensures t != 0 || c != 0 ==> AllAhead(m.view, t, p, rsize + nb, nb) && NoneBelow(m.view, t, p, nb, rsize)
    ensures t == 0 && c == 0 ==> forall s {:trigger s in m.view.t.pos} :: s in m.view.t.pos && nb <= s ==>
      TreeIndex(nb) < TreeIndex(s)
  {
    hide Core, AllTracked, AllAhead, NoneBelow, TrieOK, Untaken, Marked, Shr, RootPrefix;
    CoreTrie(m.St(), m.sb, m.view, loose);
    IndexBound(nb);
    var idx := TreeIndex(nb);
    ReadRoot(m.St(), m.sb, m.view, loose, idx);
    c, rsize := 0, WORD - nb;
    t, p := m.treebins[idx], Root(idx);
    ghost var rs := p;
    if t == 0 {
      NothingHere(m.view, nb);
      return;
    }
    var sizebits := Shl(nb, 31 - RootBit(idx));
    var rst := 0;
    TrackStart(m.view, nb, rsize + nb);
    while true
      invariant t != 0 && AtNode(m.view, t, p) && p == PathPos(nb, p.bit) && sizebits == Shl(nb, 31 - p.bit)
      invariant p.bit <= 31
      invariant Candidate(m.view, nb, c, rsize) && (c != 0 ==> TreeIndex(rsize + nb) == idx)
      invariant AtNode(m.view, rst, rs) && (rst != 0 ==> Untaken(m.view, p, rs, nb))
      invariant AllTracked(m.view, true, p, rst != 0, rs, rsize + nb, nb)
      decreases p.bit
    {
      Visit(m.St(), m.sb, m.view, loose, p, nb, c, rsize);
      SmallerIndex(m.view, p);
      ghost var rsize0 := rsize;
      var trem := Minus32(ChunkSize(m.mem, t), nb);
      if trem < rsize {
        c := t;
        rsize := trem;
        if rsize == 0 {
          ExactFit(m.view, t, p, nb);
          return;
        }
      }
      ReadLevel(m.St(), m.sb, m.view, loose, nb, p);
      AllTrackNext(m.view, nb, p, rst != 0, rs, rsize0 + nb, rsize + nb);
      var rt := Child(m.mem, t, 1);
      t := Child(m.mem, t, sizebits / 0x8000_0000 % 2);
      if rt != 0 && rt != t {
        rst := rt;
        rs := Down(p, 1);
      }
      p := Down(p, Shr(nb, p.bit) % 2);
      if t == 0 {
        t := rst;
        TrackEnd(m.view, nb, c, rsize, rst, p, rs);
        p := rs;
        return;
      }
      sizebits := sizebits * 2 % WORD;
    }
  }

  lemma ExactFit(v: View, t: nat, p: Pos, nb: nat)
    ensures AllAhead(v, t, p, nb, nb) && NoneBelow(v, t, p, nb, 0)
  {
    forall s | s in v.t.pos && nb <= s ensures Ahead(v, t, p, nb, s) { }
  }

  lemma NothingHere(v: View, nb: nat)
    requires TrieOK(v.t) && TreeSize(nb) && Root(TreeIndex(nb)) !in v.t.size
    ensures forall s {:trigger s in v.t.pos} :: s in v.t.pos && nb <= s ==> TreeIndex(nb) < TreeIndex(s)
  {
    forall s | s in v.t.pos && nb <= s ensures TreeIndex(nb) < TreeIndex(s) {
      IndexMonotone(nb, s);
      BelowRoot(v.t, s);
    }
  }

  /** The lowest marked tree bin above nb's holds the best fit when nb's own bin offers none. */
  lemma NextBinAhead(st: Store, sb: nat, v: View, loose: set<nat>, nb: nat, bits: bv32, low: nat)
    requires Core(st, sb, v, loose) && 0 < nb < WORD && low <= 32
    requires forall i: nat {:trigger Marked(bits, i)} :: i < 32 ==>
      (Marked(bits, i) <==> low <= i && Marked(st.treemap, i))
    requires forall s {:trigger s in v.t.pos} :: s in v.t.pos && nb <= s ==> low <= TreeIndex(s)
    requires forall s {:trigger s in v.t.pos} :: s in v.t.pos && low <= TreeIndex(s) ==> nb <= s
    ensures bits == 0 ==> AllAhead(v, 0, Root(0), WORD, nb)
    ensures bits != 0 ==> var i := Ctz(LeastBit(bits));
      && i < 32 && i < |st.roots| && st.roots[i] != 0 && AtNode(v, st.roots[i], Root(i))
      && AllAhead(v, st.roots[i], Root(i), WORD, nb) && NoneBelow(v, st.roots[i], Root(i), nb, WORD - nb)
  {
    hide Marked, Core, LeastBit, Ctz, TrieOK;
    CoreTrie(st, sb, v, loose);
    var i := Ctz(LeastBit(bits));
    if bits != 0 {
      LowestBin(bits, 0);
      ReadRoot(st, sb, v, loose, i);
    }
    forall s | s in v.t.pos && nb <= s
      ensures bits == 0 ==> Ahead(v, 0, Root(0), WORD, s)
      ensures bits != 0 ==> Ahead(v, st.roots[i], Root(i), WORD, s)
    {
      BelowRoot(v.t, s);
      IndexBound(s);
      ReadRoot(st, sb, v, loose, TreeIndex(s));
      assert Marked(bits, TreeIndex(s));
      NonZero(bits, TreeIndex(s));
      LowestBin(bits, TreeIndex(s));
      SmallerIndex(v, Root(i));
      if TreeIndex(s) != i && s <= v.t.size[Root(i)] { IndexMonotone(s, v.t.size[Root(i)]); }
    }
    if bits != 0 {
      forall s | Located(v.t, Root(i), s) ensures nb <= s { LocatedPath(v.t, Root(i), s); }
    }
  }

  /** c is the oldest chunk of the smallest binned large size that is at least nb; 0 if there is none. */
  ghost predicate BestFit(v: View, nb: nat, c: nat, rsize: nat) {
    && (c == 0 ==> forall s {:trigger s in v.lists} :: s in v.lists && s >= MIN_TREE_SIZE ==> s < nb)
    && (c != 0 ==>
          && rsize + nb in v.lists && |v.lists[rsize + nb]| > 0 && c == v.lists[rsize + nb][0]
          && rsize + nb >= MIN_TREE_SIZE
          && forall s {:trigger s in v.lists} :: s in v.lists && s >= MIN_TREE_SIZE && nb <= s ==> rsize + nb <= s)
  }

  lemma CandidateIsBest(st: Store, sb: nat, v: View, loose: set<nat>, nb: nat, c: nat, rsize: nat)
    requires Core(st, sb, v, loose) && Candidate(v, nb, c, rsize)
    requires forall s {:trigger s in v.t.pos} :: s in v.t.pos && nb <= s ==> rsize + nb <= s
    ensures BestFit(v, nb, c, rsize)
  {
    hide SmallReady, Tagged, Chains, TreeWords, Marked;
    forall s | s in v.lists && s >= MIN_TREE_SIZE ensures s in v.t.pos && s < WORD {
      assert LargeAt(v.lists, v.t, s);
      assert SizeAt(v.t, s) && KeyAt(v.t, v.t.pos[s]);
    }
    if c != 0 {
      MatchesPos(v.lists, v.t, rsize + nb);
      assert LargeAt(v.lists, v.t, rsize + nb);
    }
  }

  lemma AboveBin(v: View, nb: nat)
    requires TrieOK(v.t) && TreeSize(nb)
    ensures forall s {:trigger s in v.t.pos} :: s in v.t.pos && TreeIndex(nb) + 1 <= TreeIndex(s) ==> nb <= s
  {
    forall s | s in v.t.pos && TreeIndex(nb) + 1 <= TreeIndex(s) ensures nb <= s {
      if s < nb { IndexMonotone(s, nb); }
    }
  }

  lemma LeftBins(treemap: bv32, idx: nat)
    requires idx < 32
    ensures forall i: nat {:trigger Marked(And(LeftBits(Bit(idx)), treemap), i)} :: i < 32 ==>
      (Marked(And(LeftBits(Bit(idx)), treemap), i) <==> idx + 1 <= i && Marked(treemap, i))
  {
    hide Marked, And, LeftBits, Bit;
    forall i: nat | i < 32
      ensures Marked(And(LeftBits(Bit(idx)), treemap), i) <==> idx + 1 <= i && Marked(treemap, i)
    {
      BinsLeftOf(treemap, idx, i);
    }
  }

  /** The search of tmalloc_large: nb's own tree, else the next marked one, then a leftmost walk. */
  method FindBestFit(m: MallocState, nb: nat, ghost loose: set<nat>) returns (c: nat, rsize: nat)
    requires m.Holds(loose) && TreeSize(nb)
    ensures Candidate(m.view, nb, c, rsize) && BestFit(m.view, nb, c, rsize)
  {
    hide Core, Candidate, AllAhead, NoneBelow, Marked, And, LeftBits, LeastBit, Ctz, Bit, TrieOK, BestFit;
    var t;
    ghost var p;
    c, rsize, t, p := SearchOwnBin(m, nb, loose);
    if t == 0 && c == 0 {
      IndexBound(nb);
      var idx := TreeIndex(nb);
      var leftbits := And(LeftBits(Bit(idx)), m.treemap);
      CoreTrie(m.St(), m.sb, m.view, loose);
      AboveBin(m.view, nb);
      LeftBins(m.treemap, idx);
      NextBinAhead(m.St(), m.sb, m.view, loose, nb, leftbits, idx + 1);
      CandidateNone(m.view, nb, rsize);
      if leftbits != 0 {
        var i := Ctz(LeastBit(leftbits));
        t := m.treebins[i];
        p := Root(i);
      } else {
        p := Root(0);
        NoneBelowNull(m.view, p, nb, rsize);
      }
    }
    c, rsize := WalkLeftmost(m, t, c, rsize, nb, loose, p);
    CandidateIsBest(m.St(), m.sb, m.view, loose, nb, c, rsize);
  }

  lemma CandidateNone(v: View, nb: nat, rsize: nat)
    requires Candidate(v, nb, 0, rsize)
    ensures rsize == WORD - nb && 0 < nb < WORD
  {
  }

  lemma NoneBelowNull(v: View, p: Pos, nb: nat, rsize: nat)
    ensures NoneBelow(v, 0, p, nb, rsize) && AtNode(v, 0, p)
  {
  }

  /** The search of tmalloc_small: the leftmost walk of the lowest marked tree. */
  method FindSmallest(m: MallocState, nb: nat, ghost loose: set<nat>) returns (v: nat, rsize: nat)
    requires m.Holds(loose) && 0 < nb < MIN_TREE_SIZE && m.treemap != 0
    ensures v != 0 && Candidate(m.view, nb, v, rsize) && BestFit(m.view, nb, v, rsize)
  {
    hide Core, AllAhead, NoneBelow, Marked, LeastBit, Ctz, TrieOK, BestFit;
    CoreTrie(m.St(), m.sb, m.view, loose);
    SmallestStart(m.St(), m.sb, m.view, loose, nb);
    var leastbit := LeastBit(m.treemap);
    var i := Ctz(leastbit);
    var t := m.treebins[i];
    ghost var p := Root(i);
    v := t;
    Visit(m.St(), m.sb, m.view, loose, p, nb, 0, WORD - nb);
    rsize := ChunkSize(m.mem, t) - nb;
    p := StepLeft(m.St(), m.sb, m.view, loose, p, nb, WORD - nb, rsize);
    t := LeftmostChild(m.mem, t);
    v, rsize := WalkLeftmost(m, t, v, rsize, nb, loose, p);
    CandidateIsBest(m.St(), m.sb, m.view, loose, nb, v, rsize);
  }

  lemma AllLarger(v: View, nb: nat)
    requires TrieOK(v.t) && nb < MIN_TREE_SIZE
    ensures forall s {:trigger s in v.t.pos} :: s in v.t.pos ==> nb < s
  {
    forall s | s in v.t.pos ensures nb < s { assert SizeAt(v.t, s) && KeyAt(v.t, v.t.pos[s]); }
  }

  lemma SmallestStart(st: Store, sb: nat, v: View, loose: set<nat>, nb: nat)
    requires Core(st, sb, v, loose) && 0 < nb < MIN_TREE_SIZE && st.treemap != 0
    ensures var i := Ctz(LeastBit(st.treemap));
      && i < 32 && i < |st.roots| && st.roots[i] != 0 && AtNode(v, st.roots[i], Root(i))
      && nb < v.t.size[Root(i)] < WORD
      && AllAhead(v, st.roots[i], Root(i), WORD, nb) && NoneBelow(v, st.roots[i], Root(i), nb, WORD - nb)
  {
    hide Core, Marked, LeastBit, Ctz, AllAhead, NoneBelow, TrieOK;
    CoreTrie(st, sb, v, loose);
    AllLarger(v, nb);
    NextBinAhead(st, sb, v, loose, nb, st.treemap, 0);
    LocatedSelf(v.t, Root(Ctz(LeastBit(st.treemap))));
    LocatedPath(v.t, Root(Ctz(LeastBit(st.treemap))), v.t.size[Root(Ctz(LeastBit(st.treemap)))]);
  }
}
