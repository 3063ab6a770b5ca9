/** The DEBUG checks of the bins, and of malloc_state as a whole, pass in every state that satisfies the invariant. */
module BinChecks {
  import opened Memory
  import opened Layouts
  import opened Tags
  import opened Rings
  import opened Bins
  import opened BinMaps
  import opened SmallBins
  import opened TreeIndices
  import opened Positions
  import opened Tries
  import opened TreeBins
  import opened Heaps
  import opened HeapBins
  import opened MallocStates
  import opened Searching
  import opened Growing
  import opened Morecores
  import opened Machines
  import opened SysAllocs
  import opened BinFinds
  import opened Checks

  // do_check_smallbin

  lemma SmallMember(st: Store, sb: nat, v: View, loose: set<nat>, s: nat, k: nat)
    requires Core(st, sb, v, loose) && s in v.lists && s < MIN_LARGE_SIZE && k < |SmallRing(sb, v.lists, s)|
    ensures var r := SmallRing(sb, v.lists, s); Bk(st.mem, r[k]) == (if k + 1 == |r| then sb + s else r[k + 1])
    ensures k > 0 ==> var p := SmallRing(sb, v.lists, s)[k];
      && p in v.l.chunks && !v.l.chunks[p].inuse && v.l.chunks[p].size == s && p !in loose && p >= v.l.first
      && s % 8 == 0
      && p + s in v.l.chunks && v.l.chunks[p + s].inuse && ChunkSize(st.mem, p) == s
    ensures sb + s < v.l.first && |SmallRing(sb, v.lists, s)| > 1
  {
    hide TreeReady, Marked;
    var r := SmallRing(sb, v.lists, s);
    assert SmallAt(st.mem, sb, v.lists, s) && RingAt(st.mem, r, k);
    if k > 0 {
      MemberFits(v.l, v.lists, loose, s, k - 1);
      assert LinkedAt(v.l, r[k]);
      ReadHead(st.mem, v.l, r[k]);
    }
  }

  /** What do_check_smallbin asserts of a chunk p in bin i. */
  predicate SmallBinMember(m: MallocState, i: nat, p: nat)
    reads m
  {
    var size := ChunkSize(m.mem, p);
    && FreeChunk(m, p) && SmallIndex(size) == i
    && (Bk(m.mem, p) == m.sb + 8 * i || ChunkSize(m.mem, Bk(m.mem, p)) == size)
    && InuseChunk(m, p + size)
  }

  lemma SmallBinPasses(m: MallocState, i: nat, k: nat)
    requires m.Settled() && i < NSMALLBINS && 8 * i in m.view.lists && 0 < k < |SmallRing(m.sb, m.view.lists, 8 * i)|
    ensures var r := SmallRing(m.sb, m.view.lists, 8 * i);
      && SmallBinMember(m, i, r[k]) && r[k] != m.sb + 8 * i
      && Bk(m.mem, r[k]) == if k + 1 == |r| then m.sb + 8 * i else r[k + 1]
  {
    hide Core, InuseChunk, FreeChunk, m.TopAndDv, SmallRing;
    var r := SmallRing(m.sb, m.view.lists, 8 * i);
    SmallMember(m.St(), m.sb, m.view, m.Resting(), 8 * i, k);
    if k + 1 < |r| { SmallMember(m.St(), m.sb, m.view, m.Resting(), 8 * i, k + 1); }
    NotTopChunk(m, r[k]);
    FreePasses(m, r[k]);
    InusePasses(m, r[k] + 8 * i);
  }

  /** do_check_smallbin: every check passes, and the walk meets each chunk of the bin, oldest first. */
  method CheckSmallBin(m: MallocState, core: LinearMemory, i: nat) returns (seen: seq<nat>)
    requires Valid(m, core) && i < NSMALLBINS
    ensures seen == if 8 * i in m.view.lists then m.view.lists[8 * i] else []
  {
    hide Core, Marked, SmallBinMember, m.TopAndDv, m.Placed;
    seen := [];
    var b := m.sb + 8 * i;
    var p := Bk(m.mem, b);
    var empty := !Marked(m.smallmap, i);
    if m.top == 0 {
      ZeroMap(i);
      return;
    }
    SmallMarked(m.St(), m.sb, m.view, m.Resting(), 8 * i);
    if !empty {
      ghost var r := SmallRing(m.sb, m.view.lists, 8 * i);
      SmallMember(m.St(), m.sb, m.view, m.Resting(), 8 * i, 0);
      SmallBinPasses(m, i, 1);
      assert p != b;
      while p != b
        invariant |seen| < |r| && seen == r[1..][..|seen|] && p == if |seen| + 1 == |r| then b else r[|seen| + 1]
        invariant |seen| + 1 < |r| ==> p != b
        decreases |r| - |seen|
      {
        ghost var k := |seen| + 1;
        SmallBinPasses(m, i, k);
        if k + 1 < |r| { SmallBinPasses(m, i, k + 1); }
        assert SmallBinMember(m, i, p);
        seen := seen + [p];
        p := Bk(m.mem, p);
      }
      assert seen == r[1..];
    }
  }

  lemma NotTopChunk(m: MallocState, p: nat)
    requires m.Settled() && p !in m.Resting()
    ensures p != m.top
  {
    hide Core;
  }

  // do_check_tree

  /** What do_check_tree asserts of a tree node, its parent and its children. */
  ghost predicate TreeNode(st: Store, sb: nat, x: nat) {
    var size, index, parent := ChunkSize(st.mem, x), Index(st.mem, x), Parent(st.mem, x);
    var left, right := Child(st.mem, x, 0), Child(st.mem, x, 1);
    && index == TreeIndex(size) < NTREEBINS && size >= MIN_LARGE_SIZE && size >= MinSize(index)
    && (index == NTREEBINS - 1 || size < MinSize(index + 1))
    && parent != 0 && parent != x && |st.roots| == NTREEBINS
    && (Child(st.mem, parent, 0) == x || Child(st.mem, parent, 1) == x
         || (parent == TreeRef(sb, index) && st.roots[index] == x))
    && (left != 0 ==> Parent(st.mem, left) == x && left != x)
    && (right != 0 ==> Parent(st.mem, right) == x && right != x)
    && (left != 0 && right != 0 ==> ChunkSize(st.mem, left) < ChunkSize(st.mem, right))
  }

  lemma NodeWords(st: Store, sb: nat, v: View, loose: set<nat>, p: Pos)
    requires Core(st, sb, v, loose) && p in v.t.node
    ensures p.bin < NTREEBINS && 2 <= p.bit <= RootBit(p.bin) && |st.roots| == NTREEBINS && p in v.t.size
    ensures v.t.node[p] > 0
    ensures var x := v.t.node[p];
      && ChunkSize(st.mem, x) == v.t.size[p] && Index(st.mem, x) == p.bin == TreeIndex(v.t.size[p])
      && Parent(st.mem, x) == ParentRef(sb, v.t.node, p)
      && Child(st.mem, x, 0) == Get(v.t.node, Down(p, 0)) && Child(st.mem, x, 1) == Get(v.t.node, Down(p, 1))
    ensures TreeSize(v.t.size[p]) && p == PathPos(v.t.size[p], p.bit) && (p.bit < RootBit(p.bin) ==> Up(p) in v.t.node)
    ensures p.bit == RootBit(p.bin) ==> st.roots[p.bin] == v.t.node[p]
  {
    ReadNode(st, sb, v, loose, p);
    NodeTag(st, sb, v, loose, p);
    hide SmallReady, Tagged, Binned, Marked;
    assert KeyAt(v.t, p) && ResidentAt(v.lists, v.t, p) && NodeAt(st.mem, sb, v.t.node, p) && PlacedAt(v.t.node, p);
    assert ChainAt(st.mem, v.lists, v.t.size[p], 0) && RootAt(st.roots, v.t.node, p.bin);
  }

  lemma NodeTag(st: Store, sb: nat, v: View, loose: set<nat>, p: Pos)
    requires Core(st, sb, v, loose) && p in v.t.node && p in v.t.size && v.t.size[p] in v.lists
    requires |v.lists[v.t.size[p]]| > 0
    requires v.t.node[p] == v.lists[v.t.size[p]][0]
    ensures ChunkSize(st.mem, v.t.node[p]) == v.t.size[p]
  {
    hide SmallReady, TreeReady;
    MemberFits(v.l, v.lists, loose, v.t.size[p], 0);
    ReadHead(st.mem, v.l, v.t.node[p]);
  }

  lemma DistinctNodes(st: Store, sb: nat, v: View, loose: set<nat>, p: Pos, q: Pos)
    requires Core(st, sb, v, loose) && p in v.t.node && q in v.t.node && p != q
    ensures v.t.node[p] != v.t.node[q]
  {
    ReadNode(st, sb, v, loose, p);
    hide Core;
    assert SpreadAt(v.t.node, p, q);
  }

  lemma SiblingsOrdered(s0: nat, s1: nat, b: nat, prefix: nat)
    requires Shr(s0, b) == 2 * prefix && Shr(s1, b) == 2 * prefix + 1
    ensures s0 < s1
  {
    if s1 <= s0 { ShrMonotone(s1, s0, b); }
  }

  /** Every node of every tree passes: the right bin, the right links both ways, left sizes below right sizes. */
  lemma TreeNodePasses(st: Store, sb: nat, v: View, loose: set<nat>, p: Pos)
    requires Core(st, sb, v, loose) && p in v.t.node && sb + MALLOC_STATE_BINS <= v.l.first
    ensures TreeNode(st, sb, v.t.node[p])
  {
    hide Core, Shr, MinSize, RootBit, TreeIndex;
    NodeWords(st, sb, v, loose, p);
    var x, size := v.t.node[p], v.t.size[p];
    IndexRange(size, p.bin);
    if p.bit < RootBit(p.bin) {
      NodeWords(st, sb, v, loose, Up(p));
      DistinctNodes(st, sb, v, loose, p, Up(p));
    } else {
      RootNotChild(st, sb, v, loose, p);
    }
    if Down(p, 0) in v.t.node {
      NodeWords(st, sb, v, loose, Down(p, 0));
      DistinctNodes(st, sb, v, loose, p, Down(p, 0));
    }
    if Down(p, 1) in v.t.node {
      NodeWords(st, sb, v, loose, Down(p, 1));
      DistinctNodes(st, sb, v, loose, p, Down(p, 1));
    }
    if Down(p, 0) in v.t.node && Down(p, 1) in v.t.node {
      SiblingsOrdered(v.t.size[Down(p, 0)], v.t.size[Down(p, 1)], p.bit, p.prefix);
    }
  }

  lemma RootNotChild(st: Store, sb: nat, v: View, loose: set<nat>, p: Pos)
    requires Core(st, sb, v, loose) && p in v.t.node && p.bin < NTREEBINS && sb + MALLOC_STATE_BINS <= v.l.first
    ensures TreeRef(sb, p.bin) != v.t.node[p]
  {
    hide SmallReady, Tagged;
    NodeChunk(v.l, v.lists, loose, sb, v.t, p);
    assert FitsAt(v.l, v.t.node[p]);
  }

  /** What do_check_tree asserts of each chunk on the chain of a node. */
  predicate ChainMember(m: MallocState, u: nat, tindex: nat, tsize: nat)
    reads m
  {
    && AnyChunk(m, u) && Index(m.mem, u) == tindex && ChunkSize(m.mem, u) == tsize
    && !Cinuse(m.mem, u) && !Pinuse(m.mem, u + tsize)
    && Bk(m.mem, Fd(m.mem, u)) == u && Fd(m.mem, Bk(m.mem, u)) == u
    && (Parent(m.mem, u) == 0 ==> Child(m.mem, u, 0) == 0 && Child(m.mem, u, 1) == 0)
  }

  lemma ChainPasses(m: MallocState, s: nat, k: nat)
    requires m.Settled() && s in m.view.lists && s >= MIN_TREE_SIZE && k < |m.view.lists[s]|
    ensures ChainMember(m, m.view.lists[s][k], TreeIndex(s), s)
    ensures Parent(m.mem, m.view.lists[s][k]) != 0 <==> k == 0
    ensures Fd(m.mem, m.view.lists[s][k]) == Before(m.view.lists[s], k)
  {
    hide Core, TreeIndex;
    ChainWords(m.St(), m.sb, m.view, m.Resting(), s, k);
    var u := m.view.lists[s][k];
    FreeWords(m.St(), m.sb, m.view, m.Resting(), u);
    ListedLinks(m.St(), m.sb, m.view, m.Resting(), u);
    ReadMember(m.St(), m.sb, m.view, m.Resting(), u, k);
  }

  lemma ChainWords(st: Store, sb: nat, v: View, loose: set<nat>, s: nat, k: nat)
    requires Core(st, sb, v, loose) && s in v.lists && s >= MIN_TREE_SIZE && k < |v.lists[s]|
    ensures var u := v.lists[s][k];
      && u in v.l.chunks && !v.l.chunks[u].inuse && v.l.chunks[u].size == s && u !in loose && Next(v.l, u) != v.l.end
      && Index(st.mem, u) == TreeIndex(s) && ListedAs(v, u, k) && Fd(st.mem, u) == Before(v.lists[s], k)
      && (k > 0 ==> Child(st.mem, u, 0) == 0 && Child(st.mem, u, 1) == 0)
  {
    hide SmallReady, Tagged, Marked, TreeWords;
    MemberFits(v.l, v.lists, loose, s, k);
    assert ChainAt(st.mem, v.lists, s, k) && LargeRingAt(st.mem, v.lists, s) && RingAt(st.mem, v.lists[s], k);
  }

  /** The loop over the chain of same-sized chunks: every check passes, the walk meets each of them, and the tree
      node is the only one with a parent. */
  method CheckChain(m: MallocState, core: LinearMemory, t: nat, ghost p: Pos) returns (head: nat, count: nat)
    requires Valid(m, core) && m.top != 0 && p in m.view.t.node && t == m.view.t.node[p]
    ensures head == t && p in m.view.t.size && m.view.t.size[p] in m.view.lists
    ensures count == |m.view.lists[m.view.t.size[p]]|
  {
    hide Core, ChainMember, TreeIndex, m.TopAndDv, Distinct;
    NodeWords(m.St(), m.sb, m.view, m.Resting(), p);
    ReadNode(m.St(), m.sb, m.view, m.Resting(), p);
    ghost var s := m.view.t.size[p];
    ghost var r := m.view.lists[s];
    assert t > 0;
    LargeRingFacts(m.St(), m.sb, m.view, m.Resting(), s);
    var tindex, tsize := Index(m.mem, t), ChunkSize(m.mem, t);
    var u := t;
    head, count := 0, 0;
    ghost var j := |r|;
    while true
      invariant 0 < j <= |r| && count == |r| - j && u == r[if j == |r| then 0 else j]
      invariant head == if j == |r| then 0 else t
      decreases j
    {
      ghost var k := if j == |r| then 0 else j;
      ChainPasses(m, s, k);
      assert ChainMember(m, u, tindex, tsize);
      if Parent(m.mem, u) != 0 {
        assert head == 0 && Parent(m.mem, u) != u by { OwnParent(m, core, p); }
        head := u;
      }
      u := Fd(m.mem, u);
      count := count + 1;
      j := j - 1;
      if u == t {
        assert j == 0 by { FirstOnly(r, j); }
        break;
      }
    }
    assert head != 0;
  }

  lemma FirstOnly(r: seq<nat>, j: nat)
    requires Distinct(r) && j < |r| && r[j] == r[0]
    ensures j == 0
  {
  }

  lemma OwnParent(m: MallocState, core: LinearMemory, p: Pos)
    requires Valid(m, core) && m.top != 0 && p in m.view.t.node
    ensures Parent(m.mem, m.view.t.node[p]) != m.view.t.node[p]
  {
    hide Core;
    TreesPass(m, core, p);
  }

  /** do_check_tree's checks of a node pass at every node in every reachable state. */
  lemma TreesPass(m: MallocState, core: LinearMemory, p: Pos)
    requires Valid(m, core) && m.top != 0 && p in m.view.t.node
    ensures TreeNode(m.St(), m.sb, m.view.t.node[p])
  {
    hide Core;
    TreeNodePasses(m.St(), m.sb, m.view, m.Resting(), p);
  }

  lemma UnderUp(p: Pos, q: Pos, k: nat)
    requires p.bit > 0 && k < 2 && Under(Down(p, k), q)
    ensures Under(p, q)
  {
    ShrNext(q.prefix, p.bit - 1 - q.bit);
  }

  /** The nodes at or below p are p and those at or below its occupied children. */
  lemma UnderSplit(st: Store, sb: nat, v: View, loose: set<nat>, p: Pos, q: Pos)
    requires Core(st, sb, v, loose) && p in v.t.node && q in v.t.node && p.bit > 0
    ensures Under(p, q) <==>
      (p == q || (Down(p, 0) in v.t.node && Under(Down(p, 0), q)) || (Down(p, 1) in v.t.node && Under(Down(p, 1), q)))
  {
    hide SmallReady, Tagged, Marked, TreeWords, Chains, Under, Shr, TreeIndex, RootBit, LargeAt, ResidentAt;
    if Under(p, q) && p != q {
      assert KeyAt(v.t, q) && KeyAt(v.t, p);
      LocatedBelow(v.t, p, v.t.size[q]);
    }
    if Under(Down(p, 0), q) { UnderUp(p, q, 0); }
    if Under(Down(p, 1), q) { UnderUp(p, q, 1); }
    UnderSelf(p);
  }

  lemma UnderSelf(p: Pos)
    ensures Under(p, p)
  {
    assert Shr(p.prefix, 0) == p.prefix;
  }

  /** do_check_tree: every check passes, and the recursion meets each node at or below p. */
  method CheckTree(m: MallocState, core: LinearMemory, t: nat, ghost p: Pos) returns (ghost seen: set<Pos>)
    requires Valid(m, core) && m.top != 0 && p in m.view.t.node && t == m.view.t.node[p]
    ensures forall q :: q in seen <==> q in m.view.t.node && Under(p, q)
    decreases p.bit
  {
    hide Core, ChainMember, TreeNode, m.TopAndDv, Under;
    TreesPass(m, core, p);
    assert TreeNode(m.St(), m.sb, t);
    NodeWords(m.St(), m.sb, m.view, m.Resting(), p);
    var head, count := CheckChain(m, core, t, p);
    var left, right := Child(m.mem, head, 0), Child(m.mem, head, 1);
    seen := {p};
    ghost var below;
    if left != 0 {
      below := CheckTree(m, core, left, Down(p, 0));
      seen := seen + below;
    }
    if right != 0 {
      below := CheckTree(m, core, right, Down(p, 1));
      seen := seen + below;
    }
    assert left != 0 <==> Down(p, 0) in m.view.t.node by { ChildThere(m, core, p, 0); }
    assert right != 0 <==> Down(p, 1) in m.view.t.node by { ChildThere(m, core, p, 1); }
    forall q | q in m.view.t.node ensures q in seen <==> Under(p, q) {
      UnderSplit(m.St(), m.sb, m.view, m.Resting(), p, q);
    }
  }

  lemma ChildThere(m: MallocState, core: LinearMemory, p: Pos, k: nat)
    requires Valid(m, core) && m.top != 0 && p in m.view.t.node && p.bit > 0
    ensures Get(m.view.t.node, Down(p, k)) != 0 <==> Down(p, k) in m.view.t.node
  {
    hide Core;
    if Down(p, k) in m.view.t.node { NodeWords(m.St(), m.sb, m.view, m.Resting(), Down(p, k)); }
  }

  lemma InRootTree(st: Store, sb: nat, v: View, loose: set<nat>, q: Pos)
    requires Core(st, sb, v, loose) && q in v.t.node
    ensures q.bin < NTREEBINS && Root(q.bin) in v.t.node && Under(Root(q.bin), q)
  {
    hide SmallReady, Tagged, Marked, TreeWords, Chains;
    assert KeyAt(v.t, q);
    BelowRoot(v.t, v.t.size[q]);
    IndexBound(v.t.size[q]);
  }

  /** do_check_treebin: every check passes, and the walk meets each node of the bin. */
  method CheckTreeBin(m: MallocState, core: LinearMemory, i: nat) returns (ghost seen: set<Pos>)
    requires Valid(m, core) && i < NTREEBINS
    ensures m.top != 0 ==> forall q :: q in seen <==> q in m.view.t.node && q.bin == i
  {
    hide Core, Marked, m.TopAndDv, Under;
    var empty := !Marked(m.treemap, i);
    seen := {};
    if m.top == 0 {
      ZeroMap(i);
      assert |m.treebins| == NTREEBINS && m.treebins[i] == 0 && empty;
      return;
    }
    ReadRoot(m.St(), m.sb, m.view, m.Resting(), i);
    var t := m.treebins[i];
    assert t == 0 ==> empty;
    if !empty {
      seen := CheckTree(m, core, t, Root(i));
    }
    forall q | q in m.view.t.node ensures q in seen <==> q.bin == i {
      InRootTree(m.St(), m.sb, m.view, m.Resting(), q);
      assert Under(Root(i), q) ==> q.bin == i by { SameBin(Root(i), q); }
    }
  }

  lemma SameBin(p: Pos, q: Pos)
    ensures Under(p, q) ==> q.bin == p.bin
  {
  }

  /** do_check_malloc_state: all its checks pass in every reachable state. */
  method CheckMallocState(m: MallocState, core: LinearMemory) returns (total: nat)
    requires Valid(m, core)
    ensures total == if m.top == 0 then 0 else m.footprint - AlignOffset(m.segBase)
    ensures total <= m.footprint <= m.maxFootprint
  {
    hide Core, TopChunk, m.Holds;
    for i := 0 to NSMALLBINS {
      var chunks := CheckSmallBin(m, core, i);
    }
    for i := 0 to NTREEBINS {
      ghost var nodes := CheckTreeBin(m, core, i);
    }
    if m.dvsize != 0 {
      DvPasses(m);
      assert AnyChunk(m, m.dv) && m.dvsize == ChunkSize(m.mem, m.dv) && m.dvsize >= MIN_CHUNK_SIZE;
      var found := BinFind(m, m.dv);
      assert !found;
    }
    if m.top != 0 {
      TopPasses(m, core);
      assert TopChunk(m, m.top) && m.topsize > 0 by { TopSize(m); }
      var found := BinFind(m, m.top);
      assert !found;
    }
    total := TraverseAndCheck(m, core);
  }

  lemma DvPasses(m: MallocState)
    requires m.Settled() && m.dvsize != 0
    ensures AnyChunk(m, m.dv) && m.dvsize == ChunkSize(m.mem, m.dv) && m.dvsize >= MIN_CHUNK_SIZE
  {
    hide Core;
    FreeWords(m.St(), m.sb, m.view, m.Resting(), m.dv);
    TopSize(m);
  }
}
