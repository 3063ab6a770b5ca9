/** The 32 tree bins in memory: tries of resident chunks, each heading a ring of chunks of its size. */
module TreeBins {
  import opened Memory
  import opened Layouts
  import opened Rings
  import opened Payloads
  import opened Bins
  import opened BinMaps
  import opened SmallBins
  import opened TreeIndices
  import opened Positions
  import opened Tries

  ghost predicate ResidentAt(lists: Lists, t: Trie, p: Pos)
    requires p in t.size && p in t.node
  {
    t.size[p] in lists && |lists[t.size[p]]| > 0 && t.node[p] == lists[t.size[p]][0]
  }

  ghost predicate LargeAt(lists: Lists, t: Trie, s: nat) {
    s in t.pos <==> s in lists && s >= MIN_TREE_SIZE
  }

  /** The trie holds exactly the large listed sizes, each represented by the oldest chunk of its list. */
  ghost predicate Matches(lists: Lists, t: Trie) {
    && TrieOK(t)
    && (forall p {:trigger ResidentAt(lists, t, p)} :: p in t.size ==> ResidentAt(lists, t, p))
    && (forall s {:trigger LargeAt(lists, t, s)} :: LargeAt(lists, t, s))
  }

  /** Every chunk of a large list knows its bin; those waiting behind the first have no tree links. */
  ghost predicate ChainAt(m: Mem, lists: Lists, s: nat, k: nat)
    requires s in lists && k < |lists[s]|
  {
    s >= MIN_TREE_SIZE ==>
      && Index(m, lists[s][k]) == TreeIndex(s)
      && (k > 0 ==> Parent(m, lists[s][k]) == 0 && Child(m, lists[s][k], 0) == 0 && Child(m, lists[s][k], 1) == 0)
  }

  ghost predicate LargeRingAt(m: Mem, lists: Lists, s: nat)
    requires s in lists
  {
    s >= MIN_TREE_SIZE ==> Ring(m, lists[s])
  }

  ghost predicate TreemapAt(treemap: bv32, t: Trie, i: nat)
    requires i < 32
  {
    Marked(treemap, i) <==> Root(i) in t.size
  }

  ghost predicate Chains(m: Mem, lists: Lists) {
    && (forall s {:trigger LargeRingAt(m, lists, s)} :: s in lists ==> LargeRingAt(m, lists, s))
    && (forall s, k: nat {:trigger ChainAt(m, lists, s, k)} :: s in lists && k < |lists[s]| ==> ChainAt(m, lists, s, k))
  }

  ghost predicate TreeReady(m: Mem, treemap: bv32, roots: seq<nat>, sb: nat, lists: Lists, t: Trie) {
    && Matches(lists, t)
    && TreeWords(m, roots, sb, t.node)
    && Chains(m, lists)
    && (forall i: nat {:trigger TreemapAt(treemap, t, i)} :: i < 32 ==> TreemapAt(treemap, t, i))
  }

  /** Two free chunks of at least 256 bytes are far enough apart for their tree fields. */
  lemma LargeApart(l: Layout, x: nat, y: nat)
    requires Tiled(l) && x in l.chunks && y in l.chunks && x != y
    requires l.chunks[x].size >= MIN_TREE_SIZE && l.chunks[y].size >= MIN_TREE_SIZE
    ensures Apart32(x, y)
  {
    assert ApartAt(l, x, y) && ApartAt(l, y, x);
  }

  lemma NodeChunk(l: Layout, lists: Lists, loose: set<nat>, sb: nat, t: Trie, p: Pos)
    requires BinsReady(l, lists, loose, sb) && Matches(lists, t) && p in t.node
    ensures p in t.size && t.size[p] in lists && t.node[p] == lists[t.size[p]][0]
    ensures var x := t.node[p];
      x in l.chunks && !l.chunks[x].inuse && l.chunks[x].size == t.size[p] >= MIN_TREE_SIZE && x !in loose
        && x >= l.first
  {
    assert ResidentAt(lists, t, p) && KeyAt(t, p);
    MemberFits(l, lists, loose, t.size[p], 0);
  }

  lemma NodesShaped(l: Layout, lists: Lists, loose: set<nat>, sb: nat, t: Trie)
    requires BinsReady(l, lists, loose, sb) && Matches(lists, t)
    ensures Shaped(t.node)
  {
    forall p | p in t.node ensures PlacedAt(t.node, p) {
      NodeChunk(l, lists, loose, sb, t, p);
      assert KeyAt(t, p);
      PathRoot(t.size[p]);
    }
    forall p, q | p in t.node && q in t.node ensures SpreadAt(t.node, p, q) {
      NodeChunk(l, lists, loose, sb, t, p);
      NodeChunk(l, lists, loose, sb, t, q);
      assert KeyAt(t, p) && KeyAt(t, q);
      if p != q { LargeApart(l, t.node[p], t.node[q]); }
    }
  }

  lemma TreeWordsFrame(m: Mem, m': Mem, roots: seq<nat>, sb: nat, nodes: Nodes)
    requires TreeWords(m, roots, sb, nodes)
    requires forall p {:trigger nodes[p]} :: p in nodes ==> SameAt(m, m', nodes[p] + 16) && SameAt(m, m', nodes[p] + 24)
    ensures TreeWords(m', roots, sb, nodes)
  {
    forall p | p in nodes && p.bit > 0 ensures NodeAt(m', sb, nodes, p) {
      assert NodeAt(m, sb, nodes, p);
    }
  }

  // frames

  /** y is a child or parent granule of one of these chunks. */
  ghost predicate NodeWord(xs: set<nat>, y: nat) {
    (y >= 16 && y - 16 in xs) || (y >= 24 && y - 24 in xs)
  }

  /** Only child words, and parent words, of these chunks differ. */
  ghost predicate TreeWrites(m: Mem, m': Mem, xs: set<nat>) {
    && (forall y {:trigger SameAt(m, m', y)} :: !NodeWord(xs, y) ==> SameAt(m, m', y))
    && (forall y: nat {:trigger Hi(m', y)} :: !(y >= 16 && y - 16 in xs) ==> Hi(m', y) == Hi(m, y))
  }

  ghost predicate WaitsAt(lists: Lists, s: nat, k: nat, x: nat)
    requires s in lists && k < |lists[s]|
  {
    k > 0 ==> lists[s][k] != x
  }

  /** x is a large free chunk that no list holds behind its first element. */
  ghost predicate MayHoldNode(l: Layout, lists: Lists, x: nat) {
    && x in l.chunks && !l.chunks[x].inuse && l.chunks[x].size >= MIN_TREE_SIZE
    && (forall s, k: nat {:trigger WaitsAt(lists, s, k, x)} :: s in lists && k < |lists[s]| ==> WaitsAt(lists, s, k, x))
  }

  lemma NodeMayHold(l: Layout, lists: Lists, loose: set<nat>, s: nat)
    requires Binned(l, lists, loose) && s in lists && s >= MIN_TREE_SIZE
    ensures MayHoldNode(l, lists, lists[s][0])
  {
    assert MemberAt(l, lists, loose, s, 0);
    forall u, k: nat | u in lists && k < |lists[u]| ensures WaitsAt(lists, u, k, lists[s][0]) {
      assert MemberAt(l, lists, loose, u, k);
    }
  }

  lemma LooseMayHold(l: Layout, lists: Lists, loose: set<nat>, x: nat)
    requires Binned(l, lists, loose) && x in loose && x in l.chunks && l.chunks[x].size >= MIN_TREE_SIZE
    ensures MayHoldNode(l, lists, x)
  {
    assert LooseAt(l, x);
    forall u, k: nat | u in lists && k < |lists[u]| ensures WaitsAt(lists, u, k, x) {
      assert MemberAt(l, lists, loose, u, k);
    }
  }

  /** Rewiring tree nodes disturbs neither the rings nor the chunks waiting in them. */
  lemma ChainsTreeWrites(l: Layout, lists: Lists, loose: set<nat>, sb: nat, m: Mem, m': Mem, xs: set<nat>)
    requires BinsReady(l, lists, loose, sb) && Chains(m, lists) && TreeWrites(m, m', xs)
    requires forall x {:trigger MayHoldNode(l, lists, x)} :: x in xs ==> MayHoldNode(l, lists, x)
    ensures Chains(m', lists)
  {
    forall s | s in lists ensures LargeRingAt(m', lists, s) {
      assert LargeRingAt(m, lists, s);
      if s >= MIN_TREE_SIZE {
        forall k: nat | k < |lists[s]| ensures SameAt(m, m', lists[s][k] + 8) {
          NotNodeWord(l, lists, loose, xs, s, k);
        }
        RingFrame(m, m', lists[s]);
      }
    }
    forall s, k: nat | s in lists && k < |lists[s]| ensures ChainAt(m', lists, s, k) {
      assert ChainAt(m, lists, s, k);
      if s >= MIN_TREE_SIZE {
        var c := lists[s][k];
        NotNodeWord(l, lists, loose, xs, s, k);
        assert k > 0 ==> SameAt(m, m', c + 16) && SameAt(m, m', c + 24);
      }
    }
  }

  lemma NotNodeWord(l: Layout, lists: Lists, loose: set<nat>, xs: set<nat>, s: nat, k: nat)
    requires Tiled(l) && Binned(l, lists, loose) && s in lists && k < |lists[s]| && s >= MIN_TREE_SIZE
    requires forall x {:trigger MayHoldNode(l, lists, x)} :: x in xs ==> MayHoldNode(l, lists, x)
    ensures var c := lists[s][k];
      && !NodeWord(xs, c + 8) && c + 24 - 16 !in xs
      && (k > 0 ==> !NodeWord(xs, c + 16) && !NodeWord(xs, c + 24))
  {
    var c := lists[s][k];
    assert MemberAt(l, lists, loose, s, k);
    forall x | x in xs ensures x != c ==> Apart32(x, c) {
      assert MayHoldNode(l, lists, x);
      if x != c { LargeApart(l, x, c); }
    }
    assert c in xs ==> MayHoldNode(l, lists, c) && WaitsAt(lists, s, k, c);
  }

  ghost predicate LooseTouches(m: Mem, m': Mem, x: nat) {
    Touches(m, m', {x + 8, x + 16, x + 24})
  }

  lemma LooseWordsApart(l: Layout, lists: Lists, loose: set<nat>, x: nat, s: nat, k: nat)
    requires Tiled(l) && Binned(l, lists, loose) && x in loose && x in l.chunks && l.chunks[x].size >= MIN_TREE_SIZE
    requires s in lists && k < |lists[s]| && s >= MIN_TREE_SIZE
    ensures Apart32(lists[s][k], x)
  {
    assert MemberAt(l, lists, loose, s, k);
    LargeApart(l, lists[s][k], x);
  }

  /** Writing the fields of a loose chunk disturbs no listed one. */
  lemma ChainsLoose(l: Layout, lists: Lists, loose: set<nat>, sb: nat, m: Mem, m': Mem, x: nat)
    requires BinsReady(l, lists, loose, sb) && Chains(m, lists) && LooseTouches(m, m', x)
    requires x in loose && x in l.chunks && l.chunks[x].size >= MIN_TREE_SIZE
    ensures Chains(m', lists)
  {
    forall s | s in lists ensures LargeRingAt(m', lists, s) {
      assert LargeRingAt(m, lists, s);
      if s >= MIN_TREE_SIZE {
        forall k: nat | k < |lists[s]| ensures SameAt(m, m', lists[s][k] + 8) {
          LooseWordsApart(l, lists, loose, x, s, k);
        }
        RingFrame(m, m', lists[s]);
      }
    }
    forall s, k: nat | s in lists && k < |lists[s]| ensures ChainAt(m', lists, s, k) {
      assert ChainAt(m, lists, s, k);
      if s >= MIN_TREE_SIZE {
        var c := lists[s][k];
        LooseWordsApart(l, lists, loose, x, s, k);
        assert SameAt(m, m', c + 16) && SameAt(m, m', c + 24);
      }
    }
  }

  lemma TreeWordsLoose(l: Layout, lists: Lists, loose: set<nat>, sb: nat, t: Trie, roots: seq<nat>, m: Mem, m': Mem,
          x: nat)
    requires BinsReady(l, lists, loose, sb) && Matches(lists, t) && TreeWords(m, roots, sb, t.node)
    requires LooseTouches(m, m', x)
    requires x in loose && x in l.chunks && l.chunks[x].size >= MIN_TREE_SIZE
    ensures TreeWords(m', roots, sb, t.node)
  {
    forall p | p in t.node ensures SameAt(m, m', t.node[p] + 16) && SameAt(m, m', t.node[p] + 24) {
      NodeChunk(l, lists, loose, sb, t, p);
      LooseWordsApart(l, lists, loose, x, t.size[p], 0);
    }
    TreeWordsFrame(m, m', roots, sb, t.node);
  }

  /** y lies in the body of a free chunk of at least 256 bytes. */
  ghost predicate LargeBody(l: Layout, y: nat) {
    exists c {:trigger InBody(l, c, y)} :: c in l.chunks && l.chunks[c].size >= MIN_TREE_SIZE && InBody(l, c, y)
  }

  ghost predicate LargeWrites(l: Layout, m: Mem, m': Mem) {
    forall y {:trigger SameAt(m, m', y)} :: !LargeBody(l, y) ==> SameAt(m, m', y)
  }

  lemma LargeWritesTransitive(l: Layout, m0: Mem, m1: Mem, m2: Mem)
    requires LargeWrites(l, m0, m1) && LargeWrites(l, m1, m2)
    ensures LargeWrites(l, m0, m2)
  {
    forall y | !LargeBody(l, y) ensures SameAt(m0, m2, y) {
      assert SameAt(m0, m1, y) && SameAt(m1, m2, y);
    }
  }

  ghost predicate LargeFree(l: Layout, x: nat) {
    x in l.chunks && !l.chunks[x].inuse && l.chunks[x].size >= MIN_TREE_SIZE
  }

  lemma LargeFreeBody(l: Layout, x: nat, y: nat)
    requires LargeFree(l, x) && (y == x + 8 || y == x + 16 || y == x + 24)
    ensures LargeBody(l, y)
  {
    assert InBody(l, x, y);
  }

  lemma LinkingIsLarge(l: Layout, a: nat, b: nat, c: nat, m: Mem, m': Mem)
    requires LargeFree(l, a) && LargeFree(l, b) && LargeFree(l, c)
    requires Touches(m, m', {a + 8, b + 8, c + 8})
    ensures LargeWrites(l, m, m')
  {
    LargeFreeBody(l, a, a + 8);
    LargeFreeBody(l, b, b + 8);
    LargeFreeBody(l, c, c + 8);
    forall y | !LargeBody(l, y) ensures SameAt(m, m', y) { }
  }

  lemma LooseIsLarge(l: Layout, x: nat, m: Mem, m': Mem)
    requires LargeFree(l, x) && LooseTouches(m, m', x)
    ensures LargeWrites(l, m, m')
  {
    LargeFreeBody(l, x, x + 8);
    LargeFreeBody(l, x, x + 16);
    LargeFreeBody(l, x, x + 24);
    forall y | !LargeBody(l, y) ensures SameAt(m, m', y) { }
  }

  lemma TreeWritesAreLarge(l: Layout, lists: Lists, m: Mem, m': Mem, xs: set<nat>)
    requires TreeWrites(m, m', xs)
    requires forall x {:trigger MayHoldNode(l, lists, x)} :: x in xs ==> MayHoldNode(l, lists, x)
    ensures LargeWrites(l, m, m')
  {
    forall y: nat | !LargeBody(l, y) ensures SameAt(m, m', y) {
      if NodeWord(xs, y) {
        var x: nat := if y >= 16 && y - 16 in xs then y - 16 else y - 24;
        assert MayHoldNode(l, lists, x);
        LargeFreeBody(l, x, y);
        assert false;
      }
    }
  }

  // insert_large_chunk

  /** Enter the bin index in x and clear both its children. */
  function NodeFields(m: Mem, x: nat, i: nat): Mem {
    SetChild(SetChild(SetIndex(m, x, i), x, 0, 0), x, 1, 0)
  }

  /** Close x to a ring of its own. */
  function SelfRing(m: Mem, x: nat): Mem {
    SetBk(SetFd(m, x, x), x, x)
  }

  lemma PrepTouches(m: Mem, x: nat, i: nat)
    ensures LooseTouches(m, NodeFields(m, x, i), x)
    ensures Child(NodeFields(m, x, i), x, 0) == 0 && Child(NodeFields(m, x, i), x, 1) == 0
    ensures Index(NodeFields(m, x, i), x) == i
    ensures LooseTouches(m, SelfRing(m, x), x)
    ensures forall y {:trigger SameAt(m, SelfRing(m, x), y)} :: y != x + 8 ==> SameAt(m, SelfRing(m, x), y)
    ensures Ring(SelfRing(m, x), [x])
  {
    assert forall k: nat :: k < |[x]| ==> RingAt(SelfRing(m, x), [x], k);
  }

  /** The chunks whose child and parent words attaching, detaching or replacing at q may write. */
  ghost function Around(nodes: Nodes, q: Pos, x: nat): set<nat> {
    {x} + (if Up(q) in nodes then {nodes[Up(q)]} else {})
  }

  lemma AttachTouches(m: Mem, sb: nat, nodes: Nodes, q: Pos, x: nat)
    requires q.bit == RootBit(q.bin) || Up(q) in nodes
    ensures TreeWrites(m, AttachWords(m, sb, nodes, q, x), Around(nodes, q, x))
  {
  }

  ghost predicate LooseLarge(l: Layout, loose: set<nat>, x: nat) {
    x in loose && LargeFree(l, x) && Next(l, x) != l.end && l.chunks[x].size < WORD
  }

  /** The pure part of adding a new size: its list, its position, its resident chunk. */
  lemma MatchesWith(l: Layout, lists: Lists, loose: set<nat>, t: Trie, x: nat, b: nat)
    requires Tiled(l) && Binned(l, lists, loose) && Matches(lists, t) && LooseLarge(l, loose, x)
    requires var s := l.chunks[x].size;
      && s !in t.pos && PathPos(s, b) !in t.size && 2 <= b <= RootBit(TreeIndex(s))
      && (b < RootBit(TreeIndex(s)) ==> PathPos(s, b + 1) in t.size)
    ensures var s := l.chunks[x].size;
      s !in lists && Matches(With(lists, s, x), AddSize(t, s, PathPos(s, b), x))
  {
    var s := l.chunks[x].size;
    var n, ls := AddSize(t, s, PathPos(s, b), x), With(lists, s, x);
    assert FitsAt(l, x) && LargeAt(lists, t, s);
    SizeAdded(t, s, b, x);
    forall p | p in n.size ensures ResidentAt(ls, n, p) {
      if p != PathPos(s, b) { assert ResidentAt(lists, t, p) && KeyAt(t, p); }
    }
    forall u ensures LargeAt(ls, n, u) { assert LargeAt(lists, t, u); }
  }

  /** Adding a chunk of a new size to the lists adds a ring of its own. */
  lemma ChainsWith(lists: Lists, s: nat, x: nat, m: Mem)
    requires Chains(m, lists) && s !in lists && s >= MIN_TREE_SIZE
    requires Ring(m, [x]) && Index(m, x) == TreeIndex(s)
    ensures Chains(m, With(lists, s, x))
  {
    var ls := With(lists, s, x);
    assert ls[s] == [x];
    forall u | u in ls ensures LargeRingAt(m, ls, u) { if u != s { assert LargeRingAt(m, lists, u); } }
    forall u, k: nat | u in ls && k < |ls[u]| ensures ChainAt(m, ls, u, k) {
      if u != s { assert ChainAt(m, lists, u, k); }
    }
  }

  lemma TreemapWith(treemap: bv32, t: Trie, s: nat, q: Pos, x: nat)
    requires q.bin < 32 && (q.bit == RootBit(q.bin) ==> q == Root(q.bin))
    requires forall i: nat {:trigger TreemapAt(treemap, t, i)} :: i < 32 ==> TreemapAt(treemap, t, i)
    ensures var map' := if q.bit == RootBit(q.bin) then Mark(treemap, q.bin) else treemap;
      forall i: nat {:trigger TreemapAt(map', AddSize(t, s, q, x), i)} ::
        i < 32 ==> TreemapAt(map', AddSize(t, s, q, x), i)
  {
    hide Marked, Mark;
    var map' := if q.bit == RootBit(q.bin) then Mark(treemap, q.bin) else treemap;
    forall i: nat | i < 32 ensures TreemapAt(map', AddSize(t, s, q, x), i) {
      assert TreemapAt(treemap, t, i);
      MarkBin(treemap, q.bin, i);
    }
  }

  /** The memory image after a new size is inserted at position q. */
  ghost function InsertedWords(m: Mem, sb: nat, nodes: Nodes, q: Pos, x: nat): Mem {
    SelfRing(AttachWords(NodeFields(m, x, q.bin), sb, nodes, q, x), x)
  }

  lemma NewNodeShaped(l: Layout, lists: Lists, loose: set<nat>, sb: nat, t: Trie, x: nat, b: nat)
    requires BinsReady(l, lists, loose, sb) && Matches(lists, t) && LooseLarge(l, loose, x)
    requires var s := l.chunks[x].size;
      && PathPos(s, b) !in t.size && 2 <= b <= RootBit(TreeIndex(s))
      && (b < RootBit(TreeIndex(s)) ==> PathPos(s, b + 1) in t.size)
    ensures Shaped(t.node) && Shaped(t.node[PathPos(l.chunks[x].size, b) := x])
  {
    var s := l.chunks[x].size;
    assert FitsAt(l, x);
    NodesShaped(l, lists, loose, sb, t);
    PathUp(s, b);
    PathRoot(s);
    forall p | p in t.node ensures t.node[p] + 32 <= x || x + 32 <= t.node[p] {
      NodeChunk(l, lists, loose, sb, t, p);
      LargeApart(l, t.node[p], x);
    }
    ShapedWith(t.node, PathPos(s, b), x);
  }

  lemma AroundMayHold(l: Layout, lists: Lists, loose: set<nat>, sb: nat, t: Trie, q: Pos, x: nat)
    requires BinsReady(l, lists, loose, sb) && Matches(lists, t) && MayHoldNode(l, lists, x)
    ensures forall y {:trigger MayHoldNode(l, lists, y)} :: y in Around(t.node, q, x) ==> MayHoldNode(l, lists, y)
  {
    if Up(q) in t.node {
      NodeChunk(l, lists, loose, sb, t, Up(q));
      NodeMayHold(l, lists, loose, t.size[Up(q)]);
    }
  }

  lemma PathRoot2(l: Layout, x: nat, b: nat)
    requires Tiled(l) && LargeFree(l, x) && l.chunks[x].size < WORD
    ensures var q := PathPos(l.chunks[x].size, b); q.bin < 32 && (q.bit == RootBit(q.bin) ==> q == Root(q.bin))
  {
    assert FitsAt(l, x);
    PathRoot(l.chunks[x].size);
  }

  lemma NodeKeys(lists: Lists, t: Trie, s: nat, b: nat)
    requires Matches(lists, t) && (b < RootBit(TreeIndex(s)) ==> PathPos(s, b + 1) in t.size)
    requires b <= RootBit(TreeIndex(s)) && PathPos(s, b) !in t.size
    ensures PathPos(s, b) !in t.node
    ensures PathPos(s, b).bit == RootBit(TreeIndex(s)) || Up(PathPos(s, b)) in t.node
  {
    PathUp(s, b);
  }

  lemma TreeWordsSize(m: Mem, roots: seq<nat>, sb: nat, nodes: Nodes)
    requires TreeWords(m, roots, sb, nodes)
    ensures |roots| == 32
  {
  }

  lemma InsertedChains(l: Layout, lists: Lists, loose: set<nat>, sb: nat, m: Mem, m1: Mem, m2: Mem, m3: Mem, x: nat,
          xs: set<nat>)
    requires BinsReady(l, lists, loose, sb) && Chains(m, lists) && x in loose && LargeFree(l, x)
    requires LooseTouches(m, m1, x) && TreeWrites(m1, m2, xs) && LooseTouches(m2, m3, x)
    requires forall y {:trigger MayHoldNode(l, lists, y)} :: y in xs ==> MayHoldNode(l, lists, y)
    ensures Chains(m3, lists)
  {
    hide Chains;
    ChainsLoose(l, lists, loose, sb, m, m1, x);
    ChainsTreeWrites(l, lists, loose, sb, m1, m2, xs);
    ChainsLoose(l, lists, loose, sb, m2, m3, x);
  }

  lemma AttachedIndex(l: Layout, lists: Lists, loose: set<nat>, sb: nat, t: Trie, q: Pos, x: nat, m: Mem)
    requires BinsReady(l, lists, loose, sb) && Matches(lists, t) && LooseLarge(l, loose, x)
    requires q.bit == RootBit(q.bin) || Up(q) in t.node
    ensures Index(SelfRing(AttachWords(m, sb, t.node, q, x), x), x) == Index(m, x)
  {
    hide AttachWords;
    AttachTouches(m, sb, t.node, q, x);
    if Up(q) in t.node {
      NodeChunk(l, lists, loose, sb, t, Up(q));
      LargeApart(l, t.node[Up(q)], x);
    }
  }

  lemma SelfRingKeepsNodes(l: Layout, lists: Lists, loose: set<nat>, sb: nat, t: Trie, q: Pos, x: nat, m: Mem,
          roots: seq<nat>)
    requires BinsReady(l, lists, loose, sb) && Matches(lists, t) && LooseLarge(l, loose, x)
    requires TreeWords(m, roots, sb, t.node[q := x])
    ensures TreeWords(SelfRing(m, x), roots, sb, t.node[q := x])
  {
    hide TreeWords, SelfRing;
    PrepTouches(m, x, 0);
    var n := t.node[q := x];
    forall p | p in n ensures SameAt(m, SelfRing(m, x), n[p] + 16) && SameAt(m, SelfRing(m, x), n[p] + 24) {
      if p != q {
        NodeChunk(l, lists, loose, sb, t, p);
        LargeApart(l, t.node[p], x);
      }
    }
    TreeWordsFrame(m, SelfRing(m, x), roots, sb, n);
  }

  /** insert_large_chunk for a size not yet in its tree, as the root or under an existing node. */
  lemma NodeInserted(l: Layout, lists: Lists, loose: set<nat>, sb: nat, t: Trie, x: nat, b: nat, m: Mem, treemap: bv32,
          roots: seq<nat>)
    requires BinsReady(l, lists, loose, sb) && TreeReady(m, treemap, roots, sb, lists, t) && LooseLarge(l, loose, x)
    requires var s := l.chunks[x].size;
      && s !in t.pos && PathPos(s, b) !in t.size && 2 <= b <= RootBit(TreeIndex(s))
      && (b < RootBit(TreeIndex(s)) ==> PathPos(s, b + 1) in t.size)
    ensures var s := l.chunks[x].size; var q := PathPos(s, b);
      && q.bin < 32 && |roots| == 32
      && TreeReady(InsertedWords(m, sb, t.node, q, x), if q.bit == RootBit(q.bin) then Mark(treemap, q.bin)
          else treemap,
           RootsWith(roots, q, x), sb, With(lists, s, x), AddSize(t, s, q, x))
      && LargeWrites(l, m, InsertedWords(m, sb, t.node, q, x))
  {
    hide Marked, Mark, NodeFields, AttachWords, SelfRing, RootsWith, TreeWords, Chains, Shaped, Matches;
    var s := l.chunks[x].size;
    var q := PathPos(s, b);
    var m1 := NodeFields(m, x, q.bin);
    var m2 := AttachWords(m1, sb, t.node, q, x);
    var m3 := SelfRing(m2, x);
    PathRoot2(l, x, b);
    NewNodeShaped(l, lists, loose, sb, t, x, b);
    MatchesWith(l, lists, loose, t, x, b);
    TreemapWith(treemap, t, s, q, x);
    LooseMayHold(l, lists, loose, x);
    PrepTouches(m, x, q.bin);
    PrepTouches(m2, x, q.bin);
    NodeKeys(lists, t, s, b);
    AttachTouches(m1, sb, t.node, q, x);
    AroundMayHold(l, lists, loose, sb, t, q, x);
    InsertedChains(l, lists, loose, sb, m, m1, m2, m3, x, Around(t.node, q, x));
    TreeWordsLoose(l, lists, loose, sb, t, roots, m, m1, x);
    TreeWordsSize(m1, roots, sb, t.node);
    Attached(m1, roots, sb, t.node, q, x);
    AttachedIndex(l, lists, loose, sb, t, q, x, m1);
    ChainsWith(lists, s, x, m3);
    SelfRingKeepsNodes(l, lists, loose, sb, t, q, x, m2, RootsWith(roots, q, x));
    LooseIsLarge(l, x, m, m1);
    TreeWritesAreLarge(l, lists, m1, m2, Around(t.node, q, x));
    LooseIsLarge(l, x, m2, m3);
    LargeWritesTransitive(l, m, m1, m2);
    LargeWritesTransitive(l, m, m2, m3);
  }

  // relinking one ring

  ghost predicate OfSize(l: Layout, s: nat, a: nat) {
    LargeFree(l, a) && l.chunks[a].size == s
  }

  lemma LinksApart(l: Layout, s: nat, a: nat, b: nat, c: nat, x: nat)
    requires Tiled(l) && OfSize(l, s, a) && OfSize(l, s, b) && OfSize(l, s, c) && LargeFree(l, x)
    ensures x + 16 !in {a + 8, b + 8, c + 8} && x + 24 !in {a + 8, b + 8, c + 8}
    ensures l.chunks[x].size != s ==> x + 8 !in {a + 8, b + 8, c + 8}
  {
    if x != a { LargeApart(l, x, a); }
    if x != b { LargeApart(l, x, b); }
    if x != c { LargeApart(l, x, c); }
  }

  /** Relinking chunks of size s disturbs no other ring, no waiting chunk and no tree node. */
  lemma ChainsLinks(l: Layout, lists: Lists, loose: set<nat>, sb: nat, m: Mem, m': Mem, s: nat, a: nat, b: nat, c: nat,
          u: nat)
    requires BinsReady(l, lists, loose, sb) && Chains(m, lists) && u in lists
    requires OfSize(l, s, a) && OfSize(l, s, b) && OfSize(l, s, c) && Touches(m, m', {a + 8, b + 8, c + 8})
    ensures u != s ==> LargeRingAt(m', lists, u)
    ensures forall k: nat {:trigger ChainAt(m', lists, u, k)} :: k < |lists[u]| ==> ChainAt(m', lists, u, k)
  {
    forall k: nat | k < |lists[u]| ensures ChainAt(m', lists, u, k) {
      assert ChainAt(m, lists, u, k) && MemberAt(l, lists, loose, u, k);
      var x := lists[u][k];
      if u >= MIN_TREE_SIZE {
        LinksApart(l, s, a, b, c, x);
        assert SameAt(m, m', x + 16) && SameAt(m, m', x + 24);
      }
    }
    assert LargeRingAt(m, lists, u);
    if u != s && u >= MIN_TREE_SIZE {
      forall k: nat | k < |lists[u]| ensures SameAt(m, m', lists[u][k] + 8) {
        assert MemberAt(l, lists, loose, u, k);
        LinksApart(l, s, a, b, c, lists[u][k]);
      }
      RingFrame(m, m', lists[u]);
    }
  }

  lemma TreeWordsLinks(l: Layout, lists: Lists, loose: set<nat>, sb: nat, t: Trie, roots: seq<nat>, m: Mem, m': Mem,
          s: nat, a: nat, b: nat, c: nat)
    requires BinsReady(l, lists, loose, sb) && Matches(lists, t) && TreeWords(m, roots, sb, t.node)
    requires OfSize(l, s, a) && OfSize(l, s, b) && OfSize(l, s, c) && Touches(m, m', {a + 8, b + 8, c + 8})
    ensures TreeWords(m', roots, sb, t.node)
  {
    forall p | p in t.node ensures SameAt(m, m', t.node[p] + 16) && SameAt(m, m', t.node[p] + 24) {
      NodeChunk(l, lists, loose, sb, t, p);
      LinksApart(l, s, a, b, c, t.node[p]);
    }
    TreeWordsFrame(m, m', roots, sb, t.node);
  }

  lemma MatchesMore(l: Layout, lists: Lists, loose: set<nat>, t: Trie, s: nat, x: nat)
    requires Matches(lists, t) && s in lists && |lists[s]| > 0
    ensures Matches(With(lists, s, x), t)
  {
    var ls := With(lists, s, x);
    forall p | p in t.size ensures ResidentAt(ls, t, p) { assert ResidentAt(lists, t, p); }
    forall u ensures LargeAt(ls, t, u) { assert LargeAt(lists, t, u); }
  }

  /** The memory image after x joins the ring of its size behind the resident node b. */
  function ChainedWords(m: Mem, x: nat, i: nat, b: nat): Mem {
    var m1 := NodeFields(m, x, i);
    SetParent(LinkBetween(m1, Fd(m1, b), b, x), x, 0)
  }

  lemma LastOfRing(l: Layout, lists: Lists, loose: set<nat>, s: nat, m: Mem)
    requires Binned(l, lists, loose) && s in lists && s >= MIN_TREE_SIZE && LargeRingAt(m, lists, s)
    ensures OfSize(l, s, lists[s][0]) && OfSize(l, s, Fd(m, lists[s][0]))
    ensures Fd(m, lists[s][0]) == lists[s][|lists[s]| - 1]
  {
    assert RingAt(m, lists[s], 0) && MemberAt(l, lists, loose, s, 0) && MemberAt(l, lists, loose, s, |lists[s]| - 1);
  }

  lemma ChainedRing(l: Layout, lists: Lists, loose: set<nat>, sb: nat, x: nat, m1: Mem, m2: Mem, m3: Mem)
    requires BinsReady(l, lists, loose, sb) && LooseLarge(l, loose, x) && l.chunks[x].size in lists
    requires Chains(m1, lists)
    requires var b := lists[l.chunks[x].size][0];
      m2 == LinkBetween(m1, Fd(m1, b), b, x) && m3 == SetParent(m2, x, 0)
    ensures Ring(m3, With(lists, l.chunks[x].size, x)[l.chunks[x].size])
    ensures LooseTouches(m2, m3, x)
    ensures OfSize(l, l.chunks[x].size, Fd(m1, lists[l.chunks[x].size][0]))
    ensures Touches(m1, m2, {lists[l.chunks[x].size][0] + 8, Fd(m1, lists[l.chunks[x].size][0]) + 8, x + 8})
  {
    var s := l.chunks[x].size;
    var r := lists[s];
    var b := r[0];
    assert LargeRingAt(m1, lists, s);
    LastOfRing(l, lists, loose, s, m1);
    NotListed(l, lists, loose, s, x);
    RingAppend(m1, r, x);
    LinkTouches(m1, Fd(m1, b), b, x);
    forall k: nat | k < |r + [x]| ensures SameAt(m2, m3, (r + [x])[k] + 8) {
      if k < |r| { LooseWordsApart(l, lists, loose, x, s, k); }
    }
    RingFrame(m2, m3, r + [x]);
  }

  lemma ChainedFields(l: Layout, lists: Lists, loose: set<nat>, x: nat, b: nat, m: Mem)
    requires Tiled(l) && x in l.chunks
    requires OfSize(l, l.chunks[x].size, x) && OfSize(l, l.chunks[x].size, b) && OfSize(l, l.chunks[x].size, Fd(m, b))
    ensures var m3 := SetParent(LinkBetween(m, Fd(m, b), b, x), x, 0);
      && Parent(m3, x) == 0 && Index(m3, x) == Index(m, x)
      && Child(m3, x, 0) == Child(m, x, 0) && Child(m3, x, 1) == Child(m, x, 1)
  {
    hide LinkBetween;
    LinkTouches(m, Fd(m, b), b, x);
    LinksApart(l, l.chunks[x].size, b, Fd(m, b), x, x);
    var m2 := LinkBetween(m, Fd(m, b), b, x);
    assert SameAt(m, m2, x + 16) && SameAt(m, m2, x + 24);
  }

  /** insert_large_chunk for a size already in its tree: x goes to the end of that size's ring. */
  lemma ChainInserted(l: Layout, lists: Lists, loose: set<nat>, sb: nat, t: Trie, x: nat, m: Mem, treemap: bv32,
          roots: seq<nat>)
    requires BinsReady(l, lists, loose, sb) && TreeReady(m, treemap, roots, sb, lists, t) && LooseLarge(l, loose, x)
    requires l.chunks[x].size in t.pos
    ensures var s := l.chunks[x].size;
      && s in lists && |lists[s]| > 0
      && TreeReady(ChainedWords(m, x, TreeIndex(s), lists[s][0]), treemap, roots, sb, With(lists, s, x), t)
      && LargeWrites(l, m, ChainedWords(m, x, TreeIndex(s), lists[s][0]))
  {
    hide Marked, NodeFields, LinkBetween, TreeWords, Matches, SetParent;
    var s := l.chunks[x].size;
    assert LargeAt(lists, t, s) by { MatchesLarge(lists, t, s); }
    var b := lists[s][0];
    var m1 := NodeFields(m, x, TreeIndex(s));
    var f := Fd(m1, b);
    var m2 := LinkBetween(m1, f, b, x);
    var m3 := SetParent(m2, x, 0);
    var ls := With(lists, s, x);
    PrepTouches(m, x, TreeIndex(s));
    ChainsLoose(l, lists, loose, sb, m, m1, x);
    ChainedRing(l, lists, loose, sb, x, m1, m2, m3);
    NodeMayHold(l, lists, loose, s);
    assert OfSize(l, s, b) by { assert MemberAt(l, lists, loose, s, 0); }
    ChainedFields(l, lists, loose, x, b, m1);
    forall u | u in lists ensures u != s ==> LargeRingAt(m2, lists, u)
      ensures forall k: nat {:trigger ChainAt(m2, lists, u, k)} :: k < |lists[u]| ==> ChainAt(m2, lists, u, k)
    { ChainsLinks(l, lists, loose, sb, m1, m2, s, b, f, x, u); }
    ChainsJoin(l, lists, loose, sb, m2, m3, x);
    MatchesMore(l, lists, loose, t, s, x);
    TreeWordsLoose(l, lists, loose, sb, t, roots, m, m1, x);
    TreeWordsLinks(l, lists, loose, sb, t, roots, m1, m2, s, b, f, x);
    TreeWordsLoose(l, lists, loose, sb, t, roots, m2, m3, x);
    LooseIsLarge(l, x, m, m1);
    LinkingIsLarge(l, b, f, x, m1, m2);
    LooseIsLarge(l, x, m2, m3);
    LargeWritesTransitive(l, m, m1, m2);
    LargeWritesTransitive(l, m, m2, m3);
  }

  lemma MatchesLarge(lists: Lists, t: Trie, s: nat)
    requires Matches(lists, t)
    ensures LargeAt(lists, t, s)
  {
  }

  lemma ChainsJoin(l: Layout, lists: Lists, loose: set<nat>, sb: nat, m2: Mem, m3: Mem, x: nat)
    requires BinsReady(l, lists, loose, sb) && LooseLarge(l, loose, x) && l.chunks[x].size in lists
    requires var s := l.chunks[x].size;
      && (forall u {:trigger LargeRingAt(m2, lists, u)} :: u in lists && u != s ==> LargeRingAt(m2, lists, u))
      && (forall u, k: nat {:trigger ChainAt(m2, lists, u, k)} ::
           u in lists && k < |lists[u]| ==> ChainAt(m2, lists, u, k))
      && LooseTouches(m2, m3, x)
      && Ring(m3, With(lists, s, x)[s])
      && Index(m3, x) == TreeIndex(s) && Parent(m3, x) == 0 && Child(m3, x, 0) == 0 && Child(m3, x, 1) == 0
    ensures Chains(m3, With(lists, l.chunks[x].size, x))
  {
    var s := l.chunks[x].size;
    var ls := With(lists, s, x);
    forall u | u in ls ensures LargeRingAt(m3, ls, u) {
      if u != s {
        assert LargeRingAt(m2, lists, u);
        if u >= MIN_TREE_SIZE {
          forall k: nat | k < |lists[u]| ensures SameAt(m2, m3, lists[u][k] + 8) {
            LooseWordsApart(l, lists, loose, x, u, k);
          }
          RingFrame(m2, m3, lists[u]);
        }
      }
    }
    forall u, k: nat | u in ls && k < |ls[u]| ensures ChainAt(m3, ls, u, k) {
      if k < |lists[u]| {
        assert ChainAt(m2, lists, u, k);
        if u >= MIN_TREE_SIZE {
          var c := lists[u][k];
          LooseWordsApart(l, lists, loose, x, u, k);
          assert SameAt(m2, m3, c + 16) && SameAt(m2, m3, c + 24);
        }
      }
    }
  }

  // unlink_large_chunk

  /** The memory and lists after x, which shares its size with others, leaves its ring. */
  lemma RingUnlinked(l: Layout, lists: Lists, loose: set<nat>, sb: nat, x: nat, k: nat, m: Mem)
    requires BinsReady(l, lists, loose, sb) && Chains(m, lists) && LargeFree(l, x) && l.chunks[x].size in lists
    requires k < |lists[l.chunks[x].size]| && lists[l.chunks[x].size][k] == x && |lists[l.chunks[x].size]| > 1
    ensures var s, f, b, m' := l.chunks[x].size, Fd(m, x), Bk(m, x), UnlinkBetween(m, Fd(m, x), Bk(m, x));
      && OfSize(l, s, f) && OfSize(l, s, b) && b == After(lists[s], k)
      && Touches(m, m', {b + 8, f + 8, x + 8})
      && Chains(m', Without(lists, s, k))
  {
    var s := l.chunks[x].size;
    var r := lists[s];
    var f, b := Fd(m, x), Bk(m, x);
    var m', ls := UnlinkBetween(m, f, b), Without(lists, s, k);
    assert LargeRingAt(m, lists, s) && RingAt(m, r, k);
    assert MemberAt(l, lists, loose, s, if k + 1 == |r| then 0 else k + 1);
    assert MemberAt(l, lists, loose, s, if k == 0 then |r| - 1 else k - 1);
    LinkTouches(m, f, b, x);
    RingUnlink(m, r, k);
    forall u | u in ls ensures LargeRingAt(m', ls, u) {
      if u != s { ChainsLinks(l, lists, loose, sb, m, m', s, b, f, x, u); assert LargeRingAt(m', lists, u); }
    }
    forall u, j: nat | u in ls && j < |ls[u]| ensures ChainAt(m', ls, u, j) {
      ChainsLinks(l, lists, loose, sb, m, m', s, b, f, x, u);
      assert ChainAt(m', lists, u, if u == s && k <= j then j + 1 else j);
    }
  }

  /** unlink_large_chunk for a chunk waiting in a ring. */
  lemma WaiterUnlinked(l: Layout, lists: Lists, loose: set<nat>, sb: nat, t: Trie, x: nat, k: nat, m: Mem,
          treemap: bv32, roots: seq<nat>)
    requires BinsReady(l, lists, loose, sb) && TreeReady(m, treemap, roots, sb, lists, t) && LargeFree(l, x)
    requires l.chunks[x].size in lists && 0 < k < |lists[l.chunks[x].size]| && lists[l.chunks[x].size][k] == x
    ensures var s, m' := l.chunks[x].size, UnlinkBetween(m, Fd(m, x), Bk(m, x));
      && TreeReady(m', treemap, roots, sb, Without(lists, s, k), t) && LargeWrites(l, m, m')
  {
    hide Marked, TreeWords, UnlinkBetween, Chains;
    var s, f, b := l.chunks[x].size, Fd(m, x), Bk(m, x);
    var m', ls := UnlinkBetween(m, f, b), Without(lists, s, k);
    RingUnlinked(l, lists, loose, sb, x, k, m);
    TreeWordsLinks(l, lists, loose, sb, t, roots, m, m', s, b, f, x);
    forall p | p in t.size ensures ResidentAt(ls, t, p) { assert ResidentAt(lists, t, p); }
    forall u ensures LargeAt(ls, t, u) { assert LargeAt(lists, t, u); }
    LinkingIsLarge(l, b, f, x, m, m');
  }

  lemma SlotTreeWrites(m: Mem, nodes: Nodes, p: Pos, r: nat)
    requires p.bit == RootBit(p.bin) || Up(p) in nodes
    ensures TreeWrites(m, SlotWords(m, nodes, p, r), nodes.Values)
  {
    if p.bit != RootBit(p.bin) { assert nodes[Up(p)] in nodes.Values; }
  }

  lemma AdoptTreeWrites(m: Mem, x: nat, k: nat, r: nat, xs: set<nat>)
    requires k < 2 && r in xs && (Child(m, x, k) != 0 ==> Child(m, x, k) in xs)
    ensures TreeWrites(m, AdoptWords(m, x, k, r), xs)
  {
  }

  lemma TreeWritesTransitive(m0: Mem, m1: Mem, m2: Mem, xs: set<nat>)
    requires TreeWrites(m0, m1, xs) && TreeWrites(m1, m2, xs)
    ensures TreeWrites(m0, m2, xs)
  {
    forall y | !NodeWord(xs, y) ensures SameAt(m0, m2, y) { assert SameAt(m0, m1, y) && SameAt(m1, m2, y); }
  }

  lemma TreeWritesMore(m: Mem, m': Mem, xs: set<nat>, ys: set<nat>)
    requires TreeWrites(m, m', xs) && xs <= ys
    ensures TreeWrites(m, m', ys)
  {
    forall y | !NodeWord(ys, y) ensures SameAt(m, m', y) { assert !NodeWord(xs, y); }
  }

  lemma ChildOfNode(m: Mem, roots: seq<nat>, sb: nat, nodes: Nodes, p: Pos, k: nat)
    requires Shaped(nodes) && TreeWords(m, roots, sb, nodes) && p in nodes && k < 2
    ensures Child(m, nodes[p], k) != 0 ==> Child(m, nodes[p], k) in nodes.Values
  {
    assert PlacedAt(nodes, p) && NodeAt(m, sb, nodes, p);
  }

  lemma ReplaceTreeWrites(m: Mem, roots: seq<nat>, sb: nat, nodes: Nodes, p: Pos, r: nat)
    requires Shaped(nodes) && TreeWords(m, roots, sb, nodes) && p in nodes
    requires forall q {:trigger nodes[q]} :: q in nodes ==> nodes[q] + 32 <= r || r + 32 <= nodes[q]
    ensures TreeWrites(m, ReplaceWords(m, sb, nodes, p, r), nodes.Values + {r})
  {
    hide SlotWords, AdoptWords, TreeWrites, Shaped, TreeWords;
    var x, xs := nodes[p], nodes.Values + {r};
    assert PlacedAt(nodes, p) by { ShapedPlaced(nodes, p); }
    var m0 := SlotWords(m, nodes, p, r);
    var m1 := SetParent(m0, r, ParentRef(sb, nodes, p));
    var m2 := AdoptWords(m1, x, 0, r);
    SlotTreeWrites(m, nodes, p, r);
    TreeWritesMore(m, m0, nodes.Values, xs);
    SetParentTreeWrites(m0, r, ParentRef(sb, nodes, p), xs);
    SlotEffect(m, roots, sb, nodes, p, r, p);
    UpNotSelf(p);
    ChildOfNode(m, roots, sb, nodes, p, 0);
    ChildOfNode(m, roots, sb, nodes, p, 1);
    AdoptTreeWrites(m1, x, 0, r, xs);
    SecondChild(m1, x, r);
    AdoptTreeWrites(m2, x, 1, r, xs);
    TreeWritesTransitive(m, m0, m1, xs);
    TreeWritesTransitive(m, m1, m2, xs);
    TreeWritesTransitive(m, m2, AdoptWords(m2, x, 1, r), xs);
  }

  lemma ShapedPlaced(nodes: Nodes, p: Pos)
    requires Shaped(nodes) && p in nodes
    ensures PlacedAt(nodes, p)
  {
  }

  lemma UpNotSelf(p: Pos)
    ensures Up(p) != p
  {
  }

  lemma SetParentTreeWrites(m: Mem, r: nat, v: nat, xs: set<nat>)
    requires r in xs
    ensures TreeWrites(m, SetParent(m, r, v), xs)
  {
  }

  lemma SecondChild(m: Mem, x: nat, r: nat)
    requires Apart32(x, r)
    ensures Child(AdoptWords(m, x, 0, r), x, 1) == Child(m, x, 1)
  {
  }

  lemma NodesMayHold(l: Layout, lists: Lists, loose: set<nat>, sb: nat, t: Trie)
    requires BinsReady(l, lists, loose, sb) && Matches(lists, t)
    ensures forall y {:trigger MayHoldNode(l, lists, y)} :: y in t.node.Values ==> MayHoldNode(l, lists, y)
  {
    forall y | y in t.node.Values ensures MayHoldNode(l, lists, y) {
      var p :| p in t.node && t.node[p] == y;
      NodeChunk(l, lists, loose, sb, t, p);
      NodeMayHold(l, lists, loose, t.size[p]);
    }
  }

  lemma MayHoldFewer(l: Layout, lists: Lists, s: nat, k: nat, x: nat)
    requires s in lists && k < |lists[s]| && MayHoldNode(l, lists, x)
    ensures MayHoldNode(l, Without(lists, s, k), x)
  {
    var ls := Without(lists, s, k);
    forall u, j: nat | u in ls && j < |ls[u]| ensures WaitsAt(ls, u, j, x) {
      assert WaitsAt(lists, u, if u == s && k <= j then j + 1 else j, x);
    }
  }

  /** The second oldest chunk of a size may take over the node once the oldest has left. */
  lemma SuccessorMayHold(l: Layout, lists: Lists, loose: set<nat>, s: nat)
    requires Binned(l, lists, loose) && s in lists && s >= MIN_TREE_SIZE && |lists[s]| > 1
    ensures MayHoldNode(l, Without(lists, s, 0), lists[s][1])
  {
    var ls := Without(lists, s, 0);
    assert MemberAt(l, lists, loose, s, 1);
    forall u, j: nat | u in ls && j < |ls[u]| ensures WaitsAt(ls, u, j, lists[s][1]) {
      if u == s { assert ls[s][j] == lists[s][j + 1]; }
      else { assert MemberAt(l, lists, loose, u, j); }
    }
  }

  ghost function HeadMoved(t: Trie, p: Pos, r: nat): Trie {
    Trie(t.size, t.pos, t.node[p := r])
  }

  lemma MatchesSuccessor(l: Layout, lists: Lists, loose: set<nat>, t: Trie, s: nat)
    requires Binned(l, lists, loose) && Matches(lists, t) && s in t.pos && s in lists && |lists[s]| > 1
    ensures Matches(Without(lists, s, 0), HeadMoved(t, t.pos[s], lists[s][1]))
  {
    var ls, n := Without(lists, s, 0), HeadMoved(t, t.pos[s], lists[s][1]);
    assert SizeAt(t, s);
    forall p | p in n.size ensures KeyAt(n, p) { assert KeyAt(t, p); }
    forall u | u in n.pos ensures SizeAt(n, u) { assert SizeAt(t, u); }
    forall p | p in n.size ensures ResidentAt(ls, n, p) { assert ResidentAt(lists, t, p) && KeyAt(t, p); }
    forall u ensures LargeAt(ls, n, u) { assert LargeAt(lists, t, u); }
  }

  lemma NodesClearOf(l: Layout, lists: Lists, loose: set<nat>, sb: nat, t: Trie, r: nat)
    requires BinsReady(l, lists, loose, sb) && Matches(lists, t) && LargeFree(l, r) && r !in t.node.Values
    ensures forall q {:trigger t.node[q]} :: q in t.node ==> t.node[q] + 32 <= r || r + 32 <= t.node[q]
  {
    forall q | q in t.node ensures t.node[q] + 32 <= r || r + 32 <= t.node[q] {
      NodeChunk(l, lists, loose, sb, t, q);
      assert t.node[q] in t.node.Values;
      LargeApart(l, t.node[q], r);
    }
  }

  lemma WaiterNotNode(l: Layout, lists: Lists, loose: set<nat>, sb: nat, t: Trie, s: nat, k: nat)
    requires BinsReady(l, lists, loose, sb) && Matches(lists, t) && s in lists && 0 < k < |lists[s]|
    ensures lists[s][k] !in t.node.Values
  {
    assert MemberAt(l, lists, loose, s, k);
    assert lists[s][0] != lists[s][k];
    forall p | p in t.node ensures t.node[p] != lists[s][k] {
      NodeChunk(l, lists, loose, sb, t, p);
    }
  }

  /** The memory image after the oldest chunk x of a shared size hands its node to the next. */
  ghost function HandedOver(m: Mem, sb: nat, nodes: Nodes, p: Pos, x: nat): Mem {
    ReplaceWords(UnlinkBetween(m, Fd(m, x), Bk(m, x)), sb, nodes, p, Bk(m, x))
  }

  /** unlink_large_chunk for a resident chunk with others of its size waiting. */
  lemma HeadUnlinked(l: Layout, lists: Lists, loose: set<nat>, sb: nat, t: Trie, x: nat, m: Mem, treemap: bv32,
          roots: seq<nat>)
    requires BinsReady(l, lists, loose, sb) && TreeReady(m, treemap, roots, sb, lists, t) && LargeFree(l, x)
    requires l.chunks[x].size in lists && |lists[l.chunks[x].size]| > 1 && lists[l.chunks[x].size][0] == x
    ensures var s := l.chunks[x].size;
      s in t.pos && t.pos[s].bin < |roots| && Bk(m, x) == lists[s][1]
      && TreeReady(HandedOver(m, sb, t.node, t.pos[s], x), treemap, RootsWith(roots, t.pos[s], Bk(m, x)), sb,
           Without(lists, s, 0), HeadMoved(t, t.pos[s], Bk(m, x)))
      && LargeWrites(l, m, HandedOver(m, sb, t.node, t.pos[s], x))
  {
    hide Marked, TreeWords, UnlinkBetween, Chains, ReplaceWords, RootsWith, Shaped, Matches;
    var s := l.chunks[x].size;
    MatchesLarge(lists, t, s);
    MatchesPos(lists, t, s);
    var p, f, r := t.pos[s], Fd(m, x), Bk(m, x);
    var m1 := UnlinkBetween(m, f, r);
    var m2 := ReplaceWords(m1, sb, t.node, p, r);
    var ls := Without(lists, s, 0);
    RingUnlinked(l, lists, loose, sb, x, 0, m);
    SuccessorChildless(l, lists, loose, sb, s, m, m1, f, r, x);
    TreeWordsLinks(l, lists, loose, sb, t, roots, m, m1, s, r, f, x);
    TreeWordsSize(m1, roots, sb, t.node);
    NodesShaped(l, lists, loose, sb, t);
    WaiterNotNode(l, lists, loose, sb, t, s, 1);
    NodesClearOf(l, lists, loose, sb, t, r);
    assert FitsAt(l, r);
    Replaced(m1, roots, sb, t.node, p, r);
    ReplaceTreeWrites(m1, roots, sb, t.node, p, r);
    NodesMayHold(l, lists, loose, sb, t);
    SuccessorMayHold(l, lists, loose, s);
    forall y | y in t.node.Values + {r} ensures MayHoldNode(l, ls, y) {
      if y in t.node.Values { MayHoldFewer(l, lists, s, 0, y); }
    }
    BinnedWithout(l, lists, loose, x, 0);
    ChainsTreeWrites(l, ls, loose + {x}, sb, m1, m2, t.node.Values + {r});
    MatchesSuccessor(l, lists, loose, t, s);
    LinkingIsLarge(l, r, f, x, m, m1);
    TreeWritesAreLarge(l, ls, m1, m2, t.node.Values + {r});
    LargeWritesTransitive(l, m, m1, m2);
    TreemapSame(treemap, t, HeadMoved(t, p, r));
  }

  lemma TreemapSame(treemap: bv32, t: Trie, n: Trie)
    requires forall i: nat {:trigger TreemapAt(treemap, t, i)} :: i < 32 ==> TreemapAt(treemap, t, i)
    requires n.size.Keys == t.size.Keys
    ensures forall i: nat {:trigger TreemapAt(treemap, n, i)} :: i < 32 ==> TreemapAt(treemap, n, i)
  {
    hide Marked;
    forall i: nat | i < 32 ensures TreemapAt(treemap, n, i) {
      assert TreemapAt(treemap, t, i);
      assert Root(i) in n.size <==> Root(i) in n.size.Keys;
    }
  }

  lemma MatchesPos(lists: Lists, t: Trie, s: nat)
    requires Matches(lists, t) && s in t.pos
    ensures s in lists && |lists[s]| > 0
    ensures t.pos[s] in t.size && t.size[t.pos[s]] == s && t.pos[s] in t.node && t.node[t.pos[s]] == lists[s][0]
    ensures KeyAt(t, t.pos[s]) && t.pos[s].bin < 32
  {
    assert SizeAt(t, s);
    assert ResidentAt(lists, t, t.pos[s]) && KeyAt(t, t.pos[s]);
    IndexBound(s);
  }

  lemma SuccessorChildless(l: Layout, lists: Lists, loose: set<nat>, sb: nat, s: nat, m: Mem, m1: Mem, f: nat, r: nat,
          x: nat)
    requires BinsReady(l, lists, loose, sb) && Chains(m, lists) && s in lists && |lists[s]| > 1 && r == lists[s][1]
    requires OfSize(l, s, r) && OfSize(l, s, f) && OfSize(l, s, x) && Touches(m, m1, {r + 8, f + 8, x + 8})
    ensures Child(m1, r, 0) == 0 && Child(m1, r, 1) == 0
  {
    assert ChainAt(m, lists, s, 1);
    LinksApart(l, s, r, f, x, r);
    assert SameAt(m, m1, r + 16);
  }

  lemma ChainsFewer(lists: Lists, s: nat, m: Mem)
    requires Chains(m, lists)
    ensures Chains(m, lists - {s})
  {
    var ls := lists - {s};
    forall u | u in ls ensures LargeRingAt(m, ls, u) { assert LargeRingAt(m, lists, u); }
    forall u, k: nat | u in ls && k < |ls[u]| ensures ChainAt(m, ls, u, k) { assert ChainAt(m, lists, u, k); }
  }

  lemma MatchesLeafGone(lists: Lists, t: Trie, s: nat)
    requires Matches(lists, t) && s in t.pos && t.pos[s] in t.size && t.pos[s].bit > 0 && TrieLeaf(t, t.pos[s])
    ensures Matches(lists - {s}, RemoveSize(t, t.pos[s]))
  {
    MatchesPos(lists, t, s);
    var ls, n := lists - {s}, RemoveSize(t, t.pos[s]);
    SizeRemoved(t, t.pos[s]);
    forall p | p in n.size ensures ResidentAt(ls, n, p) { assert ResidentAt(lists, t, p) && KeyAt(t, p); }
    forall u ensures LargeAt(ls, n, u) { assert LargeAt(lists, t, u); }
  }

  lemma TreemapWithout(treemap: bv32, t: Trie, q: Pos)
    requires q in t.size && q.bin < 32 && (q.bit == RootBit(q.bin) ==> q == Root(q.bin))
    requires forall i: nat {:trigger TreemapAt(treemap, t, i)} :: i < 32 ==> TreemapAt(treemap, t, i)
    ensures var map' := if q.bit == RootBit(q.bin) then BinMaps.Clear(treemap, q.bin) else treemap;
      forall i: nat {:trigger TreemapAt(map', RemoveSize(t, q), i)} :: i < 32 ==> TreemapAt(map', RemoveSize(t, q), i)
  {
    hide Marked, BinMaps.Clear;
    var map' := if q.bit == RootBit(q.bin) then BinMaps.Clear(treemap, q.bin) else treemap;
    forall i: nat | i < 32 ensures TreemapAt(map', RemoveSize(t, q), i) {
      assert TreemapAt(treemap, t, i);
      MarkBin(treemap, q.bin, i);
    }
  }

  lemma PosBits(lists: Lists, t: Trie, p: Pos)
    requires Matches(lists, t) && p in t.size
    ensures 2 <= p.bit <= RootBit(p.bin) && p.bin < 32 && p in t.node
    ensures p.bit == RootBit(p.bin) ==> p == Root(p.bin)
    ensures p.bit == RootBit(p.bin) || Up(p) in t.node
  {
    assert KeyAt(t, p);
    PathRoot(t.size[p]);
  }

  lemma LeafOfTrie(lists: Lists, t: Trie, p: Pos)
    requires Matches(lists, t) && p.bit > 0 && TrieLeaf(t, p)
    ensures Leaf(t.node, p)
  {
  }

  /** unlink_large_chunk for the only chunk of its size, at a leaf. */
  lemma LeafUnlinked(l: Layout, lists: Lists, loose: set<nat>, sb: nat, t: Trie, x: nat, m: Mem, treemap: bv32,
          roots: seq<nat>)
    requires BinsReady(l, lists, loose, sb) && TreeReady(m, treemap, roots, sb, lists, t)
    requires x in l.chunks && l.chunks[x].size in t.pos && t.pos[l.chunks[x].size] in t.size
    requires t.pos[l.chunks[x].size].bit > 0 && TrieLeaf(t, t.pos[l.chunks[x].size])
    ensures var s := l.chunks[x].size; var p := t.pos[s];
      && p.bin < |roots| && p.bin < 32
      && TreeReady(SlotWords(m, t.node, p, 0), if p.bit == RootBit(p.bin) then BinMaps.Clear(treemap, p.bin)
          else treemap,
           RootsWith(roots, p, 0), sb, lists - {s}, RemoveSize(t, p))
      && LargeWrites(l, m, SlotWords(m, t.node, p, 0))
  {
    hide Marked, BinMaps.Clear, TreeWords, Chains, SlotWords, RootsWith, Shaped, Matches;
    var s := l.chunks[x].size;
    var p := t.pos[s];
    var m' := SlotWords(m, t.node, p, 0);
    PosBits(lists, t, p);
    NodesShaped(l, lists, loose, sb, t);
    TreeWordsSize(m, roots, sb, t.node);
    LeafOfTrie(lists, t, p);
    Detached(m, roots, sb, t.node, p);
    SlotTreeWrites(m, t.node, p, 0);
    NodesMayHold(l, lists, loose, sb, t);
    ChainsTreeWrites(l, lists, loose, sb, m, m', t.node.Values);
    ChainsFewer(lists, s, m');
    MatchesLeafGone(lists, t, s);
    TreemapWithout(treemap, t, p);
    TreeWritesAreLarge(l, lists, m, m', t.node.Values);
  }

  lemma MatchesHoisted(lists: Lists, t: Trie, s: nat, q: Pos)
    requires Matches(lists, t) && s in t.pos && t.pos[s] in t.size && q in t.size && q in t.node && q != t.pos[s]
    requires Under(t.pos[s], q) && q.bit > 0 && TrieLeaf(t, q)
    ensures Matches(lists - {s}, HoistSize(t, t.pos[s], q))
  {
    MatchesPos(lists, t, s);
    var ls, n := lists - {s}, HoistSize(t, t.pos[s], q);
    SizeHoisted(t, t.pos[s], q);
    assert KeyAt(t, q) && ResidentAt(lists, t, q);
    forall p | p in n.size ensures ResidentAt(ls, n, p) { assert ResidentAt(lists, t, p) && KeyAt(t, p); }
    forall u ensures LargeAt(ls, n, u) { assert LargeAt(lists, t, u); }
  }

  /** The memory image after leaf q, below p, takes over the node at p. */
  ghost function Hoisted(m: Mem, sb: nat, nodes: Nodes, p: Pos, q: Pos): Mem {
    ReplaceWords(SlotWords(m, nodes, q, 0), sb, nodes - {q}, p, Get(nodes, q))
  }

  lemma TreemapHoisted(treemap: bv32, t: Trie, p: Pos, q: Pos)
    requires forall i: nat {:trigger TreemapAt(treemap, t, i)} :: i < 32 ==> TreemapAt(treemap, t, i)
    requires p in t.size && q in t.size && q in t.node && q.bit < RootBit(q.bin)
    ensures forall i: nat {:trigger TreemapAt(treemap, HoistSize(t, p, q), i)} :: i < 32 ==>
      TreemapAt(treemap, HoistSize(t, p, q), i)
  {
    hide Marked;
    var n := HoistSize(t, p, q);
    forall i: nat | i < 32 ensures TreemapAt(treemap, n, i) { assert TreemapAt(treemap, t, i); }
  }

  lemma LeafChildless(l: Layout, lists: Lists, loose: set<nat>, sb: nat, t: Trie, q: Pos, m: Mem, roots: seq<nat>)
    requires BinsReady(l, lists, loose, sb) && Matches(lists, t) && TreeWords(m, roots, sb, t.node) && Shaped(t.node)
    requires q in t.node && q.bit > 0 && TrieLeaf(t, q)
    ensures Child(SlotWords(m, t.node, q, 0), t.node[q], 0) == 0 && Child(SlotWords(m, t.node, q, 0), t.node[q], 1) == 0
  {
    assert NodeAt(m, sb, t.node, q);
    SlotEffect(m, roots, sb, t.node, q, 0, q);
    UpNotSelf(q);
  }

  lemma NodesClearOfLeaf(nodes: Nodes, q: Pos)
    requires Shaped(nodes) && q in nodes
    ensures forall p {:trigger (nodes - {q})[p]} :: p in nodes - {q} ==>
      (nodes - {q})[p] + 32 <= nodes[q] || nodes[q] + 32 <= (nodes - {q})[p]
    ensures nodes[q] > 0
  {
    assert PlacedAt(nodes, q);
    forall p | p in nodes - {q} ensures (nodes - {q})[p] + 32 <= nodes[q] || nodes[q] + 32 <= (nodes - {q})[p] {
      assert SpreadAt(nodes, p, q);
    }
  }

  lemma ValuesFewer(nodes: Nodes, q: Pos)
    requires q in nodes
    ensures (nodes - {q}).Values + {nodes[q]} <= nodes.Values
  {
    forall y | y in (nodes - {q}).Values ensures y in nodes.Values {
      var p :| p in nodes - {q} && (nodes - {q})[p] == y;
      assert nodes[p] == y;
    }
  }

  /** unlink_large_chunk for the only chunk of its size, at an inner node: a leaf below it moves up. */
  lemma InnerUnlinked(l: Layout, lists: Lists, loose: set<nat>, sb: nat, t: Trie, x: nat, q: Pos, m: Mem, treemap: bv32,
          roots: seq<nat>)
    requires BinsReady(l, lists, loose, sb) && TreeReady(m, treemap, roots, sb, lists, t)
    requires x in l.chunks && l.chunks[x].size in t.pos && t.pos[l.chunks[x].size] in t.size
    requires q in t.size && q in t.node && q != t.pos[l.chunks[x].size] && Under(t.pos[l.chunks[x].size], q)
    requires q.bit > 0 && TrieLeaf(t, q)
    ensures var s := l.chunks[x].size; var p := t.pos[s];
      && p.bin < |roots|
      && TreeReady(Hoisted(m, sb, t.node, p, q), treemap, RootsWith(roots, p, t.node[q]), sb, lists - {s},
          HoistSize(t, p, q))
      && LargeWrites(l, m, Hoisted(m, sb, t.node, p, q))
  {
    hide Marked, TreeWords, Chains, SlotWords, ReplaceWords, RootsWith, Shaped, Matches, TreeWrites;
    var s := l.chunks[x].size;
    var p, r := t.pos[s], t.node[q];
    var n1 := t.node - {q};
    var m1 := SlotWords(m, t.node, q, 0);
    var m2 := ReplaceWords(m1, sb, n1, p, r);
    MatchesPos(lists, t, s);
    PosBits(lists, t, p);
    PosBits(lists, t, q);
    SamePosition(p, q);
    NodesShaped(l, lists, loose, sb, t);
    TreeWordsSize(m, roots, sb, t.node);
    LeafOfTrie(lists, t, q);
    Detached(m, roots, sb, t.node, q);
    NotRootSlot(roots, q, 0);
    ShapedWithout(t.node, q);
    LeafChildless(l, lists, loose, sb, t, q, m, roots);
    NodesClearOfLeaf(t.node, q);
    Replaced(m1, roots, sb, n1, p, r);
    HoistNodes(t, p, q);
    SlotTreeWrites(m, t.node, q, 0);
    ReplaceTreeWrites(m1, roots, sb, n1, p, r);
    ValuesFewer(t.node, q);
    TreeWritesMore(m1, m2, n1.Values + {r}, t.node.Values);
    TreeWritesTransitive(m, m1, m2, t.node.Values);
    NodesMayHold(l, lists, loose, sb, t);
    ChainsTreeWrites(l, lists, loose, sb, m, m2, t.node.Values);
    ChainsFewer(lists, s, m2);
    MatchesHoisted(lists, t, s, q);
    TreemapHoisted(treemap, t, p, q);
    TreeWritesAreLarge(l, lists, m, m2, t.node.Values);
  }

  lemma SamePosition(p: Pos, q: Pos)
    requires Under(p, q) && p.bit <= RootBit(p.bin) && p != q
    ensures q.bit < RootBit(q.bin)
  {
    assert q.bit == p.bit ==> Shr(q.prefix, 0) == q.prefix;
  }

  lemma NotRootSlot(roots: seq<nat>, q: Pos, x: nat)
    requires q.bin < |roots| && q.bit < RootBit(q.bin)
    ensures RootsWith(roots, q, x) == roots
  {
  }

  lemma HoistNodes(t: Trie, p: Pos, q: Pos)
    requires p in t.size && q in t.size && q in t.node
    ensures HoistSize(t, p, q).node == (t.node - {q})[p := t.node[q]]
  {
  }
}
