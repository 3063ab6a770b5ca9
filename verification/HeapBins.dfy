/** Binning steps: what entering and leaving a bin does to the whole heap. */
module HeapBins {
  import opened Memory
  import opened Layouts
  import opened Tags
  import opened Rings
  import opened Payloads
  import opened Bins
  import opened Ages
  import opened BinMaps
  import opened SmallBins
  import opened TreeIndices
  import opened Positions
  import opened Tries
  import opened TreeBins
  import opened Heaps

  /** A chunk that a bin may take: free, loose, and not top. */
  ghost predicate Bindable(l: Layout, loose: set<nat>, p: nat) {
    p in loose && p in l.chunks && !l.chunks[p].inuse && Next(l, p) != l.end
  }

  ghost predicate Step(st: Store, st': Store, sb: nat, v: View, v': View, loose: set<nat>) {
    v'.l == v.l && Core(st', sb, v', loose) && Quiet(Live(v.l), st.mem, st'.mem)
  }

  lemma SmallMarked(st: Store, sb: nat, v: View, loose: set<nat>, s: nat)
    requires Core(st, sb, v, loose) && s % 8 == 0 && s < MIN_LARGE_SIZE
    ensures SmallIndex(s) < 32 && (Marked(st.smallmap, SmallIndex(s)) <==> s in v.lists)
  {
    hide Marked, TreeReady, Tagged;
    assert MapAt(st.smallmap, v.lists, SmallIndex(s));
  }

  /** A loose chunk is in no list, so listing it keeps the order of age. */
  lemma AgesWith(l: Layout, lists: Lists, loose: set<nat>, ages: Ages, s: nat, x: nat)
    requires Binned(l, lists, loose) && x in loose && ByAge(lists, ages)
    ensures ByAge(With(lists, s, x), Arrived(ages, x))
  {
    hide Binned, ByAge;
    forall u: nat ensures !Queued(lists, u, x) { if u in lists { NotListed(l, lists, loose, u, x); } }
    ByAgeWith(lists, ages, s, x);
  }

  ghost function SmallInsertedStore(st: Store, sb: nat, v: View, p: nat, s: nat): Store {
    var f := if s in v.lists then Fd(st.mem, Header(sb, s)) else Header(sb, s);
    st.(mem := LinkBetween(st.mem, f, Header(sb, s), p),
        smallmap := if s in v.lists || s / 8 >= 32 then st.smallmap else Mark(st.smallmap, SmallIndex(s)))
  }

  lemma CoreSmallInserted(st: Store, sb: nat, v: View, loose: set<nat>, p: nat)
    requires Core(st, sb, v, loose) && Bindable(v.l, loose, p) && v.l.chunks[p].size < MIN_LARGE_SIZE
    ensures var s := v.l.chunks[p].size;
      && Step(st, SmallInsertedStore(st, sb, v, p, s), sb, v, Enlisted(v, s, p), loose - {p})
      && (s in v.lists ==> Fd(st.mem, Header(sb, s)) >= v.l.first)
  {
    hide Marked, Mark, SmallReady, TreeReady, Tagged, LinkBetween;
    var s := v.l.chunks[p].size;
    var b := Header(sb, s);
    var f := if s in v.lists then Fd(st.mem, b) else b;
    var st', lists' := SmallInsertedStore(st, sb, v, p, s), With(v.lists, s, p);
    assert FitsAt(v.l, p);
    SmallInserted(v.l, v.lists, loose, sb, p, f, st.mem, st.smallmap, st'.mem, st'.smallmap);
    LargeUnderSmall(v.l, v.lists, loose, sb, v.t, s, b, f, p, st.mem, st'.mem, st.treemap, st.roots);
    TreeBinsSmallLists(st'.mem, st.treemap, st.roots, sb, v.lists, lists', v.t, s);
    LinksOfClass(v.l, sb, s, b, f, p, st.mem, st'.mem);
    LinkWritesKeep(v.l, st.mem, st'.mem);
    BinnedWith(v.l, v.lists, loose, p);
    AgesWith(v.l, v.lists, loose, v.ages, s, p);
    if s in v.lists { RingHead(v.l, v.lists, loose, sb, s, st.mem, st.smallmap); }
  }

  lemma RingHead(l: Layout, lists: Lists, loose: set<nat>, sb: nat, s: nat, m: Mem, smallmap: bv32)
    requires BinsReady(l, lists, loose, sb) && SmallReady(m, smallmap, sb, lists) && s in lists && s < MIN_LARGE_SIZE
    ensures Fd(m, Header(sb, s)) == lists[s][|lists[s]| - 1] && Fd(m, Header(sb, s)) >= l.first
  {
    hide Marked;
    assert SmallAt(m, sb, lists, s) && RingAt(m, SmallRing(sb, lists, s), 0);
    MemberFits(l, lists, loose, s, |lists[s]| - 1);
  }

  ghost function SmallUnlinkedStore(st: Store, p: nat, s: nat): Store {
    var f, b := Fd(st.mem, p), Bk(st.mem, p);
    st.(mem := if b == f then st.mem else UnlinkBetween(st.mem, f, b),
        smallmap := if b == f && s / 8 < 32 then BinMaps.Clear(st.smallmap, SmallIndex(s)) else st.smallmap)
  }

  ghost predicate ListedAs(v: View, p: nat, k: nat) {
    && p in v.l.chunks && v.l.chunks[p].size in v.lists
    && k < |v.lists[v.l.chunks[p].size]| && v.lists[v.l.chunks[p].size][k] == p
  }

  lemma FindListed(st: Store, sb: nat, v: View, loose: set<nat>, p: nat) returns (k: nat)
    requires Core(st, sb, v, loose) && p in v.l.chunks && !v.l.chunks[p].inuse && p !in loose
    ensures ListedAs(v, p, k)
  {
    hide SmallReady, TreeReady, Tagged;
    k := Find(v.l, v.lists, loose, p);
  }

  lemma CoreSmallUnlinked(st: Store, sb: nat, v: View, loose: set<nat>, p: nat, k: nat)
    requires Core(st, sb, v, loose) && ListedAs(v, p, k) && v.l.chunks[p].size < MIN_LARGE_SIZE
    ensures var s := v.l.chunks[p].size;
      && Step(st, SmallUnlinkedStore(st, p, s), sb, v, Delisted(v, s, k), loose + {p})
      && NeighboursOk(st.mem, v.l, sb, p)
  {
    hide Marked, BinMaps.Clear, SmallReady, TreeReady, Tagged, UnlinkBetween;
    var s := v.l.chunks[p].size;
    var f, b := Fd(st.mem, p), Bk(st.mem, p);
    var st', lists' := SmallUnlinkedStore(st, p, s), Without(v.lists, s, k);
    MemberFits(v.l, v.lists, loose, s, k);
    SmallUnlinked(v.l, v.lists, loose, sb, p, k, f, b, st.mem, st.smallmap, st'.mem, st'.smallmap);
    LargeUnderSmall(v.l, v.lists, loose, sb, v.t, s, b, f, p, st.mem, st'.mem, st.treemap, st.roots);
    TreeBinsSmallLists(st'.mem, st.treemap, st.roots, sb, v.lists, lists', v.t, s);
    LinksOfClass(v.l, sb, s, b, f, p, st.mem, st'.mem);
    LinkWritesKeep(v.l, st.mem, st'.mem);
    BinnedWithout(v.l, v.lists, loose, p, k);
    ByAgeWithout(v.lists, v.ages, s, k);
    SmallNeighbours(v.l, v.lists, loose, sb, p, k, st.mem, st.smallmap);
  }

  /** What RTCHECK asks of a chunk's ring neighbours before relinking them. */
  ghost predicate NeighboursOk(m: Mem, l: Layout, sb: nat, p: nat)
    requires p in l.chunks
  {
    var f, b := Fd(m, p), Bk(m, p);
    && f != p && b != p
    && (f == Header(sb, l.chunks[p].size) || (f >= l.first && Bk(m, f) == p))
    && (b == Header(sb, l.chunks[p].size) || (b >= l.first && Fd(m, b) == p))
  }

  lemma SmallNeighbours(l: Layout, lists: Lists, loose: set<nat>, sb: nat, p: nat, k: nat, m: Mem, smallmap: bv32)
    requires BinsReady(l, lists, loose, sb) && SmallReady(m, smallmap, sb, lists)
    requires p in l.chunks && l.chunks[p].size in lists && l.chunks[p].size < MIN_LARGE_SIZE
    requires k < |lists[l.chunks[p].size]| && lists[l.chunks[p].size][k] == p
    ensures NeighboursOk(m, l, sb, p)
  {
    hide Marked;
    var s := l.chunks[p].size;
    var r := SmallRing(sb, lists, s);
    var n := if k + 2 == |r| then 0 else k + 2;
    assert SmallAt(m, sb, lists, s) && RingAt(m, r, k + 1) && RingAt(m, r, k) && RingAt(m, r, n);
    SmallRingDistinct(l, lists, loose, sb, s);
    RingElement(l, lists, loose, sb, s, k);
    RingElement(l, lists, loose, sb, s, n);
    assert r[k] != r[k + 1];
    assert n != 0 ==> r[n] != r[k + 1];
  }

  lemma BindableLarge(st: Store, sb: nat, v: View, loose: set<nat>, x: nat)
    requires Core(st, sb, v, loose) && Bindable(v.l, loose, x) && v.l.chunks[x].size >= MIN_TREE_SIZE
    ensures LooseLarge(v.l, loose, x) && TreeSize(v.l.chunks[x].size)
  {
    hide SmallReady, TreeReady, Tagged;
    assert FitsAt(v.l, x);
  }

  /** x starts a new size at bit level b of its path. */
  ghost predicate NewNodeAt(v: View, x: nat, b: nat)
    requires x in v.l.chunks
  {
    var s := v.l.chunks[x].size;
    && s !in v.t.pos && PathPos(s, b) !in v.t.size && 2 <= b <= RootBit(TreeIndex(s))
    && (b < RootBit(TreeIndex(s)) ==> PathPos(s, b + 1) in v.t.size)
  }

  ghost function NodeInsertedStore(st: Store, sb: nat, v: View, q: Pos, x: nat): Store
    requires q.bin < 32 && q.bin < |st.roots|
  {
    st.(mem := InsertedWords(st.mem, sb, v.t.node, q, x),
        treemap := if q.bit == RootBit(q.bin) then Mark(st.treemap, q.bin) else st.treemap,
        roots := RootsWith(st.roots, q, x))
  }

  lemma CoreNodeInserted(st: Store, sb: nat, v: View, loose: set<nat>, x: nat, b: nat)
    requires Core(st, sb, v, loose) && Bindable(v.l, loose, x) && v.l.chunks[x].size >= MIN_TREE_SIZE
    requires NewNodeAt(v, x, b)
    ensures var s := v.l.chunks[x].size; var q := PathPos(s, b);
      && q.bin < 32 && |st.roots| == 32 && s !in v.lists
      && Step(st, NodeInsertedStore(st, sb, v, q, x), sb, v, Enlisted(v, s, x).(t := AddSize(v.t, s, q, x)),
          loose - {x})
  {
    hide Marked, Mark, SmallReady, TreeReady, Tagged, InsertedWords, RootsWith;
    var s := v.l.chunks[x].size;
    var q := PathPos(s, b);
    BindableLarge(st, sb, v, loose, x);
    NodeInserted(v.l, v.lists, loose, sb, v.t, x, b, st.mem, st.treemap, st.roots);
    NewSize(st, sb, v, s);
    var st' := NodeInsertedStore(st, sb, v, q, x);
    LargeStep(st, st', sb, v, loose, s, With(v.lists, s, x));
    BinnedWith(v.l, v.lists, loose, x);
    AgesWith(v.l, v.lists, loose, v.ages, s, x);
  }

  lemma NewSize(st: Store, sb: nat, v: View, s: nat)
    requires TreeReady(st.mem, st.treemap, st.roots, sb, v.lists, v.t) && s >= MIN_TREE_SIZE
    ensures s in v.lists <==> s in v.t.pos
  {
    hide Marked;
    assert LargeAt(v.lists, v.t, s);
  }

  /** The small-bin and tag side of a step on a tree bin. */
  lemma LargeStep(st: Store, st': Store, sb: nat, v: View, loose: set<nat>, s: nat, lists': Lists)
    requires Core(st, sb, v, loose) && LargeWrites(v.l, st.mem, st'.mem) && st'.smallmap == st.smallmap
    requires s >= MIN_LARGE_SIZE
    requires forall u {:trigger u in lists'} {:trigger u in v.lists} :: u != s ==> (u in lists' <==> u in v.lists)
    requires forall u {:trigger lists'[u]} :: u != s && u in lists' ==> lists'[u] == v.lists[u]
    ensures SmallReady(st'.mem, st'.smallmap, sb, lists') && Tagged(st'.mem, v.l) && Quiet(Live(v.l), st.mem, st'.mem)
  {
    hide SmallReady, TreeReady, Tagged;
    SmallUnderLarge(v.l, v.lists, loose, sb, st.mem, st'.mem, st.smallmap);
    SmallBinsLargeLists(st'.mem, st'.smallmap, sb, v.lists, lists', s);
    LargeWritesAreLinks(v.l, st.mem, st'.mem);
    LinkWritesKeep(v.l, st.mem, st'.mem);
  }

  ghost function ChainInsertedStore(st: Store, v: View, x: nat, s: nat): Store
    requires s in v.lists && |v.lists[s]| > 0
  {
    st.(mem := ChainedWords(st.mem, x, TreeIndex(s), v.lists[s][0]))
  }

  lemma CoreChainInserted(st: Store, sb: nat, v: View, loose: set<nat>, x: nat)
    requires Core(st, sb, v, loose) && Bindable(v.l, loose, x) && v.l.chunks[x].size >= MIN_TREE_SIZE
    requires v.l.chunks[x].size in v.t.pos
    ensures var s := v.l.chunks[x].size;
      && s in v.lists && |v.lists[s]| > 0
      && Step(st, ChainInsertedStore(st, v, x, s), sb, v, Enlisted(v, s, x), loose - {x})
  {
    hide Marked, SmallReady, TreeReady, Tagged, ChainedWords;
    var s := v.l.chunks[x].size;
    BindableLarge(st, sb, v, loose, x);
    ChainInserted(v.l, v.lists, loose, sb, v.t, x, st.mem, st.treemap, st.roots);
    LargeStep(st, ChainInsertedStore(st, v, x, s), sb, v, loose, s, With(v.lists, s, x));
    BinnedWith(v.l, v.lists, loose, x);
    AgesWith(v.l, v.lists, loose, v.ages, s, x);
  }

  ghost function WaiterUnlinkedStore(st: Store, x: nat): Store {
    st.(mem := UnlinkBetween(st.mem, Fd(st.mem, x), Bk(st.mem, x)))
  }

  lemma CoreWaiterUnlinked(st: Store, sb: nat, v: View, loose: set<nat>, x: nat, k: nat)
    requires Core(st, sb, v, loose) && ListedAs(v, x, k) && k > 0 && v.l.chunks[x].size >= MIN_TREE_SIZE
    ensures Step(st, WaiterUnlinkedStore(st, x), sb, v, Delisted(v, v.l.chunks[x].size, k), loose + {x})
  {
    hide Marked, SmallReady, TreeReady, Tagged, UnlinkBetween;
    var s := v.l.chunks[x].size;
    MemberFits(v.l, v.lists, loose, s, k);
    WaiterUnlinked(v.l, v.lists, loose, sb, v.t, x, k, st.mem, st.treemap, st.roots);
    LargeStep(st, WaiterUnlinkedStore(st, x), sb, v, loose, s, Without(v.lists, s, k));
    BinnedWithout(v.l, v.lists, loose, x, k);
    ByAgeWithout(v.lists, v.ages, s, k);
  }

  /** x is the tree-resident chunk of its size, at position p. */
  ghost predicate ResidentIn(v: View, x: nat, p: Pos) {
    && ListedAs(v, x, 0) && v.l.chunks[x].size >= MIN_TREE_SIZE
    && v.l.chunks[x].size in v.t.pos && v.t.pos[v.l.chunks[x].size] == p
    && p in v.t.size && p in v.t.node && v.t.node[p] == x && v.t.size[p] == v.l.chunks[x].size
    && 2 <= p.bit <= RootBit(p.bin) && p.bin < 32
  }

  lemma ResidentPosition(st: Store, sb: nat, v: View, loose: set<nat>, x: nat)
    requires Core(st, sb, v, loose) && ListedAs(v, x, 0) && v.l.chunks[x].size >= MIN_TREE_SIZE
    ensures v.l.chunks[x].size in v.t.pos && ResidentIn(v, x, v.t.pos[v.l.chunks[x].size])
    ensures |st.roots| == 32 && !v.l.chunks[x].inuse
  {
    hide Marked, SmallReady, Tagged;
    var s := v.l.chunks[x].size;
    assert LargeAt(v.lists, v.t, s) && MemberAt(v.l, v.lists, loose, s, 0);
    MatchesPos(v.lists, v.t, s);
  }

  ghost function HeadUnlinkedStore(st: Store, sb: nat, v: View, p: Pos, x: nat): Store
    requires p.bin < |st.roots|
  {
    st.(mem := HandedOver(st.mem, sb, v.t.node, p, x), roots := RootsWith(st.roots, p, Bk(st.mem, x)))
  }

  lemma CoreHeadUnlinked(st: Store, sb: nat, v: View, loose: set<nat>, x: nat, p: Pos)
    requires Core(st, sb, v, loose) && ResidentIn(v, x, p) && |v.lists[v.l.chunks[x].size]| > 1
    ensures |st.roots| == 32 && Bk(st.mem, x) == v.lists[v.l.chunks[x].size][1]
    ensures var s := v.l.chunks[x].size;
      Step(st, HeadUnlinkedStore(st, sb, v, p, x), sb, v,
        Delisted(v, s, 0).(t := HeadMoved(v.t, p, Bk(st.mem, x))), loose + {x})
  {
    hide Marked, SmallReady, TreeReady, Tagged, HandedOver, RootsWith;
    var s := v.l.chunks[x].size;
    ResidentPosition(st, sb, v, loose, x);
    HeadUnlinked(v.l, v.lists, loose, sb, v.t, x, st.mem, st.treemap, st.roots);
    LargeStep(st, HeadUnlinkedStore(st, sb, v, p, x), sb, v, loose, s, Without(v.lists, s, 0));
    BinnedWithout(v.l, v.lists, loose, x, 0);
    ByAgeWithout(v.lists, v.ages, s, 0);
  }

  ghost function LeafUnlinkedStore(st: Store, v: View, p: Pos): Store
    requires p.bin < |st.roots| && p.bin < 32
  {
    st.(mem := SlotWords(st.mem, v.t.node, p, 0),
        treemap := if p.bit == RootBit(p.bin) then BinMaps.Clear(st.treemap, p.bin) else st.treemap,
        roots := RootsWith(st.roots, p, 0))
  }

  lemma CoreLeafUnlinked(st: Store, sb: nat, v: View, loose: set<nat>, x: nat, p: Pos)
    requires Core(st, sb, v, loose) && ResidentIn(v, x, p) && |v.lists[v.l.chunks[x].size]| == 1 && TrieLeaf(v.t, p)
    ensures |st.roots| == 32
    ensures var s := v.l.chunks[x].size;
      Step(st, LeafUnlinkedStore(st, v, p), sb, v, Delisted(v, s, 0).(t := RemoveSize(v.t, p)), loose + {x})
  {
    hide Marked, BinMaps.Clear, SmallReady, TreeReady, Tagged, SlotWords, RootsWith;
    var s := v.l.chunks[x].size;
    ResidentPosition(st, sb, v, loose, x);
    LeafUnlinked(v.l, v.lists, loose, sb, v.t, x, st.mem, st.treemap, st.roots);
    LargeStep(st, LeafUnlinkedStore(st, v, p), sb, v, loose, s, v.lists - {s});
    BinnedWithout(v.l, v.lists, loose, x, 0);
    ByAgeWithout(v.lists, v.ages, s, 0);
  }

  ghost function InnerUnlinkedStore(st: Store, sb: nat, v: View, p: Pos, q: Pos): Store
    requires p.bin < |st.roots| && q in v.t.node
  {
    st.(mem := Hoisted(st.mem, sb, v.t.node, p, q), roots := RootsWith(st.roots, p, v.t.node[q]))
  }

  lemma CoreInnerUnlinked(st: Store, sb: nat, v: View, loose: set<nat>, x: nat, p: Pos, q: Pos)
    requires Core(st, sb, v, loose) && ResidentIn(v, x, p) && |v.lists[v.l.chunks[x].size]| == 1
    requires q in v.t.size && q in v.t.node && q != p && Under(p, q) && q.bit > 0 && TrieLeaf(v.t, q)
    ensures |st.roots| == 32
    ensures var s := v.l.chunks[x].size;
      Step(st, InnerUnlinkedStore(st, sb, v, p, q), sb, v, Delisted(v, s, 0).(t := HoistSize(v.t, p, q)), loose + {x})
  {
    hide Marked, SmallReady, TreeReady, Tagged, Hoisted, RootsWith;
    var s := v.l.chunks[x].size;
    ResidentPosition(st, sb, v, loose, x);
    InnerUnlinked(v.l, v.lists, loose, sb, v.t, x, q, st.mem, st.treemap, st.roots);
    LargeStep(st, InnerUnlinkedStore(st, sb, v, p, q), sb, v, loose, s, v.lists - {s});
    BinnedWithout(v.l, v.lists, loose, x, 0);
    ByAgeWithout(v.lists, v.ages, s, 0);
  }

  /** Writing the fields of a loose large chunk keeps the heap invariant. */
  lemma CoreLooseFields(st: Store, sb: nat, v: View, loose: set<nat>, x: nat, m': Mem)
    requires Core(st, sb, v, loose) && Bindable(v.l, loose, x) && v.l.chunks[x].size >= MIN_TREE_SIZE
    requires LooseTouches(st.mem, m', x)
    ensures Step(st, st.(mem := m'), sb, v, v, loose)
  {
    hide Marked, SmallReady, Tagged, TreeWords, Chains, Matches;
    LooseIsLarge(v.l, x, st.mem, m');
    ChainsLoose(v.l, v.lists, loose, sb, st.mem, m', x);
    TreeWordsLoose(v.l, v.lists, loose, sb, v.t, st.roots, st.mem, m', x);
    LargeStep(st, st.(mem := m'), sb, v, loose, v.l.chunks[x].size, v.lists);
  }

  /** What memory shows of the tree node at p. */
  lemma ReadNode(st: Store, sb: nat, v: View, loose: set<nat>, p: Pos)
    requires Core(st, sb, v, loose) && p in v.t.size
    ensures p in v.t.node && p.bin < 32 && 2 <= p.bit <= RootBit(p.bin) && v.t.size[p] in v.lists
    ensures |v.lists[v.t.size[p]]| > 0
    ensures var x := v.t.node[p];
      && x > 0 && x >= v.l.first && x in v.l.chunks && !v.l.chunks[x].inuse
      && v.l.chunks[x].size == v.t.size[p] >= MIN_TREE_SIZE
      && x == v.lists[v.t.size[p]][0] && x !in loose
      && ChunkSize(st.mem, x) == v.t.size[p]
      && Child(st.mem, x, 0) == Get(v.t.node, Down(p, 0)) && Child(st.mem, x, 1) == Get(v.t.node, Down(p, 1))
      && Parent(st.mem, x) == ParentRef(sb, v.t.node, p)
      && Index(st.mem, x) == p.bin
    ensures Shaped(v.t.node) && v.t.size[p] in v.t.pos && v.t.pos[v.t.size[p]] == p
  {
    hide Marked, SmallReady;
    PosBits(v.lists, v.t, p);
    NodeChunk(v.l, v.lists, loose, sb, v.t, p);
    NodesShaped(v.l, v.lists, loose, sb, v.t);
    ReadHead(st.mem, v.l, v.t.node[p]);
    assert NodeAt(st.mem, sb, v.t.node, p) && KeyAt(v.t, p);
    assert ChainAt(st.mem, v.lists, v.t.size[p], 0);
  }

  /** What malloc_state shows of the tree bin i. */
  lemma ReadRoot(st: Store, sb: nat, v: View, loose: set<nat>, i: nat)
    requires Core(st, sb, v, loose) && i < 32
    ensures |st.roots| == 32 && st.roots[i] == Get(v.t.node, Root(i))
    ensures Marked(st.treemap, i) <==> Root(i) in v.t.size
    ensures Root(i) in v.t.size <==> Root(i) in v.t.node
    ensures st.roots[i] != 0 <==> Root(i) in v.t.size
  {
    hide Marked, SmallReady, Tagged;
    assert RootAt(st.roots, v.t.node, i) && TreemapAt(st.treemap, v.t, i);
    assert Root(i) in v.t.size <==> Root(i) in v.t.size.Keys;
    if Root(i) in v.t.node { NodeChunk(v.l, v.lists, loose, sb, v.t, Root(i)); }
  }
}
