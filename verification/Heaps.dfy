/** The heap invariant: tags, bins and tries in one memory, and the frames between them. */
module Heaps {
  import opened Memory
  import opened Layouts
  import opened Tags
  import opened Rings
  import opened Payloads
  import opened Bins
  import opened Ages
  import opened BinMaps
  import opened SmallBins
  import opened TreeIndices
  import opened Tries
  import opened TreeBins

  /** Linear memory and the bin fields of malloc_state. */
  datatype Store = Store(mem: Mem, smallmap: bv32, treemap: bv32, roots: seq<nat>)

  /** What the store represents, and when each listed chunk was listed. */
  datatype View = View(l: Layout, lists: Lists, t: Trie, ages: Ages)

  /** x enters the list of its size, as the youngest. */
  ghost function Enlisted(v: View, s: nat, x: nat): View {
    v.(lists := With(v.lists, s, x), ages := Arrived(v.ages, x))
  }

  /** The k-th chunk of the list of size s leaves it. */
  ghost function Delisted(v: View, s: nat, k: nat): View
    requires s in v.lists && k < |v.lists[s]|
  {
    v.(lists := Without(v.lists, s, k))
  }

  /** What one operation did to the lists, and what several did. */
  ghost predicate SteadySince(v: View, v': View) { Steady(v.lists, v.ages, v'.lists, v'.ages) }
  ghost predicate AgingSince(v: View, v': View) { Aging(v.lists, v.ages, v'.lists, v'.ages) }

  /** The free lists are as they were. */
  ghost predicate SameLists(v0: View, v: View) {
    v.lists == v0.lists && v.ages == v0.ages
  }

  /** Everything do_check_malloc_state demands, except that the loose chunks are in no bin, and the order of age. */
  ghost predicate Core(st: Store, sb: nat, v: View, loose: set<nat>) {
    && BinsReady(v.l, v.lists, loose, sb)
    && v.l.end + TOP_FOOT_SIZE < WORD
    && ByAge(v.lists, v.ages)
    && Tagged(st.mem, v.l)
    && SmallReady(st.mem, st.smallmap, sb, v.lists)
    && TreeReady(st.mem, st.treemap, st.roots, sb, v.lists, v.t)
  }

  // frames

  ghost predicate SmallKept(sb: nat, lists: Lists, m: Mem, m': Mem, s: nat)
    requires s in lists
  {
    s < MIN_LARGE_SIZE ==>
      forall k: nat {:trigger SmallRing(sb, lists, s)[k]} ::
        k < |SmallRing(sb, lists, s)| ==> SameAt(m, m', SmallRing(sb, lists, s)[k] + 8)
  }

  lemma SmallBinsFrame(m: Mem, m': Mem, smallmap: bv32, sb: nat, lists: Lists)
    requires SmallReady(m, smallmap, sb, lists)
    requires forall s {:trigger SmallKept(sb, lists, m, m', s)} :: s in lists ==> SmallKept(sb, lists, m, m', s)
    ensures SmallReady(m', smallmap, sb, lists)
  {
    hide Marked;
    forall s | s in lists ensures SmallAt(m', sb, lists, s) {
      assert SmallAt(m, sb, lists, s) && SmallKept(sb, lists, m, m', s);
      if s < MIN_LARGE_SIZE { RingFrame(m, m', SmallRing(sb, lists, s)); }
    }
  }

  ghost predicate LargeKept(lists: Lists, m: Mem, m': Mem, s: nat, k: nat)
    requires s in lists && k < |lists[s]|
  {
    s >= MIN_TREE_SIZE ==>
      SameAt(m, m', lists[s][k] + 8) && SameAt(m, m', lists[s][k] + 16) && SameAt(m, m', lists[s][k] + 24)
  }

  lemma TreeBinsFrame(m: Mem, m': Mem, treemap: bv32, roots: seq<nat>, sb: nat, lists: Lists, t: Trie)
    requires TreeReady(m, treemap, roots, sb, lists, t)
    requires forall s, k: nat {:trigger LargeKept(lists, m, m', s, k)} :: s in lists && k < |lists[s]| ==>
      LargeKept(lists, m, m', s, k)
    ensures TreeReady(m', treemap, roots, sb, lists, t)
  {
    hide Marked;
    forall p | p in t.node ensures SameAt(m, m', t.node[p] + 16) && SameAt(m, m', t.node[p] + 24) {
      assert ResidentAt(lists, t, p) && KeyAt(t, p) && LargeKept(lists, m, m', t.size[p], 0);
    }
    TreeWordsFrame(m, m', roots, sb, t.node);
    forall s | s in lists ensures LargeRingAt(m', lists, s) {
      assert LargeRingAt(m, lists, s);
      if s >= MIN_TREE_SIZE {
        forall k: nat | k < |lists[s]| ensures SameAt(m, m', lists[s][k] + 8) { assert LargeKept(lists, m, m', s, k); }
        RingFrame(m, m', lists[s]);
      }
    }
    forall s, k: nat | s in lists && k < |lists[s]| ensures ChainAt(m', lists, s, k) {
      assert ChainAt(m, lists, s, k) && LargeKept(lists, m, m', s, k);
    }
  }

  lemma NotLargeBody(l: Layout, y: nat)
    requires Tiled(l) && y < l.first
    ensures !LargeBody(l, y)
  {
    forall c | c in l.chunks ensures !InBody(l, c, y) { assert FitsAt(l, c); }
  }

  lemma SmallNotLargeBody(l: Layout, x: nat)
    requires Tiled(l) && x in l.chunks && l.chunks[x].size < MIN_TREE_SIZE && x + 8 < Next(l, x)
    ensures !LargeBody(l, x + 8)
  {
    forall c | c in l.chunks && l.chunks[c].size >= MIN_TREE_SIZE ensures !InBody(l, c, x + 8) {
      assert FitsAt(l, c) && FitsAt(l, x) && ApartAt(l, c, x) && ApartAt(l, x, c);
    }
  }

  /** Working on tree bins leaves the small bins alone. */
  lemma SmallUnderLarge(l: Layout, lists: Lists, loose: set<nat>, sb: nat, m: Mem, m': Mem, smallmap: bv32)
    requires BinsReady(l, lists, loose, sb) && SmallReady(m, smallmap, sb, lists) && LargeWrites(l, m, m')
    ensures SmallReady(m', smallmap, sb, lists)
  {
    forall s | s in lists ensures SmallKept(sb, lists, m, m', s) {
      if s < MIN_LARGE_SIZE {
        forall k: nat | k < |SmallRing(sb, lists, s)| ensures SameAt(m, m', SmallRing(sb, lists, s)[k] + 8) {
          RingElement(l, lists, loose, sb, s, k);
          if k == 0 { NotLargeBody(l, sb + s + 8); }
          else { MemberFits(l, lists, loose, s, k - 1); SmallNotLargeBody(l, lists[s][k - 1]); }
        }
      }
    }
    SmallBinsFrame(m, m', smallmap, sb, lists);
  }

  lemma ClassNotLarge(l: Layout, sb: nat, s: nat, a: nat, x: nat)
    requires Tiled(l) && sb + 264 <= l.first && 16 <= s < MIN_LARGE_SIZE && OfClass(l, sb, s, a)
    requires x in l.chunks && l.chunks[x].size >= MIN_TREE_SIZE
    ensures a + 8 != x + 8 && a + 8 != x + 16 && a + 8 != x + 24
  {
    assert FitsAt(l, x);
    if a in l.chunks { assert FitsAt(l, a) && ApartAt(l, a, x) && ApartAt(l, x, a); }
  }

  /** Working on a small bin leaves the tree bins alone. */
  lemma LargeUnderSmall(l: Layout, lists: Lists, loose: set<nat>, sb: nat, t: Trie, s: nat, a: nat, b: nat, c: nat,
          m: Mem, m': Mem, treemap: bv32, roots: seq<nat>)
    requires BinsReady(l, lists, loose, sb) && TreeReady(m, treemap, roots, sb, lists, t) && 16 <= s < MIN_LARGE_SIZE
    requires OfClass(l, sb, s, a) && OfClass(l, sb, s, b) && OfClass(l, sb, s, c)
    requires Touches(m, m', {a + 8, b + 8, c + 8})
    ensures TreeReady(m', treemap, roots, sb, lists, t)
  {
    forall u, k: nat | u in lists && k < |lists[u]| ensures LargeKept(lists, m, m', u, k) {
      assert MemberAt(l, lists, loose, u, k);
      if u >= MIN_TREE_SIZE {
        ClassNotLarge(l, sb, s, a, lists[u][k]);
        ClassNotLarge(l, sb, s, b, lists[u][k]);
        ClassNotLarge(l, sb, s, c, lists[u][k]);
      }
    }
    TreeBinsFrame(m, m', treemap, roots, sb, lists, t);
  }

  lemma LargeWritesAreLinks(l: Layout, m: Mem, m': Mem)
    requires LargeWrites(l, m, m')
    ensures LinkWrites(l, m, m')
  {
    forall y | !LinkWord(l, y) ensures SameAt(m, m', y) {
      assert !LargeBody(l, y);
    }
  }

  /** A small size entering or leaving the lists means nothing to the tries. */
  lemma TreeBinsSmallLists(m: Mem, treemap: bv32, roots: seq<nat>, sb: nat, lists: Lists, lists': Lists, t: Trie,
          s: nat)
    requires TreeReady(m, treemap, roots, sb, lists, t) && s < MIN_LARGE_SIZE
    requires forall u {:trigger u in lists'} {:trigger u in lists} :: u != s ==> (u in lists' <==> u in lists)
    requires forall u {:trigger lists'[u]} :: u != s && u in lists' ==> lists'[u] == lists[u]
    ensures TreeReady(m, treemap, roots, sb, lists', t)
  {
    hide Marked;
    forall p | p in t.size ensures ResidentAt(lists', t, p) { assert ResidentAt(lists, t, p) && KeyAt(t, p); }
    forall u ensures LargeAt(lists', t, u) { assert LargeAt(lists, t, u); }
    forall u | u in lists' ensures LargeRingAt(m, lists', u) { if u != s { assert LargeRingAt(m, lists, u); } }
    forall u, k: nat | u in lists' && k < |lists'[u]| ensures ChainAt(m, lists', u, k) {
      if u != s { assert ChainAt(m, lists, u, k); }
    }
  }

  /** A large size entering or leaving the lists means nothing to the small bins. */
  lemma SmallBinsLargeLists(m: Mem, smallmap: bv32, sb: nat, lists: Lists, lists': Lists, s: nat)
    requires SmallReady(m, smallmap, sb, lists) && s >= MIN_LARGE_SIZE
    requires forall u {:trigger u in lists'} {:trigger u in lists} :: u != s ==> (u in lists' <==> u in lists)
    requires forall u {:trigger lists'[u]} :: u != s && u in lists' ==> lists'[u] == lists[u]
    ensures SmallReady(m, smallmap, sb, lists')
  {
    hide Marked;
    forall u | u in lists' ensures SmallAt(m, sb, lists', u) {
      if u != s {
        assert SmallAt(m, sb, lists, u);
        assert SmallRing(sb, lists', u) == SmallRing(sb, lists, u);
      }
    }
    forall i: nat | i < 32 ensures MapAt(smallmap, lists', i) { assert MapAt(smallmap, lists, i); }
  }
}
