/** Retiling steps: what writing head and foot words does to the whole heap. */
module HeapSteps {
  import opened Memory
  import opened Layouts
  import opened Tags
  import opened Payloads
  import opened Bins
  import opened SmallBins
  import opened Tries
  import opened TreeBins
  import opened Heaps

  /** The live allocations outside [a, e). */
  ghost function LiveOutside(l: Layout, a: nat, e: nat): map<nat, nat> {
    map p | p in l.chunks && l.chunks[p].inuse && !(a <= p < e) :: l.chunks[p].size
  }

  ghost predicate Flying(l: Layout, loose: set<nat>, p: nat)
    requires p in l.chunks
  {
    l.chunks[p].inuse || p in loose
  }

  /** The chunks in [a, e) are in use or loose, and the loose set is updated to match n. */
  ghost predicate Lifted(l: Layout, n: Layout, loose: set<nat>, loose': set<nat>, a: nat, e: nat) {
    && (forall p {:trigger Flying(l, loose, p)} :: p in l.chunks && a <= p < e ==> Flying(l, loose, p))
    && (forall p {:trigger p in loose'} {:trigger p in loose} :: !(a <= p < e) ==> (p in loose' <==> p in loose))
    && (forall p {:trigger p in loose'} :: a <= p < e ==> (p in loose' <==> p in n.chunks && !n.chunks[p].inuse))
  }

  lemma SpliceBinned(l: Layout, n: Layout, lists: Lists, loose: set<nat>, loose': set<nat>, a: nat, e: nat, pin: bool)
    requires Tiled(l) && Tiled(n) && Spliced(l, n, a, e, pin) && Binned(l, lists, loose)
    requires Lifted(l, n, loose, loose', a, e)
    ensures Binned(n, lists, loose')
  {
    assert e in l.chunks ==> FitsAt(l, e);
    forall s, k: nat | s in lists && k < |lists[s]| ensures MemberAt(n, lists, loose', s, k) {
      assert MemberAt(l, lists, loose, s, k);
      assert Flying(l, loose, lists[s][k]) == (lists[s][k] in loose || l.chunks[lists[s][k]].inuse);
    }
    forall p | p in n.chunks ensures FoundAt(n, lists, loose', p) {
      assert FitsAt(n, p);
      if !(a <= p < e) { SpliceOutside(l, n, a, e, pin, p); assert FoundAt(l, lists, loose, p); }
    }
    forall p | p in loose' ensures LooseAt(n, p) {
      if !(a <= p < e) { assert LooseAt(l, p); }
    }
  }

  lemma ListedOutside(l: Layout, lists: Lists, loose: set<nat>, a: nat, e: nat, s: nat, k: nat)
    requires Tiled(l) && Binned(l, lists, loose) && s in lists && k < |lists[s]| && a in l.chunks
    requires forall p {:trigger Flying(l, loose, p)} :: p in l.chunks && a <= p < e ==> Flying(l, loose, p)
    ensures lists[s][k] + s <= a || e <= lists[s][k]
  {
    var x := lists[s][k];
    assert MemberAt(l, lists, loose, s, k) && ApartAt(l, x, a);
    assert a <= x < e ==> Flying(l, loose, x);
  }

  /** Retagging lifted chunks disturbs no bin. */
  lemma SpliceKeepsBins(l: Layout, lists: Lists, loose: set<nat>, sb: nat, t: Trie, a: nat, b: nat, e: nat, m: Mem,
          m': Mem, smallmap: bv32, treemap: bv32, roots: seq<nat>)
    requires BinsReady(l, lists, loose, sb) && a in l.chunks && a <= b < e && TagWrites(m, m', a, b, e)
    requires forall p {:trigger Flying(l, loose, p)} :: p in l.chunks && a <= p < e ==> Flying(l, loose, p)
    requires SmallReady(m, smallmap, sb, lists) && TreeReady(m, treemap, roots, sb, lists, t)
    ensures SmallReady(m', smallmap, sb, lists) && TreeReady(m', treemap, roots, sb, lists, t)
  {
    hide SmallReady, TreeReady;
    assert FitsAt(l, a);
    forall s | s in lists ensures SmallKept(sb, lists, m, m', s) {
      if s < MIN_LARGE_SIZE {
        forall k: nat | k < |SmallRing(sb, lists, s)| ensures SameAt(m, m', SmallRing(sb, lists, s)[k] + 8) {
          if k > 0 { ListedOutside(l, lists, loose, a, e, s, k - 1); MemberFits(l, lists, loose, s, k - 1); }
        }
      }
    }
    SmallBinsFrame(m, m', smallmap, sb, lists);
    forall s, k: nat | s in lists && k < |lists[s]| ensures LargeKept(lists, m, m', s, k) {
      ListedOutside(l, lists, loose, a, e, s, k);
    }
    TreeBinsFrame(m, m', treemap, roots, sb, lists, t);
  }

  ghost predicate Retiled(st: Store, st': Store, v: View, v': View) {
    && st' == st.(mem := st'.mem)
    && v' == v.(l := v'.l)
  }

  lemma CoreSplice(st: Store, st': Store, sb: nat, v: View, v': View, loose: set<nat>, loose': set<nat>, a: nat, b: nat,
          e: nat, pin: bool)
    requires Core(st, sb, v, loose) && Retiled(st, st', v, v')
    requires Spliced(v.l, v'.l, a, e, pin) && Lifted(v.l, v'.l, loose, loose', a, e) && a <= b < e
    requires Tiled(v'.l) && Tagged(st'.mem, v'.l) && TagWrites(st.mem, st'.mem, a, b, e)
    ensures Core(st', sb, v', loose') && Quiet(LiveOutside(v.l, a, e), st.mem, st'.mem)
  {
    hide SmallReady, TreeReady, Tagged, TagWrites;
    SpliceBinned(v.l, v'.l, v.lists, loose, loose', a, e, pin);
    SpliceKeepsBins(v.l, v.lists, loose, sb, v.t, a, b, e, st.mem, st'.mem, st.smallmap, st.treemap, st.roots);
    OutsideApart(v.l, a, e);
    TagWritesQuiet(v.l, a, b, e, st.mem, st'.mem, LiveOutside(v.l, a, e));
  }

  lemma OutsideApart(l: Layout, a: nat, e: nat)
    requires Tiled(l) && a in l.chunks
    ensures forall p {:trigger p in LiveOutside(l, a, e)} :: p in LiveOutside(l, a, e) ==>
      p + LiveOutside(l, a, e)[p] <= a || (e <= p && LiveOutside(l, a, e)[p] > 0)
  {
    forall p | p in LiveOutside(l, a, e)
      ensures p + LiveOutside(l, a, e)[p] <= a || (e <= p && LiveOutside(l, a, e)[p] > 0)
    {
      assert FitsAt(l, p) && ApartAt(l, p, a);
    }
  }

  lemma OneSpliced(l: Layout, a: nat, e: nat, inuse: bool)
    requires Tiled(l) && CanBeOne(l, a, e, inuse)
    ensures Spliced(l, One(l, a, e, inuse), a, e, inuse)
    ensures forall p {:trigger p in One(l, a, e, inuse).chunks} :: a <= p < e && p in One(l, a, e, inuse).chunks ==>
      p == a
  {
    assert FitsAt(l, a);
    assert e in l.chunks ==> FitsAt(l, e);
  }

  lemma TwoIsSplice(l: Layout, a: nat, m: nat, e: nat, inuse: bool)
    requires Tiled(l) && CanBeTwo(l, a, m, e, inuse)
    ensures Spliced(l, Two(l, a, m, e, inuse), a, e, inuse)
    ensures forall p {:trigger p in Two(l, a, m, e, inuse).chunks} ::
      a <= p < e && p in Two(l, a, m, e, inuse).chunks ==> p == a || p == m
  {
    assert FitsAt(l, a);
    assert e in l.chunks ==> FitsAt(l, e);
  }

  /** The loose set after [a, e) becomes free chunks exactly at the addresses in xs. */
  ghost function Relax(loose: set<nat>, a: nat, e: nat, xs: set<nat>): set<nat> {
    (set p | p in loose && !(a <= p < e)) + xs
  }

  ghost predicate Grounded(l: Layout, loose: set<nat>, a: nat, e: nat) {
    forall p {:trigger Flying(l, loose, p)} :: p in l.chunks && a <= p < e ==> Flying(l, loose, p)
  }

  /** The six retiling steps of the allocator. */
  lemma CoreOneFree(st: Store, sb: nat, v: View, loose: set<nat>, a: nat, e: nat, m': Mem)
    requires Core(st, sb, v, loose) && Grounded(v.l, loose, a, e) && CanBeOne(v.l, a, e, false) && e != v.l.end
    requires
      || m' == SetFreeWithPinuse(st.mem, a, e - a, e)
      || (m' == SetSizeAndPinuseOfFreeChunk(st.mem, a, e - a) && !v.l.chunks[e].pin)
    ensures Core(st.(mem := m'), sb, v.(l := One(v.l, a, e, false)), Relax(loose, a, e, {a}))
    ensures Quiet(LiveOutside(v.l, a, e), st.mem, m')
    ensures Live(One(v.l, a, e, false)) == LiveOutside(v.l, a, e)
  {
    hide SmallReady, TreeReady, Tagged, TagWrites, Binned, Tiled, Spliced, One, CanBeOne, SetFreeWithPinuse,
      SetSizeAndPinuseOfFreeChunk;
    LiveOne(v.l, a, e, false);
    OneFree(v.l, a, e, st.mem, m');
    OneSpliced(v.l, a, e, false);
    LiftedOne(v.l, loose, a, e, false);
    CoreSplice(st, st.(mem := m'), sb, v, v.(l := One(v.l, a, e, false)), loose, Relax(loose, a, e, {a}), a, a, e,
      false);
  }

  lemma LiftedOne(l: Layout, loose: set<nat>, a: nat, e: nat, inuse: bool)
    requires Tiled(l) && CanBeOne(l, a, e, inuse) && Grounded(l, loose, a, e)
    ensures a < e && Lifted(l, One(l, a, e, inuse), loose, Relax(loose, a, e, if inuse then {} else {a}), a, e)
  {
    OneSpliced(l, a, e, inuse);
  }

  lemma LiftedTwo(l: Layout, loose: set<nat>, a: nat, b: nat, e: nat, inuse: bool)
    requires Tiled(l) && CanBeTwo(l, a, b, e, inuse) && Grounded(l, loose, a, e)
    ensures a < b < e && Lifted(l, Two(l, a, b, e, inuse), loose, Relax(loose, a, e, if inuse then {} else {b}), a, e)
  {
    TwoIsSplice(l, a, b, e, inuse);
  }

  lemma CoreOneTop(st: Store, sb: nat, v: View, loose: set<nat>, a: nat, m': Mem)
    requires Core(st, sb, v, loose) && Grounded(v.l, loose, a, v.l.end) && CanBeOne(v.l, a, v.l.end, false)
    requires m' == SetHead(st.mem, a, v.l.end - a + 1)
    ensures Core(st.(mem := m'), sb, v.(l := One(v.l, a, v.l.end, false)), Relax(loose, a, v.l.end, {a}))
    ensures Quiet(LiveOutside(v.l, a, v.l.end), st.mem, m')
    ensures Live(One(v.l, a, v.l.end, false)) == LiveOutside(v.l, a, v.l.end)
  {
    hide SmallReady, TreeReady, Tagged, TagWrites, Binned, Tiled, Spliced, One, CanBeOne, SetHead;
    LiveOne(v.l, a, v.l.end, false);
    OneTop(v.l, a, st.mem, m');
    OneSpliced(v.l, a, v.l.end, false);
    LiftedOne(v.l, loose, a, v.l.end, false);
    CoreSplice(st, st.(mem := m'), sb, v, v.(l := One(v.l, a, v.l.end, false)), loose, Relax(loose, a, v.l.end, {a}), a,
      a, v.l.end, false);
  }

  lemma CoreOneInuse(st: Store, sb: nat, v: View, loose: set<nat>, a: nat, e: nat, m': Mem)
    requires Core(st, sb, v, loose) && Grounded(v.l, loose, a, e) && CanBeOne(v.l, a, e, true)
    requires
      || m' == SetInuse(st.mem, a, e - a)
      || (m' == SetInuseAndPinuse(st.mem, a, e - a) && v.l.chunks[a].pin)
    ensures Core(st.(mem := m'), sb, v.(l := One(v.l, a, e, true)), Relax(loose, a, e, {}))
    ensures TagWrites(st.mem, m', a, a, e) && Quiet(LiveOutside(v.l, a, e), st.mem, m')
    ensures Live(One(v.l, a, e, true)) == LiveOutside(v.l, a, e)[a := e - a]
  {
    hide SmallReady, TreeReady, Tagged, TagWrites, Binned, Tiled, Spliced, One, CanBeOne, SetInuse, SetInuseAndPinuse;
    LiveOne(v.l, a, e, true);
    OneInuse(v.l, a, e, st.mem, m');
    OneSpliced(v.l, a, e, true);
    LiftedOne(v.l, loose, a, e, true);
    CoreSplice(st, st.(mem := m'), sb, v, v.(l := One(v.l, a, e, true)), loose, Relax(loose, a, e, {}), a, a, e, true);
  }

  lemma CoreTwoFree(st: Store, sb: nat, v: View, loose: set<nat>, a: nat, b: nat, e: nat, m': Mem)
    requires Core(st, sb, v, loose) && Grounded(v.l, loose, a, e) && CanBeTwo(v.l, a, b, e, false) && e != v.l.end
    requires v.l.chunks[a].pin && !v.l.chunks[e].pin
    requires
      || m' == SetSizeAndPinuseOfFreeChunk(SetSizeAndPinuseOfInuseChunk(st.mem, a, b - a), b, e - b)
      || m' == SetSizeAndPinuseOfInuseChunk(SetSizeAndPinuseOfFreeChunk(st.mem, b, e - b), a, b - a)
    ensures Core(st.(mem := m'), sb, v.(l := Two(v.l, a, b, e, false)), Relax(loose, a, e, {b}))
    ensures Quiet(LiveOutside(v.l, a, e), st.mem, m')
    ensures Live(Two(v.l, a, b, e, false)) == LiveOutside(v.l, a, e)[a := b - a]
  {
    hide SmallReady, TreeReady, Tagged, TagWrites, Binned, Tiled, Spliced, Two, CanBeTwo, SetSizeAndPinuseOfFreeChunk,
      SetSizeAndPinuseOfInuseChunk;
    LiveTwo(v.l, a, b, e, false);
    TwoFree(v.l, a, b, e, st.mem, m');
    TwoIsSplice(v.l, a, b, e, false);
    LiftedTwo(v.l, loose, a, b, e, false);
    CoreSplice(st, st.(mem := m'), sb, v, v.(l := Two(v.l, a, b, e, false)), loose, Relax(loose, a, e, {b}), a, b, e,
      false);
  }

  lemma CoreTwoTop(st: Store, sb: nat, v: View, loose: set<nat>, a: nat, b: nat, m': Mem)
    requires Core(st, sb, v, loose) && Grounded(v.l, loose, a, v.l.end) && CanBeTwo(v.l, a, b, v.l.end, false)
    requires
      || (v.l.chunks[a].pin && m' == SetSizeAndPinuseOfInuseChunk(SetHead(st.mem, b, v.l.end - b + 1), a, b - a))
      || m' == SetHead(SetInuse(st.mem, a, b - a), b, v.l.end - b + 1)
    ensures Core(st.(mem := m'), sb, v.(l := Two(v.l, a, b, v.l.end, false)), Relax(loose, a, v.l.end, {b}))
    ensures TagWrites(st.mem, m', a, b, v.l.end) && Quiet(LiveOutside(v.l, a, v.l.end), st.mem, m')
    ensures Live(Two(v.l, a, b, v.l.end, false)) == LiveOutside(v.l, a, v.l.end)[a := b - a]
  {
    hide SmallReady, TreeReady, Tagged, TagWrites, Binned, Tiled, Spliced, Two, CanBeTwo, SetHead, SetInuse,
      SetSizeAndPinuseOfInuseChunk;
    LiveTwo(v.l, a, b, v.l.end, false);
    TwoTop(v.l, a, b, st.mem, m');
    TwoIsSplice(v.l, a, b, v.l.end, false);
    LiftedTwo(v.l, loose, a, b, v.l.end, false);
    CoreSplice(st, st.(mem := m'), sb, v, v.(l := Two(v.l, a, b, v.l.end, false)), loose, Relax(loose, a, v.l.end, {b}),
      a, b, v.l.end, false);
  }

  lemma CoreTwoInuse(st: Store, sb: nat, v: View, loose: set<nat>, a: nat, b: nat, e: nat, m': Mem)
    requires Core(st, sb, v, loose) && Grounded(v.l, loose, a, e) && CanBeTwo(v.l, a, b, e, true)
    requires
      || m' == SetInuse(SetInuse(st.mem, a, b - a), b, e - b)
      || m' == SetInuse(SetInuse(st.mem, b, e - b), a, b - a)
    ensures Core(st.(mem := m'), sb, v.(l := Two(v.l, a, b, e, true)), Relax(loose, a, e, {}))
    ensures TagWrites(st.mem, m', a, b, e) && Quiet(LiveOutside(v.l, a, e), st.mem, m')
    ensures Live(Two(v.l, a, b, e, true)) == LiveOutside(v.l, a, e)[a := b - a][b := e - b]
  {
    hide SmallReady, TreeReady, Tagged, TagWrites, Binned, Tiled, Spliced, Two, CanBeTwo, SetInuse;
    LiveTwo(v.l, a, b, e, true);
    TwoInuse(v.l, a, b, e, st.mem, m');
    TwoIsSplice(v.l, a, b, e, true);
    LiftedTwo(v.l, loose, a, b, e, true);
    CoreSplice(st, st.(mem := m'), sb, v, v.(l := Two(v.l, a, b, e, true)), loose, Relax(loose, a, e, {}), a, b, e,
      true);
  }

  lemma CoreTwoGrown(st: Store, sb: nat, v: View, loose: set<nat>, a: nat, b: nat, e: nat, m': Mem)
    requires Core(st, sb, v, loose) && Grounded(v.l, loose, a, e) && CanBeTwo(v.l, a, b, e, false) && e != v.l.end
    requires !v.l.chunks[e].pin
    requires m' == ClearPinuse(SetSizeAndPinuseOfFreeChunk(SetInuse(st.mem, a, b - a), b, e - b), e)
    ensures Core(st.(mem := m'), sb, v.(l := Two(v.l, a, b, e, false)), Relax(loose, a, e, {b}))
    ensures TagWrites(st.mem, m', a, b, e) && Quiet(LiveOutside(v.l, a, e), st.mem, m')
    ensures Live(Two(v.l, a, b, e, false)) == LiveOutside(v.l, a, e)[a := b - a]
  {
    hide SmallReady, TreeReady, Tagged, TagWrites, Binned, Tiled, Spliced, Two, CanBeTwo, ClearPinuse, SetInuse,
      SetSizeAndPinuseOfFreeChunk;
    LiveTwo(v.l, a, b, e, false);
    TwoFreeGrown(v.l, a, b, e, st.mem, m');
    TwoIsSplice(v.l, a, b, e, false);
    LiftedTwo(v.l, loose, a, b, e, false);
    CoreSplice(st, st.(mem := m'), sb, v, v.(l := Two(v.l, a, b, e, false)), loose, Relax(loose, a, e, {b}), a, b, e,
      false);
  }

  /** What the retilings do to the live allocations. */
  lemma LiveOne(l: Layout, a: nat, e: nat, inuse: bool)
    requires Tiled(l) && CanBeOne(l, a, e, inuse)
    ensures Live(One(l, a, e, inuse)) == if inuse then LiveOutside(l, a, e)[a := e - a] else LiveOutside(l, a, e)
  {
    assert FitsAt(l, a);
  }

  lemma LiveTwo(l: Layout, a: nat, b: nat, e: nat, inuse: bool)
    requires Tiled(l) && CanBeTwo(l, a, b, e, inuse)
    ensures Live(Two(l, a, b, e, inuse)) ==
      if inuse then LiveOutside(l, a, e)[a := b - a][b := e - b] else LiveOutside(l, a, e)[a := b - a]
  {
    assert FitsAt(l, a);
  }
}
