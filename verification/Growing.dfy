/** Giving the heap memory: the first top chunk, and a longer one. */
module Growing {
  import opened Memory
  import opened Layouts
  import opened Tags
  import opened Payloads
  import opened Bins
  import opened Ages
  import opened BinMaps
  import opened SmallBins
  import opened TreeIndices
  import opened Positions
  import opened Tries
  import opened TreeBins
  import opened Heaps

  /** init_top's two head words: top itself, and the fake chunk of TOP_FOOT_SIZE behind it. */
  function TopHeads(m: Mem, p: nat, psize: nat): Mem {
    SetHead(SetHead(m, p, psize + 1), p + psize, TOP_FOOT_SIZE)
  }

  ghost function Extend(l: Layout, top: nat, delta: nat): Layout
    requires top in l.chunks
  {
    l.(end := l.end + delta, chunks := l.chunks[top := l.chunks[top].(size := l.chunks[top].size + delta)])
  }

  lemma ExtendTiled(l: Layout, top: nat, delta: nat)
    requires Tiled(l) && top in l.chunks && Next(l, top) == l.end && delta % 8 == 0
    ensures Tiled(Extend(l, top, delta))
  {
    var n := Extend(l, top, delta);
    assert FitsAt(l, top);
    EightMore(l.end, delta);
    EightMore(l.chunks[top].size, delta);
    forall p | p in n.chunks ensures FitsAt(n, p) && LinkedAt(n, p) {
      assert FitsAt(l, p) && LinkedAt(l, p);
      if p != top { TopIsLast(l, top, p); }
    }
    forall p, q | p in n.chunks && q in n.chunks ensures ApartAt(n, p, q) {
      assert FitsAt(l, q) && ApartAt(l, p, q);
    }
  }

  lemma TopIsLast(l: Layout, top: nat, p: nat)
    requires Tiled(l) && top in l.chunks && Next(l, top) == l.end && p in l.chunks && p != top
    ensures Next(l, p) <= top
  {
    assert FitsAt(l, p) && FitsAt(l, top) && ApartAt(l, p, top) && ApartAt(l, top, p);
  }

  lemma ExtendTagged(l: Layout, top: nat, delta: nat, m: Mem)
    requires Tiled(l) && Tagged(m, l) && top in l.chunks && Next(l, top) == l.end && !l.chunks[top].inuse
    requires l.chunks[top].pin
    ensures Tagged(TopHeads(m, top, l.chunks[top].size + delta), Extend(l, top, delta))
  {
    var n, m' := Extend(l, top, delta), TopHeads(m, top, l.chunks[top].size + delta);
    assert FitsAt(l, top);
    forall p | p in n.chunks ensures TagAt(m', n, p) {
      assert TagAt(m, l, p) && FitsAt(l, p);
      if p != top { TopIsLast(l, top, p); }
    }
  }

  lemma ExtendBinned(l: Layout, lists: Lists, loose: set<nat>, top: nat, delta: nat)
    requires Tiled(l) && Binned(l, lists, loose) && top in loose && top in l.chunks && Next(l, top) == l.end
    ensures Binned(Extend(l, top, delta), lists, loose)
  {
    var n := Extend(l, top, delta);
    assert FitsAt(l, top);
    forall s, k: nat | s in lists && k < |lists[s]| ensures MemberAt(n, lists, loose, s, k) {
      assert MemberAt(l, lists, loose, s, k);
    }
    forall p | p in n.chunks ensures FoundAt(n, lists, loose, p) {
      assert FoundAt(l, lists, loose, p) && FitsAt(l, p);
      if p != top { TopIsLast(l, top, p); }
    }
    forall p | p in loose ensures LooseAt(n, p) { assert LooseAt(l, p); }
  }

  lemma ExtendKeepsBins(l: Layout, lists: Lists, loose: set<nat>, sb: nat, t: Trie, top: nat, delta: nat, m: Mem,
          smallmap: bv32, treemap: bv32, roots: seq<nat>)
    requires BinsReady(l, lists, loose, sb) && top in loose && top in l.chunks && Next(l, top) == l.end
    requires SmallReady(m, smallmap, sb, lists) && TreeReady(m, treemap, roots, sb, lists, t)
    ensures var m' := TopHeads(m, top, l.chunks[top].size + delta);
      SmallReady(m', smallmap, sb, lists) && TreeReady(m', treemap, roots, sb, lists, t)
  {
    hide SmallReady, TreeReady;
    var m' := TopHeads(m, top, l.chunks[top].size + delta);
    assert FitsAt(l, top);
    forall s | s in lists ensures SmallKept(sb, lists, m, m', s) {
      if s < MIN_LARGE_SIZE {
        forall k: nat | k < |SmallRing(sb, lists, s)| ensures SameAt(m, m', SmallRing(sb, lists, s)[k] + 8) {
          if k > 0 { ListedBelowTop(l, lists, loose, top, s, k - 1); }
        }
      }
    }
    SmallBinsFrame(m, m', smallmap, sb, lists);
    forall s, k: nat | s in lists && k < |lists[s]| ensures LargeKept(lists, m, m', s, k) {
      ListedBelowTop(l, lists, loose, top, s, k);
    }
    TreeBinsFrame(m, m', treemap, roots, sb, lists, t);
  }

  lemma ListedBelowTop(l: Layout, lists: Lists, loose: set<nat>, top: nat, s: nat, k: nat)
    requires Tiled(l) && Binned(l, lists, loose) && top in loose && top in l.chunks && Next(l, top) == l.end
    requires s in lists && k < |lists[s]|
    ensures lists[s][k] + s <= top && s >= 16
  {
    MemberFits(l, lists, loose, s, k);
    TopIsLast(l, top, lists[s][k]);
  }

  lemma LiveExtended(l: Layout, top: nat, delta: nat)
    requires top in l.chunks && !l.chunks[top].inuse
    ensures Live(Extend(l, top, delta)) == Live(l)
  {
  }

  /** Growing top in place keeps everything else. */
  lemma CoreExtended(st: Store, sb: nat, v: View, loose: set<nat>, top: nat, delta: nat, m': Mem)
    requires Core(st, sb, v, loose) && top in loose && top in v.l.chunks && Next(v.l, top) == v.l.end
    requires !v.l.chunks[top].inuse
    requires delta % 8 == 0 && v.l.end + delta + TOP_FOOT_SIZE < WORD
    requires m' == TopHeads(st.mem, top, v.l.chunks[top].size + delta)
    ensures Core(st.(mem := m'), sb, v.(l := Extend(v.l, top, delta)), loose)
    ensures Live(Extend(v.l, top, delta)) == Live(v.l) && Quiet(Live(v.l), st.mem, m')
  {
    hide SmallReady, TreeReady, Tagged, Binned;
    assert LinkedAt(v.l, top);
    ExtendTiled(v.l, top, delta);
    ExtendTagged(v.l, top, delta, st.mem);
    ExtendBinned(v.l, v.lists, loose, top, delta);
    ExtendKeepsBins(v.l, v.lists, loose, sb, v.t, top, delta, st.mem, st.smallmap, st.treemap, st.roots);
    LiveExtended(v.l, top, delta);
    forall p | p in Live(v.l) ensures PayloadKept(st.mem, m', p, Live(v.l)[p]) {
      TopIsLast(v.l, top, p);
      assert FitsAt(v.l, top) && FitsAt(v.l, p);
    }
  }

  // the first top chunk

  ghost function NoTrie(): Trie {
    Trie(map[], map[], map[])
  }

  ghost function FreshView(p: nat, psize: nat): View {
    View(Layout(p, p + psize, map[p := Chunk(psize, false, true)]), map[], NoTrie(), Ages(map[], 0))
  }

  lemma ZeroMap(i: nat)
    requires i < 32
    ensures !Marked(0, i)
  {
    hide Marked;
    ZeroSet(Idx(i));
    MarkedIsSet(0, i);
  }

  lemma ZeroSet(k: bv32)
    requires k < 32
    ensures !BinMaps.Set(0, k)
  {
  }

  lemma MarkedIsSet(m: bv32, i: nat)
    requires i < 32
    ensures Marked(m, i) == BinMaps.Set(m, Idx(i))
  {
    hide Idx, BinMaps.Set;
  }

  /** An empty bin structure over a single free chunk, top. */
  lemma CoreFresh(st: Store, sb: nat, p: nat, psize: nat, m0: Mem)
    requires st.smallmap == 0 && st.treemap == 0 && st.roots == seq(32, _ => 0)
    requires p % 8 == 0 && psize % 8 == 0 && psize >= 8 && p + psize + TOP_FOOT_SIZE < WORD && sb + 264 <= p
    requires st.mem == TopHeads(m0, p, psize)
    ensures Core(st, sb, FreshView(p, psize), {p}) && Live(FreshView(p, psize).l) == map[]
  {
    hide Marked;
    var v := FreshView(p, psize);
    assert FitsAt(v.l, p) && LinkedAt(v.l, p) && ApartAt(v.l, p, p) && TagAt(st.mem, v.l, p);
    assert FoundAt(v.l, v.lists, {p}, p) && LooseAt(v.l, p);
    forall i: nat | i < 32 ensures MapAt(0, v.lists, i) && TreemapAt(0, v.t, i) && RootAt(st.roots, v.t.node, i) {
      ZeroMap(i);
    }
    forall s ensures LargeAt(v.lists, v.t, s) { }
  }
}
