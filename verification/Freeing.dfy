/** dispose_chunk and dlfree: coalesce a chunk with its free neighbours and put the result away. */
module Freeing {
  import opened Memory
  import opened Layouts
  import opened Tags
  import Rings
  import opened Payloads
  import opened Bins
  import opened Ages
  import opened Heaps
  import opened HeapSteps
  import opened HeapBins
  import opened SmallBins
  import opened TreeBins
  import opened MallocStates
  import opened Policies

  /** [a, e) consists of the in-use chunk p and free neighbours. */
  ghost predicate Surrounds(l: Layout, a: nat, p: nat, e: nat) {
    && a in l.chunks && p in l.chunks && l.chunks[p].inuse && l.chunks[a].pin
    && (a == p || (!l.chunks[a].inuse && Next(l, a) == p))
    && (e == Next(l, p) || (Next(l, p) in l.chunks && !l.chunks[Next(l, p)].inuse && e == Next(l, Next(l, p))))
  }

  lemma SurroundsLive(l: Layout, a: nat, p: nat, e: nat)
    requires Tiled(l) && Surrounds(l, a, p, e)
    ensures LiveOutside(l, a, e) == Live(l) - {p}
    ensures forall q {:trigger q in l.chunks} :: q in l.chunks && a <= q < e ==> q == a || q == p || q == Next(l, p)
    ensures a <= p < Next(l, p) <= e <= l.end && Next(l, p) in l.chunks && Boundary(l, e) && e - a >= 16
    ensures e != Next(l, p) && e != l.end ==> l.chunks[e].inuse && !l.chunks[e].pin
    ensures e == Next(l, p) ==> e != l.end && l.chunks[e].pin
  {
    assert FitsAt(l, a) && FitsAt(l, p) && LinkedAt(l, p) && LinkedAt(l, a) && FitsAt(l, Next(l, p));
    assert LinkedAt(l, Next(l, p));
    forall q | q in l.chunks && a <= q < e ensures q == a || q == p || q == Next(l, p) {
      assert ApartAt(l, a, q) && ApartAt(l, p, q) && ApartAt(l, Next(l, p), q) && FitsAt(l, q);
      assert ApartAt(l, q, p);
    }
  }

  /** What freeing the chunk at p leaves: one live allocation less, on the same segment, with every
      other payload as it was, and the chunks that stay listed in their order. */
  ghost predicate Freed(m: MallocState, v0: View, m0: Mem, p: nat)
    reads m
  {
    && m.Settled() && m.view.l.first == v0.l.first && m.view.l.end == v0.l.end
    && Live(m.view.l) == Live(v0.l) - {p}
    && Quiet(Live(m.view.l), m0, m.mem) && SteadySince(v0, m.view)
  }

  /** Listed chunks are free and of the size they are listed under. */
  ghost predicate Sized(v: View) {
    forall s: nat, x: nat {:trigger Queued(v.lists, s, x)} :: Queued(v.lists, s, x) ==>
      x in v.l.chunks && !v.l.chunks[x].inuse && v.l.chunks[x].size == s
  }

  lemma ListsSized(st: Store, sb: nat, v: View, loose: set<nat>)
    requires Core(st, sb, v, loose)
    ensures Sized(v) && SteadySince(v, v)
  {
    hide SmallReady, TreeReady, Tagged;
    forall s: nat, x: nat | Queued(v.lists, s, x)
      ensures x in v.l.chunks && !v.l.chunks[x].inuse && v.l.chunks[x].size == s
    {
      var k: nat :| k < |v.lists[s]| && v.lists[s][k] == x;
      assert MemberAt(v.l, v.lists, loose, s, k);
    }
    SteadySame(v.lists, v.ages);
  }

  /** Listing the loose chunk x keeps what the lists had, unless x was listed under that size to begin with. */
  lemma SteadyEnlisted(st: Store, sb: nat, v: View, loose: set<nat>, v0: View, s: nat, x: nat, v': View)
    requires Core(st, sb, v, loose) && x in loose && SteadySince(v0, v) && !Queued(v0.lists, s, x)
    requires v'.lists == With(v.lists, s, x) && v'.ages == Arrived(v.ages, x)
    ensures SteadySince(v0, v')
  {
    hide SmallReady, TreeReady, Tagged, Steady;
    forall u: nat ensures !Queued(v.lists, u, x) {
      if u in v.lists { NotListed(v.l, v.lists, loose, u, x); }
    }
    SteadyWith(v0.lists, v0.ages, v.lists, v.ages, s, x);
  }

  lemma SteadyDelisted(v0: View, v: View, s: nat, k: nat, v': View)
    requires SteadySince(v0, v) && s in v.lists && k < |v.lists[s]|
    requires v'.lists == Without(v.lists, s, k) && v'.ages == v.ages
    ensures SteadySince(v0, v')
  {
    hide Steady;
    SteadyWithout(v0.lists, v0.ages, v.lists, v.ages, s, k);
  }

  /** What the free lists say about a layout. */
  ghost predicate Orderly(v: View) {
    && Tiled(v.l) && Sized(v)
    && forall s: nat, x: nat {:trigger Queued(v.lists, s, x)} :: Queued(v.lists, s, x) ==>
          x in v.l.chunks && Next(v.l, x) != v.l.end
  }

  lemma OrderNow(m: MallocState)
    requires m.Settled()
    ensures Orderly(m.view) && SteadySince(m.view, m.view)
  {
    hide Core, Steady, Sized;
    ListsSized(m.St(), m.sb, m.view, m.Resting());
    ListsBelow(m.St(), m.sb, m.view, m.Resting(), m.top);
    CoreTiled(m.St(), m.sb, m.view, m.Resting());
  }

  lemma CoreTiled(st: Store, sb: nat, v: View, loose: set<nat>)
    requires Core(st, sb, v, loose)
    ensures Tiled(v.l)
  {
    hide SmallReady, TreeReady, Binned, Tagged;
  }

  lemma ListsBelow(st: Store, sb: nat, v: View, loose: set<nat>, top: nat)
    requires Core(st, sb, v, loose) && top in loose && top in v.l.chunks && Next(v.l, top) == v.l.end
    ensures forall s: nat, x: nat {:trigger Queued(v.lists, s, x)} :: Queued(v.lists, s, x) ==>
      x in v.l.chunks && Next(v.l, x) != v.l.end
  {
    hide SmallReady, TreeReady, Tagged;
    forall s: nat, x: nat | Queued(v.lists, s, x) ensures x in v.l.chunks && Next(v.l, x) != v.l.end {
      var k: nat :| k < |v.lists[s]| && v.lists[s][k] == x;
      assert MemberAt(v.l, v.lists, loose, s, k);
      NotTop(st, sb, v, loose, x, top);
    }
  }

  /** Freeing the chunk at p makes no chunk that was listed, under its size, in `lists`: where one of them starts
      where p or the free chunk in front of p does, and reaches p, it reaches into the in-use chunk behind. */
  ghost predicate Unlisted(lists: Lists, l: Layout, p: nat) {
    p in l.chunks && forall s: nat, x: nat {:trigger Queued(lists, s, x)} ::
      Queued(lists, s, x) && (x == p || (x in l.chunks && !l.chunks[x].inuse && Next(l, x) == p)) && p < x + s ==>
        Next(l, p) in l.chunks && l.chunks[Next(l, p)].inuse && Next(l, p) < x + s
  }

  /** What was live when the lists were as in v0 had no listed chunk at it or over it. */
  lemma LiveUnlisted(v0: View, l: Layout, p: nat)
    requires Orderly(v0) && p in Live(v0.l) && p in l.chunks
    ensures Unlisted(v0.lists, l, p)
  {
    forall s: nat, x: nat | Queued(v0.lists, s, x) ensures !(x <= p < x + s) {
      assert ApartAt(v0.l, x, p);
    }
  }

  /** Backward coalescing is over: [a, next) is p with the free chunk in front of it, if any, unbinned. */
  ghost predicate Coalescing(m: MallocState, v0: View, m0: Mem, a: nat, p: nat)
    reads m
  {
    && m.top != 0 && m.TopAndDv() && m.Holds(m.Resting() + ({a} - {p}))
    && m.view.l == v0.l && p in v0.l.chunks && Surrounds(v0.l, a, p, Next(v0.l, p))
    && Quiet(Live(v0.l), m0, m.mem) && SteadySince(v0, m.view) && Unlisted(v0.lists, v0.l, p)
  }

  lemma CoalescingFacts(st: Store, sb: nat, v: View, loose: set<nat>, a: nat, p: nat, rest: set<nat>)
    requires Core(st, sb, v, loose) && p in v.l.chunks && Surrounds(v.l, a, p, Next(v.l, p))
    requires loose == rest + ({a} - {p})
    ensures LiveOutside(v.l, a, Next(v.l, p)) == Live(v.l) - {p} && Grounded(v.l, loose, a, Next(v.l, p))
    ensures forall q {:trigger q in v.l.chunks} :: q in v.l.chunks && a <= q < Next(v.l, p) ==> q == a || q == p
    ensures Relax(loose, a, Next(v.l, p), {a}) == loose + {a}
    ensures var n := Next(v.l, p);
      && n in v.l.chunks && a <= p < n < v.l.end && a % 8 == 0 && n - a >= 16 && v.l.chunks[n].pin && n != v.l.end
      && a >= v.l.first > 0
      && ChunkSize(st.mem, n) == v.l.chunks[n].size && Cinuse(st.mem, n) == v.l.chunks[n].inuse && Pinuse(st.mem, n)
      && (v.l.chunks[n].inuse ==> CanBeOne(v.l, a, n, false))
  {
    hide SmallReady, TreeReady;
    SurroundsLive(v.l, a, p, Next(v.l, p));
    forall x | x in loose ensures x == a || !(a <= x < Next(v.l, p)) { assert LooseAt(v.l, x); }
    ReadHead(st.mem, v.l, Next(v.l, p));
    assert FitsAt(v.l, a);
  }

  /** The region grows over the free chunk behind p. */
  lemma ForwardFacts(st: Store, sb: nat, v: View, loose: set<nat>, a: nat, p: nat)
    requires Core(st, sb, v, loose) && p in v.l.chunks && Surrounds(v.l, a, p, Next(v.l, p))
    requires Next(v.l, p) in v.l.chunks
    requires !v.l.chunks[Next(v.l, p)].inuse && Next(v.l, p) in loose && (a != p ==> a in loose)
    ensures var e := Next(v.l, Next(v.l, p));
      && LiveOutside(v.l, a, e) == Live(v.l) - {p} && Grounded(v.l, loose, a, e)
      && a >= v.l.first > 0 && a <= p < Next(v.l, p) < e <= v.l.end
      && CanBeOne(v.l, a, e, false) && (e != v.l.end ==> e in v.l.chunks && !v.l.chunks[e].pin)
      && (forall q {:trigger q in v.l.chunks} ::
           q in v.l.chunks && a <= q < e ==> q == a || q == p || q == Next(v.l, p))
      && Relax(loose, a, e, {a}) == loose - {Next(v.l, p)} + {a}
  {
    hide SmallReady, TreeReady, Tagged;
    var e := Next(v.l, Next(v.l, p));
    assert LinkedAt(v.l, Next(v.l, p));
    SurroundsLive(v.l, a, p, e);
    forall x | x in loose ensures x == a || x == Next(v.l, p) || !(a <= x < e) { assert LooseAt(v.l, x); }
    assert FitsAt(v.l, a) && FitsAt(v.l, Next(v.l, p));
  }

  lemma BackwardFacts(st: Store, sb: nat, v: View, loose: set<nat>, p: nat) returns (a: nat)
    requires Core(st, sb, v, loose) && p in v.l.chunks && v.l.chunks[p].inuse && !v.l.chunks[p].pin
    ensures a in v.l.chunks && !v.l.chunks[a].inuse && Next(v.l, a) == p && a < p
    ensures PrevFoot(st.mem, p) == v.l.chunks[a].size && Surrounds(v.l, a, p, Next(v.l, p)) && a >= v.l.first
    ensures Next(v.l, a) != v.l.end
  {
    hide SmallReady, TreeReady, Binned;
    a := ReadFoot(st.mem, v.l, p);
    assert FitsAt(v.l, a) && FitsAt(v.l, p) && LinkedAt(v.l, a);
  }

  lemma InUseFacts(st: Store, sb: nat, v: View, loose: set<nat>, p: nat)
    requires Core(st, sb, v, loose) && p in v.l.chunks
    ensures ChunkSize(st.mem, p) == v.l.chunks[p].size && Pinuse(st.mem, p) == v.l.chunks[p].pin
    ensures Cinuse(st.mem, p) == v.l.chunks[p].inuse
    ensures p >= v.l.first > 0 && p % 8 == 0 && v.l.chunks[p].size % 8 == 0 && Next(v.l, p) <= v.l.end
    ensures v.l.chunks[p].inuse ==>
      Next(v.l, p) in v.l.chunks && v.l.chunks[Next(v.l, p)].pin && v.l.chunks[p].size >= 16
    ensures v.l.chunks[p].inuse ==> Pinuse(st.mem, Next(v.l, p))
    ensures v.l.chunks[p].inuse && v.l.chunks[p].pin ==> Surrounds(v.l, p, p, Next(v.l, p))
  {
    hide SmallReady, TreeReady, Binned;
    assert FitsAt(v.l, p) && LinkedAt(v.l, p);
    ReadHead(st.mem, v.l, p);
    if v.l.chunks[p].inuse { ReadHead(st.mem, v.l, Next(v.l, p)); }
  }

  /** dv, in front of p, grows over p: the chunk behind p is in use. */
  method AbsorbIntoDv(m: MallocState, p: nat, asize: nat, next: nat, ghost v0: View)
    requires m.view.l == v0.l && SteadySince(v0, m.view)
    requires m.Settled() && p in m.view.l.chunks && next == Next(m.view.l, p)
    requires m.dvsize > 0 && Surrounds(m.view.l, m.dv, p, next) && m.dv != p && next in m.view.l.chunks
    requires m.view.l.chunks[next].inuse
    requires asize == next - m.dv
    modifies m`mem, m`view, m`dvsize
    ensures Freed(m, v0, old(m.mem), p)
    ensures HeapOf(m) == PutAside(old(HeapOf(m)), old(m.dv), next)
  {
    hide Core, Quiet, Grounded, CanBeOne, One, Relax, Steady, PutAside;
    ghost var st, l0, loose := m.St(), m.view.l, m.Resting();
    var a := m.dv;
    CoalescingFacts(st, m.sb, m.view, loose, a, p, loose);
    AsideToDv(HeapOf(m), a, next);
    m.dvsize := asize;
    m.mem := SetFreeWithPinuse(m.mem, a, asize, next);
    CoreOneFree(st, m.sb, m.view, loose, a, next, m.mem);
    OneFreeTop(l0, a, next, m.top);
    m.view := m.view.(l := One(l0, a, next, false));
    assert Relax(loose, a, next, {a}) == {m.top, a};
  }

  lemma OneFreeTop(l: Layout, a: nat, e: nat, top: nat)
    requires a in l.chunks && a < e && top in l.chunks && Next(l, top) == l.end && !(a <= top < e)
    requires Boundary(l, e) && e != l.end && (l.chunks[e].inuse || top != e)
    ensures var n := One(l, a, e, false);
      && top in n.chunks && Next(n, top) == n.end && n.chunks[top].size == l.chunks[top].size
      && n.chunks[top].inuse == l.chunks[top].inuse
      && a in n.chunks && Next(n, a) == e && !n.chunks[a].inuse && n.chunks[a].size == e - a && n.first == l.first
      && n.end == l.end
  {
  }

  /** Take in the chunk in front of p if it is free.  When that chunk is dv and the one
      behind p is in use, dv grows over p and nothing is left to do.  v0 is as in DisposeSince. */
  method ConsolidateBackward(m: MallocState, p: nat, psize: nat, ghost v0: View)
        returns (a: nat, asize: nat, done: bool)
    requires m.view.l == v0.l && SteadySince(v0, m.view) && Unlisted(v0.lists, v0.l, p)
    requires m.Settled() && p in m.view.l.chunks && m.view.l.chunks[p].inuse && psize == m.view.l.chunks[p].size
    modifies m`mem, m`smallmap, m`treemap, m`treebins, m`view, m`dvsize
    ensures done ==> Freed(m, v0, old(m.mem), p)
    ensures done ==> Next(v0.l, p) in v0.l.chunks && v0.l.chunks[Next(v0.l, p)].inuse
    ensures (a == p && v0.l.chunks[p].pin) || (!v0.l.chunks[p].pin && EndsFree(v0.l, a, p))
    ensures var h := old(HeapOf(m)).(lists := if a < p then Delist(old(m.view.lists), p - a, a) else old(m.view.lists));
      HeapOf(m) == if done then PutAside(h, a, Next(v0.l, p)) else h
    ensures !done ==>
      Coalescing(m, v0, old(m.mem), a, p) && asize == p + psize - a && m.dvsize == old(m.dvsize)
    ensures !done && a != p && a == m.dv ==> p + psize in m.view.l.chunks && !m.view.l.chunks[p + psize].inuse
  {
    hide Core, Quiet, One, Steady, Unlisted, PutAside, Delist;
    ghost var v1, l0, m0 := m.view, m.view.l, m.mem;
    a, asize, done := p, psize, false;
    InUseFacts(m.St(), m.sb, m.view, m.Resting(), p);
    var next := p + psize;
    QuietSame(Live(l0), m0);
    assert m.Resting() == m.Resting() + ({a} - {p});
    if !Pinuse(m.mem, p) {
      var prevsize := PrevFoot(m.mem, p);
      ghost var prev := BackwardFacts(m.St(), m.sb, m.view, m.Resting(), p);
      InUseFacts(m.St(), m.sb, m.view, m.Resting(), next);
      assert m.OkAddress(p - prevsize);
      a := p - prevsize;
      asize := prevsize + psize;
      if a != m.dv {
        ghost var k := FindListed(m.St(), m.sb, m.view, m.Resting(), a);
        CoreDelist(m.St(), m.sb, m.view, m.Resting(), a, k);
        m.UnlinkChunk(a, prevsize, m.Resting(), k);
        SteadyDelisted(v0, v1, prevsize, k, m.view);
        assert m.Resting() + {a} == m.Resting() + ({a} - {p});
      } else if Cinuse(m.mem, next) && Pinuse(m.mem, next) {
        CoreNothingToDelist(m.St(), m.sb, m.view, m.Resting(), a, prevsize);
        AbsorbIntoDv(m, p, asize, next, v0);
        done := true;
      } else {
        CoreNothingToDelist(m.St(), m.sb, m.view, m.Resting(), a, prevsize);
        assert m.Resting() == m.Resting() + ({a} - {p});
      }
    }
  }

  /** The chunk behind is top: all of [a, next) joins it. */
  method MergeIntoTop(m: MallocState, a: nat, asize: nat, ghost p: nat, ghost v0: View, ghost m0: Mem)
    requires Coalescing(m, v0, m0, a, p) && asize == Next(v0.l, p) - a && m.top == Next(v0.l, p)
    modifies m`mem, m`view, m`top, m`topsize, m`dv, m`dvsize
    ensures Freed(m, v0, m0, p) && HeapOf(m) == FusedAside(old(HeapOf(m)), a, Next(v0.l, p))
  {
    hide Core, Quiet, Grounded, CanBeOne, One, Relax, Live, LiveOutside, Steady, Unlisted, PutAside, Delist,
      SetHead, With;
    ghost var l0 := v0.l;
    ghost var st, loose := m.St(), m.Resting() + ({a} - {p});
    CoalescingFacts(st, m.sb, m.view, loose, a, p, m.Resting());
    ForwardFacts(st, m.sb, m.view, loose, a, p);
    CoreNothingToDelist(st, m.sb, m.view, loose, m.top, m.topsize);
    AsideToTop(HeapOf(m), a, l0.end);
    m.topsize := m.topsize + asize;
    m.top := a;
    m.mem := SetHead(m.mem, a, m.topsize + 1);
    CoreOneTop(st, m.sb, m.view, loose, a, m.mem);
    OneKeeps(l0, a, l0.end, m.dv);
    if a == m.dv {
      m.dv := 0;
      m.dvsize := 0;
    }
    m.view := m.view.(l := One(l0, a, l0.end, false));
    assert Relax(loose, a, l0.end, {a}) == m.Resting();
    QuietThen(Live(l0), Live(m.view.l), m0, st.mem, m.mem);
  }

  lemma OneKeeps(l: Layout, a: nat, e: nat, q: nat)
    requires a in l.chunks && a < e && Boundary(l, e)
    ensures var n := One(l, a, e, false);
      && n.first == l.first && n.end == l.end
      && a in n.chunks && Next(n, a) == e && !n.chunks[a].inuse && n.chunks[a].size == e - a
      && (q in l.chunks && !(a <= q < e) ==>
           q in n.chunks && n.chunks[q].size == l.chunks[q].size && n.chunks[q].inuse == l.chunks[q].inuse)
  {
  }

  lemma QuietThen(live: map<nat, nat>, fewer: map<nat, nat>, m0: Mem, m1: Mem, m2: Mem)
    requires Quiet(live, m0, m1) && Quiet(fewer, m1, m2)
    requires forall p {:trigger p in fewer} :: p in fewer ==> p in live && fewer[p] == live[p]
    ensures Quiet(fewer, m0, m2)
  {
    hide Quiet;
    QuietFewer(live, fewer, m0, m1);
    QuietTransitive(fewer, m0, m1, m2);
  }

  /** The chunk behind is dv, which now starts at a. */
  method MergeIntoDv(m: MallocState, a: nat, asize: nat, ghost p: nat, ghost v0: View, ghost m0: Mem)
    requires Coalescing(m, v0, m0, a, p) && asize == Next(v0.l, p) - a && m.dvsize > 0 && m.dv == Next(v0.l, p)
    modifies m`mem, m`view, m`dv, m`dvsize
    ensures Freed(m, v0, m0, p) && HeapOf(m) == FusedAside(old(HeapOf(m)), a, Next(v0.l, p))
  {
    hide Core, Quiet, Grounded, CanBeOne, One, Relax, Live, LiveOutside, Steady, Unlisted, PutAside, Delist,
      SetSizeAndPinuseOfFreeChunk, With;
    ghost var l0 := v0.l;
    ghost var st, loose := m.St(), m.Resting() + ({a} - {p});
    ghost var e := Next(l0, m.dv);
    CoalescingFacts(st, m.sb, m.view, loose, a, p, m.Resting());
    ForwardFacts(st, m.sb, m.view, loose, a, p);
    CoreNothingToDelist(st, m.sb, m.view, loose, m.dv, m.dvsize);
    AsideToDv(HeapOf(m), a, e);
    m.dvsize := m.dvsize + asize;
    m.dv := a;
    m.mem := SetSizeAndPinuseOfFreeChunk(m.mem, a, m.dvsize);
    CoreOneFree(st, m.sb, m.view, loose, a, e, m.mem);
    OneKeeps(l0, a, e, m.top);
    m.view := m.view.(l := One(l0, a, e, false));
    assert Relax(loose, a, e, {a}) == m.Resting();
    QuietThen(Live(l0), Live(m.view.l), m0, st.mem, m.mem);
  }

  /** next is a binned free chunk: unlink it and merge. */
  method MergeWithNext(m: MallocState, a: nat, asize: nat, next: nat, ghost p: nat, ghost v0: View, ghost m0: Mem)
    requires Coalescing(m, v0, m0, a, p) && next == Next(v0.l, p) && asize == next - a
    requires next in v0.l.chunks && !v0.l.chunks[next].inuse && next != m.top && (m.dvsize > 0 ==> next != m.dv)
    modifies m`mem, m`smallmap, m`treemap, m`treebins, m`view, m`dvsize
    ensures Freed(m, v0, m0, p) && HeapOf(m) == FusedAside(old(HeapOf(m)), a, next)
  {
    hide Core, Quiet, Grounded, CanBeOne, One, Relax, Steady, Unlisted, PutAside, Delist;
    ghost var l0 := v0.l;
    ghost var loose := m.Resting() + ({a} - {p});
    CoalescingFacts(m.St(), m.sb, m.view, loose, a, p, m.Resting());
    var nsize := ChunkSize(m.mem, next);
    ghost var k := FindListed(m.St(), m.sb, m.view, loose, next);
    CoreDelist(m.St(), m.sb, m.view, loose, next, k);
    ghost var v1 := m.view;
    m.UnlinkChunk(next, nsize, loose, k);
    SteadyDelisted(v0, v1, nsize, k, m.view);
    QuietTransitive(Live(l0), m0, old(m.mem), m.mem);
    FuseNext(m, a, asize + nsize, next, p, v0, m0);
  }

  method FuseNext(m: MallocState, a: nat, psize: nat, ghost next: nat, ghost p: nat, ghost v0: View, ghost m0: Mem)
    requires m.top != 0 && m.TopAndDv() && m.Holds(m.Resting() + ({a} - {p}) + {next}) && m.view.l == v0.l
    requires p in v0.l.chunks && Surrounds(v0.l, a, p, Next(v0.l, p)) && Quiet(Live(v0.l), m0, m.mem)
    requires next == Next(v0.l, p) && next in v0.l.chunks && !v0.l.chunks[next].inuse && next != m.top
    requires (m.dvsize > 0 ==> next != m.dv)
    requires psize == Next(v0.l, next) - a && SteadySince(v0, m.view)
    requires Unlisted(v0.lists, v0.l, p)
    modifies m`mem, m`smallmap, m`treemap, m`treebins, m`view, m`dvsize
    ensures Freed(m, v0, m0, p)
    ensures HeapOf(m) == PutAside(old(HeapOf(m)), a, Next(v0.l, next))
  {
    hide Core, Quiet, Grounded, CanBeOne, One, Relax, Live, LiveOutside, Steady, Unlisted, PutAside, With,
      SetSizeAndPinuseOfFreeChunk;
    ghost var h := HeapOf(m);
    ghost var l0 := v0.l;
    ghost var st, e, loose := m.St(), Next(l0, next), m.Resting() + ({a} - {p}) + {next};
    ForwardFacts(st, m.sb, m.view, loose, a, p);
    NotTop(st, m.sb, m.view, loose, next, m.top);
    m.mem := SetSizeAndPinuseOfFreeChunk(m.mem, a, psize);
    CoreOneFree(st, m.sb, m.view, loose, a, e, m.mem);
    OneKeeps(l0, a, e, m.top);
    OneKeeps(l0, a, e, m.dv);
    m.view := m.view.(l := One(l0, a, e, false));
    QuietThen(Live(l0), Live(m.view.l), m0, st.mem, m.mem);
    if a == m.dv {
      AsideToDv(h, a, e);
      m.dvsize := psize;
      assert Relax(loose, a, e, {a}) == m.Resting();
    } else {
      assert Relax(loose, a, e, {a}) == m.Resting() + {a};
      Regrown(v0, a, p, psize);
      AsideToBin(h, a, e);
      PutAway(m, a, psize, v0, m0);
    }
  }

  lemma NotTop(st: Store, sb: nat, v: View, loose: set<nat>, p: nat, top: nat)
    requires Core(st, sb, v, loose)
    requires var l := v.l; p in l.chunks && top in l.chunks && p != top && Next(l, top) == l.end
    ensures Next(v.l, p) != v.l.end && Next(v.l, p) in v.l.chunks
  {
    hide SmallReady, TreeReady, Binned, Tagged;
    var l := v.l;
    assert LinkedAt(l, p) && ApartAt(l, p, top) && ApartAt(l, top, p) && FitsAt(l, p) && FitsAt(l, top);
  }

  /** The coalesced chunk was not listed under its new size. */
  lemma Regrown(v0: View, a: nat, p: nat, size: nat)
    requires Unlisted(v0.lists, v0.l, p) && Surrounds(v0.l, a, p, Next(v0.l, p)) && p - a < size
    requires Next(v0.l, p) in v0.l.chunks && v0.l.chunks[Next(v0.l, p)].inuse ==> a + size == Next(v0.l, p)
    ensures !Queued(v0.lists, size, a)
  {
  }

  /** insert_chunk of the coalesced chunk. */
  method PutAway(m: MallocState, a: nat, asize: nat, ghost v0: View, ghost m0: Mem)
    requires m.top != 0 && m.TopAndDv() && m.Holds(m.Resting() + {a}) && a !in m.Resting()
    requires var l := m.view.l; a in l.chunks && !l.chunks[a].inuse && l.chunks[a].size == asize && Next(l, a) != l.end
    requires Quiet(Live(m.view.l), m0, m.mem) && SteadySince(v0, m.view) && !Queued(v0.lists, asize, a)
    modifies m`mem, m`smallmap, m`treemap, m`treebins, m`view
    ensures m.Settled() && m.view.l == old(m.view.l) && Quiet(Live(m.view.l), m0, m.mem) && SteadySince(v0, m.view)
    ensures m.view.lists == With(old(m.view.lists), asize, a)
  {
    hide Core, Quiet, Steady;
    ghost var st, v1, loose := m.St(), m.view, m.Resting() + {a};
    m.InsertChunk(a, asize, loose);
    SteadyEnlisted(st, m.sb, v1, loose, v0, asize, a, m.view);
    assert m.Resting() + {a} - {a} == m.Resting();
    QuietTransitive(Live(m.view.l), m0, old(m.mem), m.mem);
  }

  /** next is in use: [a, next) is free on its own. */
  method SetFree(m: MallocState, a: nat, asize: nat, next: nat, ghost p: nat, ghost v0: View, ghost m0: Mem)
    requires Coalescing(m, v0, m0, a, p) && next == Next(v0.l, p) && asize == next - a
    requires next in v0.l.chunks && v0.l.chunks[next].inuse && (m.dvsize > 0 ==> a != m.dv)
    modifies m`mem, m`smallmap, m`treemap, m`treebins, m`view
    ensures Freed(m, v0, m0, p) && HeapOf(m) == PutAside(old(HeapOf(m)), a, next)
  {
    hide Core, Quiet, Grounded, CanBeOne, One, Relax, Live, LiveOutside, Steady, Unlisted, PutAside, With,
      SetFreeWithPinuse;
    ghost var l0, h := v0.l, HeapOf(m);
    ghost var st, loose := m.St(), m.Resting() + ({a} - {p});
    CoalescingFacts(st, m.sb, m.view, loose, a, p, m.Resting());
    m.mem := SetFreeWithPinuse(m.mem, a, asize, next);
    CoreOneFree(st, m.sb, m.view, loose, a, next, m.mem);
    OneKeeps(l0, a, next, m.top);
    OneKeeps(l0, a, next, m.dv);
    m.view := m.view.(l := One(l0, a, next, false));
    assert Relax(loose, a, next, {a}) == m.Resting() + {a};
    QuietThen(Live(l0), Live(m.view.l), m0, st.mem, m.mem);
    Regrown(v0, a, p, asize);
    AsideToBin(h, a, next);
    PutAway(m, a, asize, v0, m0);
  }

  lemma QuietSame(live: map<nat, nat>, m: Mem)
    ensures Quiet(live, m, m)
  {
  }

  lemma BehindInUse(m: MallocState, p: nat)
    requires m.Settled() && p in m.view.l.chunks && m.view.l.chunks[p].inuse
    ensures Tiled(m.view.l) && Next(m.view.l, p) in m.view.l.chunks
  {
    InUseFacts(m.St(), m.sb, m.view, m.Resting(), p);
    CoreTiled(m.St(), m.sb, m.view, m.Resting());
  }

  /** dispose_chunk.  v0 has the layout of now, and the free lists of now or of earlier in the same call, whose order is
      kept. */
  method DisposeSince(m: MallocState, p: nat, psize: nat, ghost v0: View)
    requires m.Settled() && p in m.view.l.chunks && m.view.l.chunks[p].inuse && psize == m.view.l.chunks[p].size
    requires m.view.l == v0.l && SteadySince(v0, m.view) && Unlisted(v0.lists, v0.l, p)
    modifies m`mem, m`smallmap, m`treemap, m`treebins, m`view, m`top, m`topsize, m`dv, m`dvsize
    ensures Freed(m, v0, old(m.mem), p) && HeapOf(m) == AfterFree(old(HeapOf(m)), p)
  {
    hide Core, Quiet, Steady, Unlisted, Surrounds, m.TopAndDv, m.Settled, Freed, AfterFree, PutAside, Delist;
    ghost var m0, h := m.mem, HeapOf(m);
    BehindInUse(m, p);
    var a, asize, done := ConsolidateBackward(m, p, psize, v0);
    FreeFrom(h, p, a);
    if done {
      return;
    }
    var next := p + psize;
    CoalescingHead(m, v0, m0, a, p);
    assert m.OkAddress(next) && a < next && Pinuse(m.mem, next);
    if Cinuse(m.mem, next) {
      SetFree(m, a, asize, next, p, v0, m0);
    } else if next == m.top {
      MergeIntoTop(m, a, asize, p, v0, m0);
    } else if next == m.dv {
      MergeIntoDv(m, a, asize, p, v0, m0);
    } else {
      MergeWithNext(m, a, asize, next, p, v0, m0);
    }
  }

  lemma CoalescingHead(m: MallocState, v0: View, m0: Mem, a: nat, p: nat)
    requires Coalescing(m, v0, m0, a, p)
    ensures p in v0.l.chunks && Next(v0.l, p) in v0.l.chunks && a < Next(v0.l, p) && m.OkAddress(Next(v0.l, p))
    ensures Pinuse(m.mem, Next(v0.l, p)) && Cinuse(m.mem, Next(v0.l, p)) == v0.l.chunks[Next(v0.l, p)].inuse
    ensures Next(v0.l, p) == m.dv ==> m.dvsize > 0
    ensures a == p && m.dvsize > 0 ==> a != m.dv
  {
    hide Core, Quiet, Steady, Unlisted, Grounded, CanBeOne, Relax;
    CoalescingFacts(m.St(), m.sb, m.view, m.Resting() + ({a} - {p}), a, p, m.Resting());
  }

  const NULL: nat := 0

  /** chunk2mem. */
  function ChunkToMem(p: nat): nat { p + 8 }

  /** mem2chunk. */
  function MemToChunk(mem: nat): nat
    requires mem >= 8
  {
    mem - 8
  }

  /** Between calls the lists hold free chunks of the layout, each once, under its size. */
  lemma SettledSound(m: MallocState)
    requires m.Settled()
    ensures Sound(HeapOf(m))
  {
    hide SmallReady, TreeReady, Tagged, Sized, Steady;
    ListsSized(m.St(), m.sb, m.view, m.Resting());
    assert Sized(m.view);
    SizedSound(HeapOf(m), m.view);
  }

  lemma SizedSound(h: Heap, v: View)
    requires h.l == v.l && h.lists == v.lists && Sized(v) && Tiled(v.l)
    requires forall s {:trigger s in v.lists} {:trigger v.lists[s]} :: s in v.lists ==>
      |v.lists[s]| > 0 && Rings.Distinct(v.lists[s])
    ensures Sound(h)
  {
  }

  /** dispose_chunk of any chunk in use. */
  method DisposeChunk(m: MallocState, p: nat, psize: nat)
    requires m.Settled() && p in m.view.l.chunks && m.view.l.chunks[p].inuse && psize == m.view.l.chunks[p].size
    modifies m`mem, m`smallmap, m`treemap, m`treebins, m`view, m`top, m`topsize, m`dv, m`dvsize
    ensures Freed(m, old(m.view), old(m.mem), p) && HeapOf(m) == AfterFree(old(HeapOf(m)), p)
  {
    hide Core, Quiet, Steady, Unlisted, AfterFree;
    OrderNow(m);
    LiveUnlisted(m.view, m.view.l, p);
    DisposeSince(m, p, psize, m.view);
  }

  /** internal_free, which is dlfree.  The free lists keep the order they had in v0, as in DisposeSince. */
  method InternalFree(m: MallocState, mem: nat, ghost v0: View)
    requires m.Settled() && mem >= 8 && MemToChunk(mem) in Live(m.view.l)
    requires m.view.l == v0.l && SteadySince(v0, m.view) && Unlisted(v0.lists, v0.l, MemToChunk(mem))
    modifies m`mem, m`smallmap, m`treemap, m`treebins, m`view, m`top, m`topsize, m`dv, m`dvsize
    ensures Freed(m, v0, old(m.mem), MemToChunk(mem)) && HeapOf(m) == AfterFree(old(HeapOf(m)), MemToChunk(mem))
  {
    hide Core, Steady, Unlisted, AfterFree;
    var p := MemToChunk(mem);
    InUseFacts(m.St(), m.sb, m.view, m.Resting(), p);
    assert m.OkAddress(p) && Cinuse(m.mem, p);
    DisposeSince(m, p, ChunkSize(m.mem, p), v0);
  }

  /** dlfree.  A null pointer is ignored; any other must be live. */
  method Free(m: MallocState, mem: nat)
    requires m.Settled()
    requires mem != NULL ==> mem >= 8 && MemToChunk(mem) in Live(m.view.l)
    modifies m`mem, m`smallmap, m`treemap, m`treebins, m`view, m`top, m`topsize, m`dv, m`dvsize
    ensures mem != NULL ==>
      Freed(m, old(m.view), old(m.mem), MemToChunk(mem)) && HeapOf(m) == AfterFree(old(HeapOf(m)), MemToChunk(mem))
    ensures mem == NULL ==>
      m.Settled() && m.view == old(m.view) && m.mem == old(m.mem) && HeapOf(m) == old(HeapOf(m))
  {
    hide Core, Quiet, Steady, AfterFree;
    if mem != NULL {
      var p := MemToChunk(mem);
      InUseFacts(m.St(), m.sb, m.view, m.Resting(), p);
      assert m.OkAddress(p) && Cinuse(m.mem, p);
      DisposeChunk(m, p, ChunkSize(m.mem, p));
    }
  }
}
