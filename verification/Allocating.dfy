/** dlmalloc's ways of serving a request from memory it already has. */
module Allocating {
  import opened Memory
  import opened Layouts
  import opened Tags
  import opened Payloads
  import opened Bins
  import opened Ages
  import opened BinMaps
  import opened SmallBins
  import opened TreeIndices
  import opened Tries
  import opened TreeBins
  import opened Heaps
  import opened HeapSteps
  import opened HeapBins
  import opened MallocStates
  import opened Policies
  import opened Freeing
  import opened Searching

  /** The chunk at p, not live in l0, is live in l with at least nb and less than nb + 16 bytes. */
  ghost predicate Grant(l0: Layout, l: Layout, p: nat, nb: nat) {
    && l.first == l0.first && l.end == l0.end
    && p !in Live(l0) && p in l.chunks && l.chunks[p].inuse && l.chunks[p].pin
    && nb <= l.chunks[p].size < nb + MIN_CHUNK_SIZE
    && Live(l) == Live(l0)[p := l.chunks[p].size]
  }

  /** One more live chunk, at p; every other payload, and the order within every free list, as it was. */
  ghost predicate Allocated(m: MallocState, v0: View, m0: Mem, p: nat, nb: nat)
    reads m
  {
    m.Settled() && Grant(v0.l, m.view.l, p, nb) && Quiet(Live(v0.l), m0, m.mem) && SteadySince(v0, m.view)
  }

  /** A free chunk below top is followed by an in-use chunk whose PINUSE bit is clear. */
  lemma FreeFacts(st: Store, sb: nat, v: View, loose: set<nat>, p: nat)
    requires Core(st, sb, v, loose) && p in v.l.chunks && !v.l.chunks[p].inuse && p in loose
    ensures v.l.chunks[p].pin && p >= v.l.first > 0 && p % 8 == 0 && v.l.chunks[p].size % 8 == 0
    ensures v.l.chunks[p].size > 0
    ensures ChunkSize(st.mem, p) == v.l.chunks[p].size && v.l.end + TOP_FOOT_SIZE < WORD && v.l.end % 8 == 0
    ensures Next(v.l, p) <= v.l.end
    ensures Grounded(v.l, loose, p, Next(v.l, p)) && LiveOutside(v.l, p, Next(v.l, p)) == Live(v.l)
    ensures var e := Next(v.l, p); e != v.l.end ==>
      && e in v.l.chunks && v.l.chunks[e].inuse && !v.l.chunks[e].pin && v.l.chunks[p].size >= 16
      && CanBeOne(v.l, p, e, true) && Relax(loose, p, e, {}) == loose - {p}
    ensures forall b :: p < b < Next(v.l, p) ==> Relax(loose, p, Next(v.l, p), {b}) == loose - {p} + {b}
  {
    hide SmallReady, TreeReady;
    var e := Next(v.l, p);
    assert FitsAt(v.l, p) && LinkedAt(v.l, p);
    ReadHead(st.mem, v.l, p);
    forall q | q in v.l.chunks && p <= q < e ensures q == p { assert ApartAt(v.l, p, q); }
    forall x | x in loose ensures x == p || !(p <= x < e) { assert LooseAt(v.l, x); }
  }

  /** Put all of a loose chunk to use. */
  method UseWhole(m: MallocState, p: nat, s: nat, ghost loose: set<nat>)
    requires m.Holds(loose) && Bindable(m.view.l, loose, p) && s == m.view.l.chunks[p].size > 0
    modifies m`mem, m`view
    ensures m.Holds(loose - {p}) && m.view == old(m.view).(l := One(old(m.view.l), p, p + s, true))
    ensures Live(m.view.l) == Live(old(m.view.l))[p := s] && Quiet(Live(old(m.view.l)), old(m.mem), m.mem)
  {
    hide Core, Quiet, Grounded, CanBeOne, One, Relax;
    ghost var st, l := m.St(), m.view.l;
    FreeFacts(st, m.sb, m.view, loose, p);
    m.mem := SetInuseAndPinuse(m.mem, p, s);
    CoreOneInuse(st, m.sb, m.view, loose, p, p + s, m.mem);
    OneSame(l, p, p + s, true);
    m.view := m.view.(l := One(l, p, p + s, true));
  }

  lemma OneSame(l: Layout, a: nat, e: nat, inuse: bool)
    requires a in l.chunks && a < e
    ensures One(l, a, e, inuse).first == l.first && One(l, a, e, inuse).end == l.end
  {
  }

  lemma TwoSame(l: Layout, a: nat, b: nat, e: nat, inuse: bool)
    requires a in l.chunks && a < b < e
    ensures Two(l, a, b, e, inuse).first == l.first && Two(l, a, b, e, inuse).end == l.end
  {
  }

  lemma CanSplit(l: Layout, p: nat, nb: nat)
    requires Tiled(l) && p in l.chunks && !l.chunks[p].inuse && nb >= 16 && nb % 8 == 0
    requires if Next(l, p) == l.end then nb < l.chunks[p].size else nb + 16 <= l.chunks[p].size
    ensures CanBeTwo(l, p, p + nb, Next(l, p), false)
  {
    assert FitsAt(l, p) && LinkedAt(l, p);
  }

  /** Put the front of a loose chunk to use, leaving a loose remainder. */
  method UseFront(m: MallocState, p: nat, s: nat, nb: nat, ghost loose: set<nat>)
    requires m.Holds(loose) && Bindable(m.view.l, loose, p) && s == m.view.l.chunks[p].size
    requires nb >= 16 && nb % 8 == 0 && nb + 16 <= s
    modifies m`mem, m`view
    ensures m.Holds(loose - {p} + {p + nb}) && m.view == old(m.view).(l := Two(old(m.view.l), p, p + nb, p + s, false))
    ensures Live(m.view.l) == Live(old(m.view.l))[p := nb] && Quiet(Live(old(m.view.l)), old(m.mem), m.mem)
  {
    hide Core, Quiet, Grounded, CanBeTwo, Two, Relax;
    ghost var st, l := m.St(), m.view.l;
    FreeFacts(st, m.sb, m.view, loose, p);
    CoreCanSplit(st, m.sb, m.view, loose, p, nb);
    m.mem := SetSizeAndPinuseOfInuseChunk(m.mem, p, nb);
    m.mem := SetSizeAndPinuseOfFreeChunk(m.mem, p + nb, s - nb);
    CoreTwoFree(st, m.sb, m.view, loose, p, p + nb, p + s, m.mem);
    TwoSame(l, p, p + nb, p + s, false);
    m.view := m.view.(l := Two(l, p, p + nb, p + s, false));
  }

  lemma CoreCanSplit(st: Store, sb: nat, v: View, loose: set<nat>, p: nat, nb: nat)
    requires Core(st, sb, v, loose)
    requires p in v.l.chunks && !v.l.chunks[p].inuse && nb >= 16 && nb % 8 == 0
    requires if Next(v.l, p) == v.l.end then nb < v.l.chunks[p].size else nb + 16 <= v.l.chunks[p].size
    ensures CanBeTwo(v.l, p, p + nb, Next(v.l, p), false)
  {
    hide SmallReady, TreeReady, Tagged, Binned;
    CanSplit(v.l, p, nb);
  }

  /** What a retiling of [a, e) leaves of the chunk at q outside. */
  ghost predicate Undisturbed(l: Layout, n: Layout, q: nat) {
    && n.first == l.first && n.end == l.end
    && (q in l.chunks ==>
         q in n.chunks && n.chunks[q].size == l.chunks[q].size && n.chunks[q].inuse == l.chunks[q].inuse)
  }

  /** Taking all of the free chunk at p grants it and leaves the other chunks. */
  lemma WholeGrants(st: Store, sb: nat, v: View, loose: set<nat>, p: nat, nb: nat, q: nat)
    requires Core(st, sb, v, loose) && Bindable(v.l, loose, p) && nb <= v.l.chunks[p].size < nb + MIN_CHUNK_SIZE
    ensures Next(v.l, p) > p
    ensures var n := One(v.l, p, Next(v.l, p), true);
      && (Live(n) == Live(v.l)[p := v.l.chunks[p].size] ==> Grant(v.l, n, p, nb))
      && (q != p ==> Undisturbed(v.l, n, q))
  {
    FreeFacts(st, sb, v, loose, p);
    hide Core;
    assert forall x :: x in v.l.chunks && p <= x < Next(v.l, p) ==> x == p by { InsideFree(st, sb, v, loose, p); }
  }

  lemma InsideFree(st: Store, sb: nat, v: View, loose: set<nat>, p: nat)
    requires Core(st, sb, v, loose) && p in v.l.chunks
    ensures forall x {:trigger x in v.l.chunks} :: x in v.l.chunks && p <= x < Next(v.l, p) ==> x == p
  {
    hide SmallReady, TreeReady, Tagged, Binned;
    forall x | x in v.l.chunks && p <= x < Next(v.l, p) ensures x == p { assert ApartAt(v.l, p, x); }
  }

  /** Taking the front of the free chunk at p grants it, frees the rest, and leaves the other chunks. */
  lemma FrontGrants(st: Store, sb: nat, v: View, loose: set<nat>, p: nat, nb: nat, q: nat)
    requires Core(st, sb, v, loose) && p in v.l.chunks && !v.l.chunks[p].inuse && p in loose
    requires 16 <= nb < v.l.chunks[p].size
    ensures var n := Two(v.l, p, p + nb, Next(v.l, p), false);
      && (Live(n) == Live(v.l)[p := nb] ==> Grant(v.l, n, p, nb))
      && (q != p ==> Undisturbed(v.l, n, q))
      && p in n.chunks && n.chunks[p].size == nb
      && p + nb in n.chunks && n.chunks[p + nb].size == v.l.chunks[p].size - nb && !n.chunks[p + nb].inuse
      && Next(n, p + nb) == Next(v.l, p) && n.end == v.l.end && p + nb !in v.l.chunks
  {
    FreeFacts(st, sb, v, loose, p);
    InsideFree(st, sb, v, loose, p);
    hide Core;
  }

  /** replace_dv: p becomes dv, and the old dv, small when there is one, goes to its bin. */
  method ReplaceDv(m: MallocState, p: nat, s: nat, ghost v0: View)
    requires m.top != 0 && m.TopAndDv() && m.Holds(m.Resting() + {p}) && p !in m.Resting() && m.dvsize < MIN_LARGE_SIZE
    requires p in m.view.l.chunks && !m.view.l.chunks[p].inuse && m.view.l.chunks[p].size == s > 0
    requires Next(m.view.l, p) != m.view.l.end
    requires SteadySince(v0, m.view) && (m.dvsize > 0 ==> !Queued(v0.lists, m.dvsize, m.dv))
    modifies m`mem, m`smallmap, m`view, m`dv, m`dvsize
    ensures m.Settled() && m.view.l == old(m.view.l) && m.dv == p && m.dvsize == s
    ensures Quiet(Live(m.view.l), old(m.mem), m.mem) && SteadySince(v0, m.view)
    ensures HeapOf(m) == NewDv(old(HeapOf(m)), p, s)
  {
    hide Core, Quiet, Steady;
    QuietSame(Live(m.view.l), m.mem);
    ghost var loose := m.Resting() + {p};
    var dvs := m.dvsize;
    if dvs != 0 {
      ghost var st1, v1 := m.St(), m.view;
      m.InsertSmallChunk(m.dv, dvs, loose);
      SteadyEnlisted(st1, m.sb, v1, loose, v0, dvs, m.dv, m.view);
      loose := loose - {m.dv};
    }
    m.dvsize := s;
    m.dv := p;
    assert m.Resting() == loose;
  }

  /** The chunk c has left its bin; nothing else has changed since v0. */
  ghost predicate Unbinned(m: MallocState, v0: View, m0: Mem, c: nat)
    reads m
  {
    && m.top != 0 && m.TopAndDv() && m.Holds(m.Resting() + {c}) && c !in m.Resting() && m.view.l == v0.l
    && Bindable(v0.l, m.Resting() + {c}, c) && Quiet(Live(v0.l), m0, m.mem) && SteadySince(v0, m.view) && Sized(v0)
  }

  lemma UnbinnedLayout(m: MallocState, v0: View, m0: Mem, c: nat)
    requires Unbinned(m, v0, m0, c)
    ensures m.view.l == v0.l
  {
    hide Core, Quiet, Steady;
  }

  /** nb bytes are granted at c, and the remainder r behind them is free and in no bin. */
  ghost predicate CutOff(m: MallocState, v0: View, m0: Mem, c: nat, nb: nat, r: nat, rsize: nat)
    reads m
  {
    && m.top != 0 && m.TopAndDv() && m.Holds(m.Resting() + {r}) && r !in m.Resting()
    && Bindable(m.view.l, m.Resting() + {r}, r) && m.view.l.chunks[r].size == rsize > 0
    && Grant(v0.l, m.view.l, c, nb) && Quiet(Live(v0.l), m0, m.mem) && SteadySince(v0, m.view)
    && !Queued(v0.lists, rsize, r)
  }

  /** Use the unlinked chunk c for nb bytes; a remainder of at least 16 is left loose. */
  method Cut(m: MallocState, c: nat, s: nat, nb: nat, ghost v0: View, ghost m0: Mem)
    requires Unbinned(m, v0, m0, c) && s == v0.l.chunks[c].size && 16 <= nb <= s && nb % 8 == 0
    modifies m`mem, m`view
    ensures s - nb < MIN_CHUNK_SIZE ==> Allocated(m, v0, m0, c, nb)
    ensures s - nb >= MIN_CHUNK_SIZE ==> CutOff(m, v0, m0, c, nb, c + nb, s - nb)
    ensures HeapOf(m) == old(HeapOf(m)).(l :=
      if s - nb < MIN_CHUNK_SIZE then Fused(v0.l, c, c + s, true) else Parted(v0.l, c, c + nb, c + s, false))
  {
    hide Core, Quiet, One, Two, Steady;
    ghost var loose, m1 := m.Resting(), m.mem;
    assert loose + {c} - {c} == loose;
    if s - nb < MIN_CHUNK_SIZE {
      FusedIs(v0.l, c, c + s, true);
      WholeGrants(m.St(), m.sb, m.view, loose + {c}, c, nb, m.top);
      WholeGrants(m.St(), m.sb, m.view, loose + {c}, c, nb, m.dv);
      UseWhole(m, c, s, loose + {c});
    } else {
      PartedIs(v0.l, c, c + nb, c + s, false);
      FrontGrants(m.St(), m.sb, m.view, loose + {c}, c, nb, m.top);
      FrontGrants(m.St(), m.sb, m.view, loose + {c}, c, nb, m.dv);
      UseFront(m, c, s, nb, loose + {c});
    }
    QuietTransitive(Live(v0.l), m0, m1, m.mem);
  }

  lemma DvUnlisted(m: MallocState)
    requires m.Settled()
    ensures m.dvsize > 0 ==> !Queued(m.view.lists, m.dvsize, m.dv)
    ensures Sized(m.view) && SteadySince(m.view, m.view)
  {
    hide Core, Steady, Sized;
    ListsSized(m.St(), m.sb, m.view, m.Resting());
    if m.dvsize > 0 { LooseUnlisted(m.St(), m.sb, m.view, m.Resting(), m.dvsize, m.dv); }
  }

  lemma LooseUnlisted(st: Store, sb: nat, v: View, loose: set<nat>, s: nat, x: nat)
    requires Core(st, sb, v, loose) && x in loose
    ensures !Queued(v.lists, s, x)
  {
    hide SmallReady, TreeReady, Tagged;
    if s in v.lists { NotListed(v.l, v.lists, loose, s, x); }
  }

  /** Use the unlinked chunk c for nb bytes, binning a remainder of at least 16. */
  method CutLarge(m: MallocState, c: nat, s: nat, nb: nat, ghost v0: View, ghost m0: Mem)
    requires Unbinned(m, v0, m0, c) && s == v0.l.chunks[c].size && 16 <= nb <= s && nb % 8 == 0
    modifies m`mem, m`smallmap, m`treemap, m`treebins, m`view
    ensures Allocated(m, v0, m0, c, nb) && HeapOf(m) == CutFrom(old(HeapOf(m)), c, s, nb, false)
  {
    hide Core, Quiet, Steady, Unbinned, Grant, Queued, Fused, Parted, With;
    var rsize := s - nb;
    assert m.view.l == v0.l by { UnbinnedLayout(m, v0, m0, c); }
    Cut(m, c, s, nb, v0, m0);
    if rsize >= MIN_CHUNK_SIZE {
      ghost var st2, v2, loose := m.St(), m.view, m.Resting();
      m.InsertChunk(c + nb, rsize, loose + {c + nb});
      assert loose + {c + nb} - {c + nb} == loose;
      SteadyEnlisted(st2, m.sb, v2, loose + {c + nb}, v0, rsize, c + nb, m.view);
      QuietGrown(v0.l, v2.l, c, nb, m0, st2.mem, m.mem);
    }
  }

  lemma TakenFirst(h: Heap, s: nat, nb: nat)
    requires s in h.lists && |h.lists[s]| > 0 && s >= MIN_LARGE_SIZE
    ensures FromBin(h, s, nb) ==
      CutFrom(h.(lists := Without(h.lists, s, 0)), h.lists[s][0], s, nb, nb < MIN_LARGE_SIZE)
  {
    hide Without, CutFrom;
  }

  lemma TakenLast(h: Heap, i: nat, p: nat, nb: nat)
    requires i < 32 && 8 * i in h.lists && |h.lists[8 * i]| > 0 && p == h.lists[8 * i][|h.lists[8 * i]| - 1]
    ensures FromBin(h, 8 * i, nb) ==
      CutFrom(h.(lists := Without(h.lists, 8 * i, |h.lists[8 * i]| - 1)), p, 8 * i, nb, nb < MIN_LARGE_SIZE)
  {
    hide Without, CutFrom;
  }

  /** tmalloc_large: the best fit over all trees, unless dv fits at least as well. */
  method TmallocLarge(m: MallocState, nb: nat) returns (mem: nat, ghost rsize: nat)
    requires m.Settled() && TreeSize(nb)
    modifies m`mem, m`smallmap, m`treemap, m`treebins, m`view
    ensures mem != NULL ==> mem > 8 && Allocated(m, old(m.view), old(m.mem), MemToChunk(mem), nb)
    ensures mem != NULL ==>
      BestFit(old(m.view), nb, MemToChunk(mem), rsize) && (old(m.dvsize) < nb || rsize + nb < old(m.dvsize))
    ensures mem != NULL ==> HeapOf(m) == FromBin(old(HeapOf(m)), rsize + nb, nb)
    ensures mem == NULL ==> m.view == old(m.view) && m.St() == old(m.St())
    ensures mem == NULL && m.dvsize < nb ==> BestFit(m.view, nb, 0, rsize)
    ensures mem == NULL ==> forall s {:trigger s in m.view.lists} ::
      s in m.view.lists && MIN_TREE_SIZE <= s && nb <= s ==> nb <= m.dvsize <= s
  {
    hide Core, Quiet, Steady, Sized, BestFit, Candidate, TreeSize, CutFrom;
    ghost var v0, loose := m.view, m.Resting();
    DvUnlisted(m);
    ghost var h := HeapOf(m);
    mem := NULL;
    var c, spare := FindBestFit(m, nb, loose);
    rsize := spare;
    BestFitChunk(m.St(), m.sb, m.view, loose, nb, c, spare, m.dvsize);
    DvSize(m);
    if c != 0 && spare < Minus32(m.dvsize, nb) {
      var s := ChunkSize(m.mem, c);
      var r := c + nb;
      assert m.OkAddress(c) && s == spare + nb && c < r;
      m.UnlinkLargeChunk(c, s, loose, 0);
      SteadyDelisted(v0, v0, s, 0, m.view);
      TakenFirst(h, s, nb);
      CutLarge(m, c, s, nb, v0, old(m.mem));
      mem := ChunkToMem(c);
    }
  }

  lemma QuietGrown(l0: Layout, l: Layout, p: nat, nb: nat, m0: Mem, m1: Mem, m2: Mem)
    requires Grant(l0, l, p, nb) && Quiet(Live(l0), m0, m1) && Quiet(Live(l), m1, m2)
    ensures Quiet(Live(l0), m0, m2)
  {
    QuietFewer(Live(l), Live(l0), m1, m2);
    QuietTransitive(Live(l0), m0, m1, m2);
  }

  lemma DvSize(m: MallocState)
    requires m.Settled()
    ensures m.dvsize < WORD && m.dvsize % 8 == 0 && m.topsize < WORD && m.topsize % 8 == 0 && m.topsize > 0
    ensures m.dvsize > 0 ==> m.dvsize >= 16
  {
    hide SmallReady, TreeReady, Tagged, Binned;
    assert FitsAt(m.view.l, m.top);
    assert m.dvsize > 0 ==> FitsAt(m.view.l, m.dv);
  }

  lemma BestFitChunk(st: Store, sb: nat, v: View, loose: set<nat>, nb: nat, c: nat, rsize: nat, dvsize: nat)
    requires Core(st, sb, v, loose) && BestFit(v, nb, c, rsize) && Candidate(v, nb, c, rsize) && TreeSize(nb)
    ensures nb < WORD && nb % 8 == 0 && nb >= MIN_TREE_SIZE
    ensures c != 0 ==>
      && ListedAs(v, c, 0) && v.l.chunks[c].size == rsize + nb >= MIN_TREE_SIZE && c !in loose && c >= v.l.first
      && Bindable(v.l, loose + {c}, c) && ChunkSize(st.mem, c) == rsize + nb && rsize + nb < WORD && rsize % 8 == 0
    ensures forall s {:trigger s in v.lists} :: s in v.lists && MIN_TREE_SIZE <= s && nb <= s ==>
      c != 0 && rsize + nb <= s
    ensures dvsize < WORD ==>
      (rsize < Minus32(dvsize, nb) && c != 0 <==> c != 0 && (dvsize < nb || rsize + nb < dvsize))
  {
    hide Core, Minus32;
    if c != 0 {
      SmallestChunk(st, sb, v, loose, nb, c, rsize);
      SizeBelowWord(st, sb, v, loose, c);
      EightLess(rsize, nb);
    }
    if dvsize < WORD { Minus32Value(dvsize, nb); }
  }

  lemma SizeBelowWord(st: Store, sb: nat, v: View, loose: set<nat>, c: nat)
    requires Core(st, sb, v, loose) && c in v.l.chunks
    ensures v.l.chunks[c].size < WORD && v.l.chunks[c].size % 8 == 0
  {
    hide SmallReady, TreeReady, Binned, Tagged;
    assert FitsAt(v.l, c);
  }

  lemma EightLess(a: nat, b: nat)
    requires (a + b) % 8 == 0 && b % 8 == 0
    ensures a % 8 == 0
  {
  }

  lemma Minus32Value(size: nat, nb: nat)
    requires size < WORD && nb < WORD
    ensures Minus32(size, nb) == if size < nb then size + WORD - nb else size - nb
  {
  }

  /** Use the unlinked chunk c for nb bytes; a remainder of at least 16 becomes dv. */
  method CutSmall(m: MallocState, c: nat, s: nat, nb: nat, ghost v0: View, ghost m0: Mem)
    requires Unbinned(m, v0, m0, c) && s == v0.l.chunks[c].size && 16 <= nb <= s && nb % 8 == 0
    requires m.dvsize < MIN_LARGE_SIZE && (m.dvsize > 0 ==> !Queued(v0.lists, m.dvsize, m.dv))
    modifies m`mem, m`smallmap, m`view, m`dv, m`dvsize
    ensures Allocated(m, v0, m0, c, nb) && HeapOf(m) == CutFrom(old(HeapOf(m)), c, s, nb, true)
  {
    hide Core, Quiet, Steady, Unbinned, Grant, Queued, Fused, Parted, NewDv;
    var rsize := s - nb;
    assert m.view.l == v0.l by { UnbinnedLayout(m, v0, m0, c); }
    Cut(m, c, s, nb, v0, m0);
    if rsize >= MIN_CHUNK_SIZE {
      ghost var l2, m2 := m.view.l, m.mem;
      ReplaceDv(m, c + nb, rsize, v0);
      QuietGrown(v0.l, l2, c, nb, m0, m2, m.mem);
    }
  }

  lemma SmallestChunk(st: Store, sb: nat, v: View, loose: set<nat>, nb: nat, c: nat, rsize: nat)
    requires Core(st, sb, v, loose) && BestFit(v, nb, c, rsize) && c != 0
    ensures ListedAs(v, c, 0) && v.l.chunks[c].size == rsize + nb >= MIN_TREE_SIZE && c !in loose && c >= v.l.first
    ensures Bindable(v.l, loose + {c}, c) && ChunkSize(st.mem, c) == rsize + nb
  {
    hide SmallReady, TreeReady, Binned;
    MemberFits(v.l, v.lists, loose, rsize + nb, 0);
    ReadHead(st.mem, v.l, c);
  }

  /** tmalloc_small: the smallest chunk of any tree, its remainder becoming dv. */
  method TmallocSmall(m: MallocState, nb: nat) returns (mem: nat, ghost rsize: nat)
    requires m.Settled() && 16 <= nb < MIN_TREE_SIZE && nb % 8 == 0 && m.treemap != 0 && m.dvsize < nb
    modifies m`mem, m`smallmap, m`treemap, m`treebins, m`view, m`dv, m`dvsize
    ensures mem > 8 && Allocated(m, old(m.view), old(m.mem), MemToChunk(mem), nb)
    ensures BestFit(old(m.view), nb, MemToChunk(mem), rsize)
    ensures HeapOf(m) == FromBin(old(HeapOf(m)), rsize + nb, nb)
  {
    hide Core, Quiet, Steady, Sized, BestFit, CutFrom;
    ghost var v0, loose := m.view, m.Resting();
    DvUnlisted(m);
    ghost var h := HeapOf(m);
    var v, spare := FindSmallest(m, nb, loose);
    rsize := spare;
    SmallestChunk(m.St(), m.sb, m.view, loose, nb, v, spare);
    var s := ChunkSize(m.mem, v);
    assert m.OkAddress(v) && s == spare + nb && v < v + nb;
    m.UnlinkLargeChunk(v, s, loose, 0);
    SteadyDelisted(v0, v0, s, 0, m.view);
    TakenFirst(h, s, nb);
    CutSmall(m, v, s, nb, v0, old(m.mem));
    mem := ChunkToMem(v);
  }

  /** Take the first chunk of the marked bin i out of it. */
  method UnbinFirst(m: MallocState, i: nat) returns (p: nat)
    requires m.Settled() && i < 32 && Marked(m.smallmap, i)
    modifies m`mem, m`smallmap, m`view
    ensures Unbinned(m, old(m.view), old(m.mem), p)
    ensures p in m.view.l.chunks && m.view.l.chunks[p].size == 8 * i >= 16
    ensures FirstOf(old(m.view), i, p)
    ensures 8 * i in old(m.view.lists) && |old(m.view.lists)[8 * i]| > 0
    ensures p == old(m.view.lists)[8 * i][|old(m.view.lists)[8 * i]| - 1]
    ensures m.view.lists == Without(old(m.view.lists), 8 * i, |old(m.view.lists)[8 * i]| - 1)
  {
    hide Core, Quiet, Marked, Steady, Sized;
    ghost var v0, loose := m.view, m.Resting();
    DvUnlisted(m);
    SmallMarked(m.St(), m.sb, v0, loose, 8 * i);
    FirstSmall(m.St(), m.sb, v0, loose, 8 * i);
    var b := m.sb + 8 * i;
    p := Fd(m.mem, b);
    FirstBindable(m.St(), m.sb, v0, loose, p, 8 * i);
    m.UnlinkFirstSmallChunk(b, p, i, loose);
    SteadyDelisted(v0, v0, 8 * i, |v0.lists[8 * i]| - 1, m.view);
  }

  /** p is the first chunk of small bin i, the one listed last. */
  ghost predicate FirstOf(v: View, i: nat, p: nat) {
    8 * i in v.lists && |v.lists[8 * i]| > 0 && p == v.lists[8 * i][|v.lists[8 * i]| - 1]
  }

  /** A remainderless fit: the first chunk of the marked bin i. */
  method TakeSmallBin(m: MallocState, i: nat, nb: nat) returns (mem: nat)
    requires m.Settled() && i < 32 && Marked(m.smallmap, i) && nb <= 8 * i < nb + MIN_CHUNK_SIZE
    modifies m`mem, m`smallmap, m`view
    ensures mem >= 8 && Allocated(m, old(m.view), old(m.mem), MemToChunk(mem), nb)
    ensures FirstOf(old(m.view), i, MemToChunk(mem)) && HeapOf(m) == FromBin(old(HeapOf(m)), 8 * i, nb)
  {
    hide Core, Quiet, One, Marked, Steady, Sized, FirstOf;
    ghost var h := HeapOf(m);
    var p := UnbinFirst(m, i);
    TakenLast(h, i, p, nb);
    FusedIs(h.l, p, p + 8 * i, true);
    ghost var loose, m1 := m.Resting(), m.mem;
    assert loose + {p} - {p} == loose;
    WholeGrants(m.St(), m.sb, m.view, loose + {p}, p, nb, m.top);
    WholeGrants(m.St(), m.sb, m.view, loose + {p}, p, nb, m.dv);
    UseWhole(m, p, 8 * i, loose + {p});
    QuietTransitive(Live(old(m.view.l)), old(m.mem), m1, m.mem);
    mem := ChunkToMem(p);
  }

  lemma FirstBindable(st: Store, sb: nat, v: View, loose: set<nat>, p: nat, s: nat)
    requires Core(st, sb, v, loose) && s in v.lists && |v.lists[s]| > 0 && p == v.lists[s][|v.lists[s]| - 1]
    ensures Bindable(v.l, loose + {p}, p) && p !in loose && v.l.chunks[p].size == s >= 16
  {
    hide SmallReady, TreeReady, Tagged;
    MemberFits(v.l, v.lists, loose, s, |v.lists[s]| - 1);
  }

  /** The first chunk of the next marked bin i, its remainder becoming dv. */
  method CutSmallBin(m: MallocState, i: nat, nb: nat) returns (mem: nat)
    requires m.Settled() && i < 32 && Marked(m.smallmap, i) && 16 <= nb && nb + MIN_CHUNK_SIZE <= 8 * i && nb % 8 == 0
    requires m.dvsize < MIN_LARGE_SIZE
    modifies m`mem, m`smallmap, m`view, m`dv, m`dvsize
    ensures mem >= 8 && Allocated(m, old(m.view), old(m.mem), MemToChunk(mem), nb)
    ensures FirstOf(old(m.view), i, MemToChunk(mem)) && HeapOf(m) == FromBin(old(HeapOf(m)), 8 * i, nb)
  {
    hide Core, Quiet, Marked, Steady, Sized, FirstOf, Queued, CutFrom;
    DvUnlisted(m);
    ghost var h := HeapOf(m);
    var p := UnbinFirst(m, i);
    TakenLast(h, i, p, nb);
    CutSmall(m, p, 8 * i, nb, old(m.view), old(m.mem));
    mem := ChunkToMem(p);
  }

  /** p was listed, under the smallest listed size that fits nb. */
  ghost predicate SmallestListed(v: View, p: nat, nb: nat) {
    && p in v.l.chunks && v.l.chunks[p].size in v.lists && p in v.lists[v.l.chunks[p].size] && nb <= v.l.chunks[p].size
    && forall s {:trigger s in v.lists} :: s in v.lists && nb <= s ==> v.l.chunks[p].size <= s
  }

  /** Which small sizes are listed, as the small map tells it. */
  lemma ListedSmall(st: Store, sb: nat, v: View, loose: set<nat>, s: nat)
    requires Core(st, sb, v, loose) && s in v.lists
    ensures s % 8 == 0 && s >= 16 && |v.lists[s]| > 0
    ensures s < MIN_LARGE_SIZE ==> Marked(st.smallmap, s / 8)
    ensures s >= MIN_TREE_SIZE ==> st.treemap != 0
  {
    hide Marked, Tagged;
    MemberFits(v.l, v.lists, loose, s, 0);
    if s < MIN_LARGE_SIZE {
      assert MapAt(st.smallmap, v.lists, s / 8);
    } else {
      assert LargeAt(v.lists, v.t, s);
      assert SizeAt(v.t, s) && KeyAt(v.t, v.t.pos[s]);
      BelowRoot(v.t, s);
      IndexBound(s);
      assert TreemapAt(st.treemap, v.t, TreeIndex(s));
      NonZero(st.treemap, TreeIndex(s));
    }
  }

  /** The bin that the bit trick picks is the lowest marked one above idx. */
  lemma NextSmallBin(smallmap: bv32, idx: nat)
    requires idx < 32 && From(smallmap, idx) != 0 && !Marked(smallmap, idx) && (idx < 31 ==> !Marked(smallmap, idx + 1))
    ensures var leftbits := And(ShiftLeft(From(smallmap, idx), Idx(idx)), LeftBits(Bit(idx)));
      var i := Ctz(LeastBit(leftbits));
      && idx + 2 <= i < 32 && Marked(smallmap, i)
      && forall j: nat {:trigger Marked(smallmap, j)} :: idx <= j < 32 && Marked(smallmap, j) ==> i <= j
  {
    hide Marked, From, And, ShiftLeft, LeftBits, Bit, LeastBit, Ctz, Idx;
    var leftbits := And(ShiftLeft(From(smallmap, idx), Idx(idx)), LeftBits(Bit(idx)));
    var first := CtzFrom(smallmap, idx);
    CtzFromFirst(smallmap, idx, 0);
    BinsLeftOf(smallmap, idx, first);
    NonZero(leftbits, first);
    LowestBin(leftbits, 0);
    BinsLeftOf(smallmap, idx, Ctz(LeastBit(leftbits)));
    forall j: nat | idx <= j < 32 && Marked(smallmap, j) ensures Ctz(LeastBit(leftbits)) <= j {
      BinsLeftOf(smallmap, idx, j);
      LowestBin(leftbits, j);
    }
  }

  lemma NoSmallBin(smallmap: bv32, idx: nat)
    requires idx < 32 && From(smallmap, idx) == 0
    ensures forall j: nat {:trigger Marked(smallmap, j)} :: idx <= j < 32 ==> !Marked(smallmap, j)
  {
    hide Marked, From;
    forall j: nat | idx <= j < 32 ensures !Marked(smallmap, j) { NoBinsFrom(smallmap, idx, j); }
  }

  /** The small bin i, the lowest marked one that fits, makes its first chunk the smallest listed one. */
  lemma SmallBinSmallest(st: Store, sb: nat, v: View, loose: set<nat>, nb: nat, i: nat, p: nat)
    requires Core(st, sb, v, loose) && i < 32 && nb <= 8 * i && nb % 8 == 0
    requires FirstOf(v, i, p)
    requires forall j: nat {:trigger Marked(st.smallmap, j)} :: nb / 8 <= j < 32 && Marked(st.smallmap, j) ==> i <= j
    ensures SmallestListed(v, p, nb) && v.l.chunks[p].size == 8 * i
  {
    hide Marked, Core;
    FirstBindable(st, sb, v, loose, p, 8 * i);
    forall s | s in v.lists && nb <= s ensures 8 * i <= s { ListedSmall(st, sb, v, loose, s); }
  }

  lemma TreeSmallest(st: Store, sb: nat, v: View, loose: set<nat>, nb: nat, p: nat, rsize: nat)
    requires Core(st, sb, v, loose) && nb < MIN_LARGE_SIZE && nb % 8 == 0 && BestFit(v, nb, p, rsize) && p != 0
    requires forall j: nat {:trigger Marked(st.smallmap, j)} :: nb / 8 <= j < 32 ==> !Marked(st.smallmap, j)
    ensures SmallestListed(v, p, nb)
  {
    hide Marked, Core;
    SmallestChunk(st, sb, v, loose, nb, p, rsize);
    forall s | s in v.lists && nb <= s ensures rsize + nb <= s { ListedSmall(st, sb, v, loose, s); }
  }

  lemma NothingFits(st: Store, sb: nat, v: View, loose: set<nat>, nb: nat)
    requires Core(st, sb, v, loose) && nb % 8 == 0 && st.treemap == 0
    requires forall j: nat {:trigger Marked(st.smallmap, j)} :: nb / 8 <= j < 32 ==> !Marked(st.smallmap, j)
    ensures NothingListed(v.lists, nb)
  {
    hide Marked, Core;
    forall s | s in v.lists ensures s < nb { ListedSmall(st, sb, v, loose, s); }
  }

  lemma UnlistedSmall(st: Store, sb: nat, v: View, loose: set<nat>, i: nat)
    requires Core(st, sb, v, loose) && i < 32
    ensures Marked(st.smallmap, i) <==> 8 * i in v.lists
  {
    hide Marked;
    SmallMarked(st, sb, v, loose, 8 * i);
  }

  lemma LastFetched(h: Heap, v: View, p: nat, i: nat, nb: nat)
    requires h.lists == v.lists && h.l == v.l && SmallestListed(v, p, nb) && FirstOf(v, i, p) && i < 32
    requires v.l.chunks[p].size == 8 * i && (h.dvsize >= nb ==> !PassedOver(h.lists, h.dvsize, nb))
    ensures Fetched(h, nb, p, FromBin(h, 8 * i, nb))
  {
    hide FromBin, Fetched, DvPreferred;
    assert 8 * i in h.lists && nb <= 8 * i;
    BinFetched(h, nb, 8 * i);
  }

  /** The resident of a tree is fetched, where the bins are not passed over. */
  lemma TreeFetched(st: Store, sb: nat, v: View, loose: set<nat>, h: Heap, nb: nat, p: nat, rsize: nat)
    requires Core(st, sb, v, loose) && BestFit(v, nb, p, rsize) && p != 0 && SmallestListed(v, p, nb)
    requires h.lists == v.lists && h.l == v.l && h.dvsize < nb
    ensures Fetched(h, nb, p, FromBin(h, rsize + nb, nb))
  {
    hide Core, FromBin, Fetched, DvPreferred;
    SmallestChunk(st, sb, v, loose, nb, p, rsize);
    BinFetched(h, nb, rsize + nb);
  }

  /** A chunk of the wanted size, or of the next, is binned. */
  method MallocExact(m: MallocState, i: nat, nb: nat) returns (mem: nat)
    requires m.Settled() && 16 <= nb < MIN_LARGE_SIZE && nb % 8 == 0 && i < 32 && Marked(m.smallmap, i)
    requires i == nb / 8 || (i == nb / 8 + 1 && !Marked(m.smallmap, nb / 8))
    modifies m`mem, m`smallmap, m`view
    ensures mem >= 8 && Allocated(m, old(m.view), old(m.mem), MemToChunk(mem), nb)
    ensures SmallestListed(old(m.view), MemToChunk(mem), nb) && !PassedOver(old(m.view.lists), m.dvsize, nb)
    ensures Fetched(old(HeapOf(m)), nb, MemToChunk(mem), HeapOf(m))
  {
    hide Core, Quiet, Marked, Grant, Steady, FromBin, Fetched;
    ghost var h := HeapOf(m);
    ghost var v0, st0, loose := m.view, m.St(), m.Resting();
    mem := TakeSmallBin(m, i, nb);
    SmallBinSmallest(st0, m.sb, v0, loose, nb, i, MemToChunk(mem));
    LastFetched(h, v0, MemToChunk(mem), i, nb);
  }

  /** The next marked bin, if any, and dv is too small. */
  method MallocNextBin(m: MallocState, idx: nat, nb: nat) returns (mem: nat)
    requires m.Settled() && 16 <= nb < MIN_LARGE_SIZE && nb % 8 == 0 && idx == nb / 8 && m.dvsize < nb
    requires From(m.smallmap, idx) != 0 && !Marked(m.smallmap, idx) && (idx < 31 ==> !Marked(m.smallmap, idx + 1))
    modifies m`mem, m`smallmap, m`view, m`dv, m`dvsize
    ensures mem >= 8 && Allocated(m, old(m.view), old(m.mem), MemToChunk(mem), nb)
    ensures SmallestListed(old(m.view), MemToChunk(mem), nb)
    ensures Fetched(old(HeapOf(m)), nb, MemToChunk(mem), HeapOf(m))
  {
    hide Core, Quiet, Marked, From, And, ShiftLeft, LeftBits, Bit, LeastBit, Ctz, Idx, Grant, Steady, FromBin, Fetched;
    ghost var h := HeapOf(m);
    ghost var v0, st0, loose := m.view, m.St(), m.Resting();
    NextSmallBin(m.smallmap, idx);
    var leftbits := And(ShiftLeft(From(m.smallmap, idx), Idx(idx)), LeftBits(Bit(idx)));
    var leastbit := LeastBit(leftbits);
    var i := Ctz(leastbit);
    mem := CutSmallBin(m, i, nb);
    SmallBinSmallest(st0, m.sb, v0, loose, nb, i, MemToChunk(mem));
    LastFetched(h, v0, MemToChunk(mem), i, nb);
  }

  /** No small bin has anything, and dv is too small: the trees, if they have. */
  method MallocSmallTree(m: MallocState, idx: nat, nb: nat) returns (mem: nat)
    requires m.Settled() && 16 <= nb < MIN_LARGE_SIZE && nb % 8 == 0 && idx == nb / 8 && m.dvsize < nb
    requires From(m.smallmap, idx) == 0
    modifies m`mem, m`smallmap, m`treemap, m`treebins, m`view, m`dv, m`dvsize
    ensures mem != NULL ==> mem >= 8 && Allocated(m, old(m.view), old(m.mem), MemToChunk(mem), nb)
    ensures mem != NULL ==> SmallestListed(old(m.view), MemToChunk(mem), nb)
    ensures mem != NULL ==> Fetched(old(HeapOf(m)), nb, MemToChunk(mem), HeapOf(m))
    ensures mem == NULL ==>
      m.view == old(m.view) && m.St() == old(m.St()) && m.dv == old(m.dv) && m.dvsize == old(m.dvsize)
    ensures mem == NULL ==> NothingListed(m.view.lists, nb)
  {
    hide Core, Quiet, Marked, From, Grant, Steady, SmallestListed, NothingListed, BestFit, FromBin, Fetched;
    ghost var h := HeapOf(m);
    ghost var v0, st0, loose := m.view, m.St(), m.Resting();
    mem := NULL;
    NoSmallBin(m.smallmap, idx);
    if m.treemap != 0 {
      ghost var rsize;
      mem, rsize := TmallocSmall(m, nb);
      TreeSmallest(st0, m.sb, v0, loose, nb, MemToChunk(mem), rsize);
      TreeFetched(st0, m.sb, v0, loose, h, nb, MemToChunk(mem), rsize);
    } else {
      NothingFits(st0, m.sb, v0, loose, nb);
    }
  }

  /** dlmalloc's small path through the bins. */
  method MallocSmall(m: MallocState, nb: nat) returns (mem: nat)
    requires m.Settled() && 16 <= nb < MIN_LARGE_SIZE && nb % 8 == 0
    modifies m`mem, m`smallmap, m`treemap, m`treebins, m`view, m`dv, m`dvsize
    ensures mem != NULL ==> mem >= 8 && Allocated(m, old(m.view), old(m.mem), MemToChunk(mem), nb)
    ensures mem != NULL ==> SmallestListed(old(m.view), MemToChunk(mem), nb)
    ensures mem != NULL ==> Fetched(old(HeapOf(m)), nb, MemToChunk(mem), HeapOf(m))
    ensures mem == NULL ==>
      m.view == old(m.view) && m.St() == old(m.St()) && m.dv == old(m.dv) && m.dvsize == old(m.dvsize)
    ensures mem == NULL <==> PassedOver(old(m.view.lists), old(m.dvsize), nb)
  {
    hide Core, Quiet, Marked, From, And, Grant, SteadySince, m.Settled, PassedOver, SmallestListed, NothingListed,
      Fetched;
    mem := NULL;
    var idx := SmallIndex(nb);
    var smallbits := From(m.smallmap, idx);
    ExactBin(m.smallmap, idx);
    if And(smallbits, 3) != 0 {
      idx := idx + (if And(!smallbits, 1) != 0 then 1 else 0);
      mem := MallocExact(m, idx, nb);
    } else if nb > m.dvsize {
      ghost var v0, dvsize := m.view, m.dvsize;
      if smallbits != 0 {
        mem := MallocNextBin(m, idx, nb);
      } else {
        mem := MallocSmallTree(m, idx, nb);
      }
      DvTooSmall(v0, dvsize, nb, mem);
    } else {
      ExactUnlisted(m, idx, nb);
    }
  }

  /** The bin the two low bits lead to. */
  lemma ExactBin(m: bv32, idx: nat)
    requires idx < 32
    ensures And(From(m, idx), 3) != 0 ==>
      var i := idx + (if And(!From(m, idx), 1) != 0 then 1 else 0);
      i < 32 && Marked(m, i) && (i == idx || (i == idx + 1 && !Marked(m, idx)))
    ensures And(From(m, idx), 3) == 0 ==> !Marked(m, idx) && (idx < 31 ==> !Marked(m, idx + 1))
  {
    hide And, From, Marked;
    TwoBins(m, idx);
  }

  lemma DvTooSmall(v: View, dvsize: nat, nb: nat, mem: nat)
    requires dvsize < nb
    requires if mem == NULL then NothingListed(v.lists, nb) else mem >= 8 && SmallestListed(v, MemToChunk(mem), nb)
    ensures mem == NULL <==> PassedOver(v.lists, dvsize, nb)
  {
  }

  lemma ExactUnlisted(m: MallocState, idx: nat, nb: nat)
    requires m.Settled() && idx < 32 && !Marked(m.smallmap, idx) && (idx < 31 ==> !Marked(m.smallmap, idx + 1))
    requires nb == 8 * idx && nb <= m.dvsize
    ensures PassedOver(m.view.lists, m.dvsize, nb)
  {
    hide Core, Marked;
    UnlistedSmall(m.St(), m.sb, m.view, m.Resting(), idx);
    if idx < 31 { UnlistedSmall(m.St(), m.sb, m.view, m.Resting(), idx + 1); }
  }

  /** The front of dv, or of top, is granted: what is left of it takes its place. */
  lemma DvTaken(st: Store, sb: nat, v: View, loose: set<nat>, top: nat, topsize: nat, dv: nat, dvsize: nat, nb: nat)
    requires Core(st, sb, v, loose) && TopDv(v.l, top, topsize, dv, dvsize) && 16 <= nb < dvsize && dv in loose
    requires loose == {top, dv}
    ensures var n := Two(v.l, dv, dv + nb, Next(v.l, dv), false);
      && TopDv(n, top, topsize, dv + nb, dvsize - nb) && n.first == v.l.first && n.end == v.l.end
      && (Live(n) == Live(v.l)[dv := nb] ==> Grant(v.l, n, dv, nb)) && dv in n.chunks && n.chunks[dv].size == nb
    ensures loose - {dv} + {dv + nb} == {top, dv + nb}
    ensures dv in v.l.chunks && !v.l.chunks[dv].inuse && v.l.chunks[dv].size == dvsize && Next(v.l, dv) != v.l.end
  {
    hide Core, Two, Grant, Live;
    TwoSame(v.l, dv, dv + nb, Next(v.l, dv), false);
    FrontGrants(st, sb, v, loose, dv, nb, top);
  }

  lemma TopTaken(st: Store, sb: nat, v: View, loose: set<nat>, top: nat, topsize: nat, dv: nat, dvsize: nat, nb: nat)
    requires Core(st, sb, v, loose) && TopDv(v.l, top, topsize, dv, dvsize) && 16 <= nb < topsize && top in loose
    requires loose == if dvsize > 0 then {top, dv} else {top}
    ensures var n := Two(v.l, top, top + nb, v.l.end, false);
      && TopDv(n, top + nb, topsize - nb, dv, dvsize) && n.first == v.l.first && n.end == v.l.end
      && (Live(n) == Live(v.l)[top := nb] ==> Grant(v.l, n, top, nb)) && top in n.chunks && n.chunks[top].size == nb
    ensures loose - {top} + {top + nb} == (if dvsize > 0 then {top + nb, dv} else {top + nb})
    ensures top in v.l.chunks && !v.l.chunks[top].inuse && v.l.chunks[top].size == topsize
    ensures Next(v.l, top) == v.l.end == top + topsize
  {
    hide Core, Two, Grant, Live;
    TwoSame(v.l, top, top + nb, v.l.end, false);
    FrontGrants(st, sb, v, loose, top, nb, dv);
  }

  method SplitDv(m: MallocState, p: nat, nb: nat)
    requires m.Settled() && p == m.dv && 16 <= nb && nb + MIN_CHUNK_SIZE <= m.dvsize && nb % 8 == 0
    modifies m`mem, m`view, m`dv, m`dvsize
    ensures Allocated(m, old(m.view), old(m.mem), p, nb) && m.view.lists == old(m.view.lists)
    ensures HeapOf(m) == FromDv(old(HeapOf(m)), nb)
  {
    hide Steady, Core, Quiet, Two, Grounded, CanBeTwo, Relax, Grant, Live, TopDv, Sized,
      SetSizeAndPinuseOfFreeChunk, SetSizeAndPinuseOfInuseChunk;
    ghost var st, l0, loose := m.St(), m.view.l, m.Resting();
    ListsSized(st, m.sb, m.view, loose);
    DvTaken(st, m.sb, m.view, loose, m.top, m.topsize, p, m.dvsize, nb);
    FreeFacts(st, m.sb, m.view, loose, p);
    CoreCanSplit(st, m.sb, m.view, loose, p, nb);
    PartedIs(l0, p, p + nb, Next(l0, p), false);
    var r, rsize := p + nb, m.dvsize - nb;
    m.dv := r;
    m.dvsize := rsize;
    m.mem := SetSizeAndPinuseOfFreeChunk(m.mem, r, rsize);
    m.mem := SetSizeAndPinuseOfInuseChunk(m.mem, p, nb);
    CoreTwoFree(st, m.sb, m.view, loose, p, r, Next(l0, p), m.mem);
    m.view := m.view.(l := Two(l0, p, r, Next(l0, p), false));
  }

  method ExhaustDv(m: MallocState, p: nat, nb: nat)
    requires m.Settled() && p == m.dv && 16 <= nb <= m.dvsize < nb + MIN_CHUNK_SIZE
    modifies m`mem, m`view, m`dv, m`dvsize
    ensures Allocated(m, old(m.view), old(m.mem), p, nb) && m.view.lists == old(m.view.lists)
    ensures HeapOf(m) == FromDv(old(HeapOf(m)), nb)
  {
    hide Steady, Core, Quiet, One, Grounded, CanBeOne, Relax;
    ghost var st, l0, loose := m.St(), m.view.l, m.Resting();
    ListsSized(st, m.sb, m.view, loose);
    FreeFacts(st, m.sb, m.view, loose, p);
    WholeGrants(st, m.sb, m.view, loose, p, nb, m.top);
    FusedIs(l0, p, Next(l0, p), true);
    var dvs := m.dvsize;
    m.dvsize := 0;
    m.dv := 0;
    m.mem := SetInuseAndPinuse(m.mem, p, dvs);
    CoreOneInuse(st, m.sb, m.view, loose, p, p + dvs, m.mem);
    m.view := m.view.(l := One(l0, p, p + dvs, true));
    assert loose - {p} == m.Resting();
  }

  /** Split or exhaust dv. */
  method UseDv(m: MallocState, nb: nat) returns (mem: nat)
    requires m.Settled() && 16 <= nb <= m.dvsize && nb % 8 == 0
    modifies m`mem, m`view, m`dv, m`dvsize
    ensures mem >= 8 && Allocated(m, old(m.view), old(m.mem), MemToChunk(mem), nb)
    ensures MemToChunk(mem) == old(m.dv) && m.view.lists == old(m.view.lists)
    ensures HeapOf(m) == FromDv(old(HeapOf(m)), nb)
  {
    var rsize := m.dvsize - nb;
    var p := m.dv;
    if rsize >= MIN_CHUNK_SIZE {
      SplitDv(m, p, nb);
    } else {
      ExhaustDv(m, p, nb);
    }
    mem := ChunkToMem(p);
  }

  /** Split top. */
  method UseTop(m: MallocState, nb: nat) returns (mem: nat)
    requires m.Settled() && 16 <= nb < m.topsize && nb % 8 == 0
    modifies m`mem, m`view, m`top, m`topsize
    ensures mem >= 8 && Allocated(m, old(m.view), old(m.mem), MemToChunk(mem), nb)
    ensures MemToChunk(mem) == old(m.top) && m.view.lists == old(m.view.lists) && m.view.l.chunks[old(m.top)].size == nb
    ensures HeapOf(m) == FromTop(old(HeapOf(m)), nb)
  {
    hide Steady, Core, Quiet, Two, Grounded, CanBeTwo, Relax, Grant, Live, TopDv, Sized, SetHead,
      SetSizeAndPinuseOfInuseChunk;
    ghost var st, l0, loose := m.St(), m.view.l, m.Resting();
    ListsSized(st, m.sb, m.view, loose);
    TopTaken(st, m.sb, m.view, loose, m.top, m.topsize, m.dv, m.dvsize, nb);
    FreeFacts(st, m.sb, m.view, loose, m.top);
    CoreCanSplit(st, m.sb, m.view, loose, m.top, nb);
    PartedIs(l0, m.top, m.top + nb, l0.end, false);
    m.topsize := m.topsize - nb;
    var rsize := m.topsize;
    var p := m.top;
    var r := p + nb;
    m.top := r;
    m.mem := SetHead(m.mem, r, rsize + 1);
    m.mem := SetSizeAndPinuseOfInuseChunk(m.mem, p, nb);
    CoreTwoTop(st, m.sb, m.view, loose, p, r, m.mem);
    m.view := m.view.(l := Two(l0, p, r, l0.end, false));
    mem := ChunkToMem(p);
  }
}
