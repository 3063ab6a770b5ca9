/** try_realloc_chunk: resize a chunk without moving it. */
module Reallocating {
  import opened Memory
  import opened Layouts
  import opened Tags
  import opened Payloads
  import opened Bins
  import opened SmallBins
  import opened TreeBins
  import opened Ages
  import opened Heaps
  import opened HeapSteps
  import opened HeapBins
  import opened MallocStates
  import opened Policies
  import opened Freeing
  import opened Allocating

  function Min(a: nat, b: nat): nat { if a <= b then a else b }

  /** The live chunk at p now has at least nb and less than nb + 16 bytes; every other payload, and its own
      as far as the old and the new one overlap, is as it was. */
  ghost predicate Resized(m: MallocState, v0: View, m0: Mem, p: nat, nb: nat)
    reads m
  {
    && m.Settled() && m.view.l.first == v0.l.first && m.view.l.end == v0.l.end
    && p in Live(v0.l) && p in m.view.l.chunks && nb <= m.view.l.chunks[p].size < nb + MIN_CHUNK_SIZE
    && Live(m.view.l) == Live(v0.l)[p := m.view.l.chunks[p].size]
    && Quiet(Live(v0.l)[p := Min(Live(v0.l)[p], m.view.l.chunks[p].size)], m0, m.mem)
    && SteadySince(v0, m.view)
  }

  /** [p, e) is the in-use chunk p, or p and the unbinned free chunk behind it, the one in `taken`. */
  ghost predicate Room(l: Layout, loose: set<nat>, p: nat, e: nat, taken: set<nat>) {
    && p in l.chunks && l.chunks[p].inuse
    && (if taken == {} then e == Next(l, p)
        else
          && Next(l, p) in l.chunks && !l.chunks[Next(l, p)].inuse && Next(l, p) in loose
          && taken == {Next(l, p)} && e == Next(l, Next(l, p)))
  }

  lemma RoomFacts(st: Store, sb: nat, v: View, loose: set<nat>, p: nat, e: nat, taken: set<nat>)
    requires Core(st, sb, v, loose) && Room(v.l, loose, p, e, taken)
    ensures LiveOutside(v.l, p, e) == Live(v.l) - {p} && Grounded(v.l, loose, p, e)
    ensures forall q {:trigger q in v.l.chunks} :: q in v.l.chunks && p <= q < e ==> q == p || q in taken
    ensures forall q {:trigger q in taken} :: q in taken ==> q == Next(v.l, p)
    ensures forall xs: set<nat> {:trigger Relax(loose, p, e, xs)} :: Relax(loose, p, e, xs) == loose - taken + xs
    ensures Boundary(v.l, e) && p % 8 == 0 && e % 8 == 0 && p + 16 <= Next(v.l, p) <= e <= v.l.end && p >= v.l.first > 0
    ensures taken == {} ==> e != v.l.end
    ensures e != v.l.end ==> e in v.l.chunks && (taken != {} ==> v.l.chunks[e].inuse && !v.l.chunks[e].pin)
  {
    hide SmallReady, TreeReady, Tagged;
    assert FitsAt(v.l, p) && LinkedAt(v.l, p);
    var n := Next(v.l, p);
    assert n in v.l.chunks ==> FitsAt(v.l, n) && LinkedAt(v.l, n);
    forall q | q in v.l.chunks && p <= q < e ensures q == p || q in taken {
      assert ApartAt(v.l, p, q) && ApartAt(v.l, n, q);
    }
    forall x | x in loose ensures x in taken || !(p <= x < e) { assert LooseAt(v.l, x); }
  }

  lemma ResizeQuiet(live: map<nat, nat>, outside: map<nat, nat>, a: nat, b: nat, e: nat, k: nat, m: Mem, m': Mem)
    requires a <= b < e && TagWrites(m, m', a, b, e) && Quiet(outside, m, m') && a + k <= b && outside == live - {a}
    ensures Quiet(live[a := k], m, m')
  {
    hide TagWrites;
    TagWritesQuiet(Layout(0, 0, map[]), a, b, e, m, m', map[a := k]);
    var all := live[a := k];
    forall p | p in all ensures PayloadKept(m, m', p, all[p]) {
      if p != a { assert PayloadKept(m, m', p, outside[p]); }
      else { assert PayloadKept(m, m', p, map[a := k][p]); }
    }
  }

  lemma WithoutThenWith(live: map<nat, nat>, p: nat, size: nat)
    ensures (live - {p})[p := size] == live[p := size]
  {
  }

  lemma LiveThere(l: Layout, p: nat)
    requires p in l.chunks && l.chunks[p].inuse
    ensures p in Live(l) && Live(l)[p] == l.chunks[p].size && Live(l)[p := l.chunks[p].size] == Live(l)
  {
  }

  lemma CoreSplitRoom(st: Store, sb: nat, v: View, loose: set<nat>, p: nat, b: nat, e: nat, taken: set<nat>, m': Mem)
    requires Core(st, sb, v, loose) && Room(v.l, loose, p, e, taken) && e != v.l.end
    requires p + 16 <= b && b % 8 == 0 && b + 16 <= e
    requires m' == SetInuse(SetInuse(st.mem, p, b - p), b, e - b)
      || m' == SetInuse(SetInuse(st.mem, b, e - b), p, b - p)
    ensures p in v.l.chunks
    ensures Core(st.(mem := m'), sb, v.(l := Two(v.l, p, b, e, true)), loose - taken)
    ensures Live(Two(v.l, p, b, e, true)) == Live(v.l)[p := b - p][b := e - b]
    ensures Quiet(Live(v.l)[p := Min(v.l.chunks[p].size, b - p)], st.mem, m')
  {
    hide Core, Quiet, Grounded, CanBeTwo, Two, Relax, TagWrites, LiveOutside, SetInuse;
    RoomFacts(st, sb, v, loose, p, e, taken);
    LiveThere(v.l, p);
    RoomSplits(v.l, p, b, e);
    CoreTwoInuse(st, sb, v, loose, p, b, e, m');
    ResizeQuiet(Live(v.l), LiveOutside(v.l, p, e), p, b, e, Min(v.l.chunks[p].size, b - p), st.mem, m');
    assert Relax(loose, p, e, {}) == loose - taken + {} == loose - taken;
    WithoutThenWith(Live(v.l), p, b - p);
  }

  lemma RoomSplits(l: Layout, a: nat, b: nat, e: nat)
    requires a in l.chunks && a + 16 <= b && b % 8 == 0 && b + 16 <= e && Boundary(l, e) && e != l.end
    ensures CanBeTwo(l, a, b, e, true)
  {
  }

  /** The retilings leave the chunk at q alone when it lies outside. */
  lemma TwoKeeps(l: Layout, a: nat, b: nat, e: nat, inuse: bool, q: nat)
    requires a in l.chunks && a < b < e && !(a <= q < e) && b !in l.chunks
    ensures Undisturbed(l, Two(l, a, b, e, inuse), q) && Two(l, a, b, e, inuse).first == l.first
    ensures Two(l, a, b, e, inuse).end == l.end
    ensures b in Two(l, a, b, e, inuse).chunks && Two(l, a, b, e, inuse).chunks[b] == Chunk(e - b, inuse, true)
    ensures a in Two(l, a, b, e, inuse).chunks
    ensures Two(l, a, b, e, inuse).chunks[a] == Chunk(b - a, true, l.chunks[a].pin)
    ensures q in l.chunks && Next(l, q) == l.end ==> Next(Two(l, a, b, e, inuse), q) == l.end
  {
  }

  lemma QuietClip(live: map<nat, nat>, p: nat, k: nat, m: Mem, m': Mem)
    requires Quiet(live, m, m') && p in live && 8 <= k <= live[p]
    ensures Quiet(live[p := k], m, m')
  {
    var clipped := live[p := k];
    assert PayloadKept(m, m', p, live[p]);
    assert k < live[p] ==> SameAt(m, m', p + k);
    forall q | q in clipped ensures PayloadKept(m, m', q, clipped[q]) {
      if q != p { assert PayloadKept(m, m', q, live[q]); }
    }
  }

  lemma TwoKeepsTopDv(l: Layout, a: nat, b: nat, e: nat, top: nat, topsize: nat, dv: nat, dvsize: nat)
    requires TopDv(l, top, topsize, dv, dvsize) && a in l.chunks && a < b < e && b !in l.chunks && !(a <= top < e)
    requires !(a <= dv < e)
    ensures var n := Two(l, a, b, e, true);
      && TopDv(n, top, topsize, dv, dvsize) && n.first == l.first && n.end == l.end
      && b in n.chunks && n.chunks[b] == Chunk(e - b, true, true)
  {
    TwoKeeps(l, a, b, e, true, top);
    TwoKeeps(l, a, b, e, true, dv);
  }

  /** The room around p, with top and dv outside. */
  ghost predicate Resizing(m: MallocState, p: nat, e: nat, taken: set<nat>, v0: View, m0: Mem)
    reads m
  {
    && m.top != 0 && m.TopAndDv() && m.Holds(m.Resting() + taken) && Room(m.view.l, m.Resting() + taken, p, e, taken)
    && taken !! m.Resting() && m.view.l == v0.l && Quiet(Live(v0.l), m0, m.mem) && SteadySince(v0, m.view)
  }

  lemma OutsideRoom(m: MallocState, p: nat, e: nat, taken: set<nat>, v0: View, m0: Mem)
    requires Resizing(m, p, e, taken, v0, m0)
    ensures p in v0.l.chunks && v0.l.chunks[p].inuse && v0.l.chunks[p].size >= 16
    ensures !(p <= m.top < e) && !(p <= m.dv < e) && p % 8 == 0
    ensures forall b :: p < b < e && b !in taken ==> b !in v0.l.chunks && b !in Live(v0.l)
    ensures p in Live(v0.l) && Live(v0.l)[p] == v0.l.chunks[p].size
    ensures e % 8 == 0 && m.Resting() + taken - taken == m.Resting() && e > p
  {
    hide Core, Steady;
    RoomFacts(m.St(), m.sb, m.view, m.Resting() + taken, p, e, taken);
  }

  /** Make two in-use chunks of the room around p. */
  method SplitRoom(m: MallocState, p: nat, nb: nat, rsize: nat, ghost e: nat, ghost taken: set<nat>, ghost v0: View,
          ghost m0: Mem)
    requires Resizing(m, p, e, taken, v0, m0) && e != v0.l.end && e == p + nb + rsize && nb >= 16 && rsize >= 16
    requires nb % 8 == 0
    requires p + nb !in taken
    modifies m`mem, m`view
    ensures m.Settled() && m.view.l.first == v0.l.first && m.view.l.end == v0.l.end && p in Live(v0.l)
    ensures Live(v0.l)[p] >= 16
    ensures p + nb in m.view.l.chunks && m.view.l.chunks[p + nb].inuse && m.view.l.chunks[p + nb].size == rsize
    ensures Live(m.view.l) == Live(v0.l)[p := nb][p + nb := rsize] && p + nb !in Live(v0.l)
    ensures Quiet(Live(v0.l)[p := Min(Live(v0.l)[p], nb)], old(m.mem), m.mem) && SteadySince(v0, m.view)
    ensures HeapOf(m) == old(HeapOf(m)).(l := Parted(v0.l, p, p + nb, e, true))
  {
    hide Core, Quiet, Two, Room, SetInuse, Live, TopDv, Steady;
    OutsideRoom(m, p, e, taken, v0, m0);
    ghost var st := m.St();
    var r := p + nb;
    PartedIs(v0.l, p, r, e, true);
    m.mem := SetInuse(m.mem, p, nb);
    m.mem := SetInuse(m.mem, r, rsize);
    CoreSplitRoom(st, m.sb, m.view, m.Resting() + taken, p, r, e, taken, m.mem);
    TwoKeepsTopDv(v0.l, p, r, e, m.top, m.topsize, m.dv, m.dvsize);
    m.view := m.view.(l := Two(v0.l, p, r, e, true));
  }

  ghost predicate Absent(lists: Lists, x: nat) {
    forall s: nat {:trigger Queued(lists, s, x)} :: !Queued(lists, s, x)
  }

  /** The part split off has an in-use chunk in front. */
  lemma SplitUnlisted(m: MallocState, lists: Lists, p: nat, r: nat)
    requires m.Settled() && p in m.view.l.chunks && m.view.l.chunks[p].inuse && Next(m.view.l, p) == r
    requires r in m.view.l.chunks && Absent(lists, r)
    ensures Unlisted(lists, m.view.l, r)
  {
    OrderNow(m);
    var l := m.view.l;
    hide m.Settled, Sized;
    forall x | x in l.chunks && Next(l, x) == r ensures x == p {
      assert ApartAt(l, x, p) && ApartAt(l, p, x) && FitsAt(l, x) && FitsAt(l, p);
    }
  }

  /** A place inside a chunk is in no list. */
  lemma InsideAbsent(v: View, x: nat)
    requires Sized(v) && x !in v.l.chunks
    ensures Absent(v.lists, x)
  {
  }

  /** Split the room and dispose of the part behind nb bytes. */
  method SplitAndDispose(m: MallocState, p: nat, nb: nat, rsize: nat, ghost e: nat, ghost taken: set<nat>,
          ghost v0: View, ghost m0: Mem)
    requires Resizing(m, p, e, taken, v0, m0) && e != v0.l.end && e == p + nb + rsize && nb >= 16 && rsize >= 16
    requires nb % 8 == 0
    requires p + nb !in taken && Absent(v0.lists, p + nb)
    modifies m`mem, m`smallmap, m`treemap, m`treebins, m`view, m`top, m`topsize, m`dv, m`dvsize
    ensures Resized(m, v0, m0, p, nb) && m.view.l.chunks[p].size == nb
    ensures HeapOf(m) == CutBack(old(HeapOf(m)), p, nb, e)
  {
    hide Core, Quiet, Room, m.Settled, m.TopAndDv, Steady, AfterFree, Parted;
    ghost var m1 := m.mem;
    var r := p + nb;
    SplitRoom(m, p, nb, rsize, e, taken, v0, m0);
    ghost var v2, m2 := m.view, m.mem;
    LiveSize(m.view.l, p);
    SplitUnlisted(m, v0.lists, p, r);
    DisposeSince(m, r, rsize, v0.(l := v2.l));
    assert Live(v0.l)[p := nb][r := rsize] - {r} == Live(v0.l)[p := nb];
    SplitQuiet(Live(v0.l), p, Min(Live(v0.l)[p], nb), nb, m0, m1, m2, m.mem);
    LiveSize(m.view.l, p);
  }

  lemma LiveSize(l: Layout, p: nat)
    ensures p in Live(l) ==> p in l.chunks && l.chunks[p].inuse && l.chunks[p].size == Live(l)[p]
  {
  }

  lemma SplitQuiet(live: map<nat, nat>, p: nat, k: nat, nb: nat, m0: Mem, m1: Mem, m2: Mem, m3: Mem)
    requires Quiet(live, m0, m1) && p in live && 8 <= k == Min(live[p], nb)
    requires Quiet(live[p := k], m1, m2) && Quiet(live[p := nb], m2, m3)
    ensures Quiet(live[p := k], m0, m3)
  {
    hide Quiet;
    QuietClip(live, p, k, m0, m1);
    QuietClip(live[p := nb], p, k, m2, m3);
    assert live[p := nb][p := k] == live[p := k];
    QuietTransitive(live[p := k], m0, m1, m2);
    QuietTransitive(live[p := k], m0, m2, m3);
  }

  lemma TagWritesLoosened(m: Mem, m': Mem, a: nat, b: nat, e: nat)
    requires TagWrites(m, m', a, a, e)
    ensures TagWrites(m, m', a, b, e)
  {
  }

  /** One in-use chunk over p and the free chunk behind it. */
  lemma CoreFillRoom(st: Store, sb: nat, v: View, loose: set<nat>, p: nat, e: nat, taken: set<nat>, m': Mem)
    requires Core(st, sb, v, loose) && Room(v.l, loose, p, e, taken) && e != v.l.end && taken != {} && p < e
    requires m' == SetInuse(st.mem, p, e - p)
    ensures p in v.l.chunks
    ensures Core(st.(mem := m'), sb, v.(l := One(v.l, p, e, true)), loose - taken)
    ensures Live(One(v.l, p, e, true)) == Live(v.l)[p := e - p]
    ensures Quiet(Live(v.l), st.mem, m')
  {
    hide Core, Quiet, Grounded, Relax, One, TagWrites, LiveOutside, SetInuse, Live;
    RoomFacts(st, sb, v, loose, p, e, taken);
    LiveThere(v.l, p);
    CoreOneInuse(st, sb, v, loose, p, e, m');
    TagWritesLoosened(st.mem, m', p, Next(v.l, p), e);
    ResizeQuiet(Live(v.l), LiveOutside(v.l, p, e), p, Next(v.l, p), e, v.l.chunks[p].size, st.mem, m');
    assert Live(v.l)[p := v.l.chunks[p].size] == Live(v.l);
    assert Relax(loose, p, e, {}) == loose - taken + {} == loose - taken;
    WithoutThenWith(Live(v.l), p, e - p);
  }

  lemma RoomGrows(l: Layout, a: nat, b: nat, e: nat)
    requires a in l.chunks && a + 16 <= b && b % 8 == 0 && Boundary(l, e)
    requires if e == l.end then b + 8 <= e else b + 16 <= e && l.chunks[e].inuse
    ensures CanBeTwo(l, a, b, e, false)
  {
  }

  lemma GrownQuiet(v: View, p: nat, b: nat, e: nat, m: Mem, m': Mem)
    requires p in v.l.chunks && v.l.chunks[p].inuse && Next(v.l, p) <= b < e && TagWrites(m, m', p, b, e)
    requires Quiet(LiveOutside(v.l, p, e), m, m') && LiveOutside(v.l, p, e) == Live(v.l) - {p}
    ensures Quiet(Live(v.l), m, m')
  {
    hide Quiet, TagWrites;
    ResizeQuiet(Live(v.l), LiveOutside(v.l, p, e), p, b, e, v.l.chunks[p].size, m, m');
    assert Live(v.l)[p := v.l.chunks[p].size] == Live(v.l);
  }

  /** p grows into top, which keeps the part from b on. */
  lemma CoreGrowIntoTop(st: Store, sb: nat, v: View, loose: set<nat>, p: nat, b: nat, top: nat, m': Mem)
    requires Core(st, sb, v, loose) && Room(v.l, loose, p, v.l.end, {top}) && Next(v.l, p) <= b < v.l.end && b % 8 == 0
    requires m' == SetHead(SetInuse(st.mem, p, b - p), b, v.l.end - b + 1)
    ensures Core(st.(mem := m'), sb, v.(l := Two(v.l, p, b, v.l.end, false)), loose - {top} + {b})
    ensures Live(Two(v.l, p, b, v.l.end, false)) == Live(v.l)[p := b - p]
    ensures Quiet(Live(v.l), st.mem, m')
  {
    hide Core, Quiet, Grounded, Relax, Two, CanBeTwo, TagWrites, LiveOutside, SetInuse, SetHead, Live;
    RoomFacts(st, sb, v, loose, p, v.l.end, {top});
    RoomGrows(v.l, p, b, v.l.end);
    CoreTwoTop(st, sb, v, loose, p, b, m');
    GrownQuiet(v, p, b, v.l.end, st.mem, m');
    assert Relax(loose, p, v.l.end, {b}) == loose - {top} + {b};
    WithoutThenWith(Live(v.l), p, b - p);
  }

  /** p grows into dv, which keeps the part from b on. */
  lemma CoreGrowIntoDv(st: Store, sb: nat, v: View, loose: set<nat>, p: nat, b: nat, e: nat, dv: nat, m': Mem)
    requires Core(st, sb, v, loose) && Room(v.l, loose, p, e, {dv}) && Next(v.l, p) <= b && b + 16 <= e && b % 8 == 0
    requires e != v.l.end
    requires m' == ClearPinuse(SetSizeAndPinuseOfFreeChunk(SetInuse(st.mem, p, b - p), b, e - b), e)
    ensures Core(st.(mem := m'), sb, v.(l := Two(v.l, p, b, e, false)), loose - {dv} + {b})
    ensures Live(Two(v.l, p, b, e, false)) == Live(v.l)[p := b - p]
    ensures Quiet(Live(v.l), st.mem, m')
  {
    hide Core, Quiet, Grounded, Relax, Two, CanBeTwo, TagWrites, LiveOutside, SetInuse, ClearPinuse,
      SetSizeAndPinuseOfFreeChunk, Live;
    RoomFacts(st, sb, v, loose, p, e, {dv});
    RoomGrows(v.l, p, b, e);
    CoreTwoGrown(st, sb, v, loose, p, b, e, m');
    GrownQuiet(v, p, b, e, st.mem, m');
    assert Relax(loose, p, e, {b}) == loose - {dv} + {b};
    WithoutThenWith(Live(v.l), p, b - p);
  }

  /** What Resized says when the chunk did not shrink. */
  lemma Grown(m: MallocState, v0: View, m0: Mem, p: nat, nb: nat, size: nat)
    requires m.Settled() && m.view.l.first == v0.l.first && m.view.l.end == v0.l.end && SteadySince(v0, m.view)
    requires p in Live(v0.l) && Live(v0.l)[p] <= size && nb <= size < nb + MIN_CHUNK_SIZE
    requires Live(m.view.l) == Live(v0.l)[p := size] && Quiet(Live(v0.l), m0, m.mem)
    ensures Resized(m, v0, m0, p, nb) && m.view.l.chunks[p].size == size
  {
    hide Core, Quiet, Steady;
    LiveSize(m.view.l, p);
    assert Live(v0.l)[p := Live(v0.l)[p]] == Live(v0.l);
  }

  lemma TopRoom(m: MallocState, p: nat)
    requires m.Settled() && p in m.view.l.chunks && m.view.l.chunks[p].inuse && Next(m.view.l, p) == m.top
    ensures m.top + m.topsize == m.view.l.end
    ensures Room(m.view.l, m.Resting(), p, m.view.l.end, {m.top})
    ensures p % 8 == 0 && m.view.l.chunks[p].size >= 16 && p < m.view.l.end && !(p <= m.dv < m.view.l.end)
    ensures p in Live(m.view.l) && Live(m.view.l)[p] == m.view.l.chunks[p].size
    ensures forall b :: m.top < b < m.view.l.end ==> b !in m.view.l.chunks
  {
    hide Core;
    RoomFacts(m.St(), m.sb, m.view, m.Resting(), p, m.view.l.end, {m.top});
  }

  /** top, grown over from p, starts at b. */
  lemma TopMoved(l: Layout, p: nat, b: nat, top: nat, topsize: nat, dv: nat, dvsize: nat)
    requires TopDv(l, top, topsize, dv, dvsize) && p in l.chunks && p < b < l.end && b !in l.chunks
    requires !(p <= dv < l.end)
    ensures var n := Two(l, p, b, l.end, false);
      && TopDv(n, b, l.end - b, dv, dvsize) && n.first == l.first && n.end == l.end
  {
    TwoKeeps(l, p, b, l.end, false, dv);
  }

  /** dv, grown over from p, starts at b. */
  lemma DvMoved(l: Layout, p: nat, b: nat, e: nat, top: nat, topsize: nat, dv: nat, dvsize: nat)
    requires TopDv(l, top, topsize, dv, dvsize) && p in l.chunks && p < b < e && b !in l.chunks && !(p <= top < e)
    requires e != l.end && 0 < e - b
    ensures var n := Two(l, p, b, e, false);
      && TopDv(n, top, topsize, b, e - b) && n.first == l.first && n.end == l.end
  {
    TwoKeeps(l, p, b, e, false, top);
  }

  /** The chunk behind is top: extend into it. */
  method ExtendIntoTop(m: MallocState, p: nat, oldsize: nat, nb: nat)
    requires m.Settled() && p in m.view.l.chunks && m.view.l.chunks[p].inuse && oldsize == m.view.l.chunks[p].size
    requires p + oldsize == m.top && oldsize < nb < oldsize + m.topsize && nb % 8 == 0
    modifies m`mem, m`view, m`top, m`topsize
    ensures Resized(m, old(m.view), old(m.mem), p, nb) && m.view.l.chunks[p].size == nb
    ensures HeapOf(m) == IntoTop(old(HeapOf(m)), p, nb)
  {
    hide Steady, Core, Quiet, Two, Room, SetInuse, SetHead, Live, TopDv;
    TopRoom(m, p);
    ghost var st, v0, l0 := m.St(), m.view, m.view.l;
    OrderNow(m);
    var newsize := oldsize + m.topsize;
    var newtopsize := newsize - nb;
    var newtop := p + nb;
    PartedIs(l0, p, newtop, l0.end, false);
    m.mem := SetInuse(m.mem, p, nb);
    m.mem := SetHead(m.mem, newtop, newtopsize + 1);
    CoreGrowIntoTop(st, m.sb, m.view, m.Resting(), p, newtop, m.top, m.mem);
    TopMoved(l0, p, newtop, m.top, m.topsize, m.dv, m.dvsize);
    ghost var loose := m.Resting() - {m.top} + {newtop};
    m.top := newtop;
    m.topsize := newtopsize;
    m.view := m.view.(l := Two(l0, p, newtop, l0.end, false));
    assert loose == m.Resting();
    Grown(m, v0, st.mem, p, nb, nb);
  }

  lemma DvRoom(m: MallocState, p: nat)
    requires m.Settled() && p in m.view.l.chunks && m.view.l.chunks[p].inuse && m.dvsize > 0
    requires Next(m.view.l, p) == m.dv
    ensures var e := m.dv + m.dvsize;
      && Room(m.view.l, m.Resting(), p, e, {m.dv}) && e != m.view.l.end && !(p <= m.top < e)
      && (forall b :: m.dv < b < e ==> b !in m.view.l.chunks)
    ensures p % 8 == 0 && m.view.l.chunks[p].size >= 16 && p > 0
    ensures p in Live(m.view.l) && Live(m.view.l)[p] == m.view.l.chunks[p].size
  {
    hide Core;
    RoomFacts(m.St(), m.sb, m.view, m.Resting(), p, m.dv + m.dvsize, {m.dv});
  }

  /** The chunk behind is dv, and enough of it is left to stay dv. */
  method SplitDvBehind(m: MallocState, p: nat, oldsize: nat, nb: nat, dsize: nat)
    requires m.Settled() && p in m.view.l.chunks && m.view.l.chunks[p].inuse && oldsize == m.view.l.chunks[p].size
    requires m.dvsize > 0 && p + oldsize == m.dv && oldsize < nb && dsize >= MIN_CHUNK_SIZE
    requires nb + dsize == oldsize + m.dvsize && nb % 8 == 0
    modifies m`mem, m`view, m`dv, m`dvsize
    ensures Resized(m, old(m.view), old(m.mem), p, nb) && m.view.l.chunks[p].size == nb && m.dv == p + nb
    ensures m.dvsize == dsize && HeapOf(m) == IntoDv(old(HeapOf(m)), p, nb, old(m.dv + m.dvsize))
  {
    hide Steady, Core, Quiet, Two, Room, SetInuse, SetSizeAndPinuseOfFreeChunk, ClearPinuse, Live, TopDv;
    DvRoom(m, p);
    ghost var st, v0, l0 := m.St(), m.view, m.view.l;
    OrderNow(m);
    var r := p + nb;
    var n := r + dsize;
    PartedIs(l0, p, r, n, false);
    m.mem := SetInuse(m.mem, p, nb);
    m.mem := SetSizeAndPinuseOfFreeChunk(m.mem, r, dsize);
    m.mem := ClearPinuse(m.mem, n);
    CoreGrowIntoDv(st, m.sb, m.view, m.Resting(), p, r, n, m.dv, m.mem);
    DvMoved(l0, p, r, n, m.top, m.topsize, m.dv, m.dvsize);
    ghost var loose := m.Resting() - {m.dv} + {r};
    m.dvsize := dsize;
    m.dv := r;
    m.view := m.view.(l := Two(l0, p, r, n, false));
    assert loose == m.Resting();
    Grown(m, v0, st.mem, p, nb, nb);
  }

  /** The chunk behind is dv, and all of it is used. */
  method ExhaustDvBehind(m: MallocState, p: nat, oldsize: nat, nb: nat)
    requires m.Settled() && p in m.view.l.chunks && m.view.l.chunks[p].inuse && oldsize == m.view.l.chunks[p].size
    requires m.dvsize > 0 && p + oldsize == m.dv && oldsize < nb <= oldsize + m.dvsize < nb + MIN_CHUNK_SIZE
    modifies m`mem, m`view, m`dv, m`dvsize
    ensures Resized(m, old(m.view), old(m.mem), p, nb) && m.dvsize == 0
    ensures m.view.l.chunks[p].size == oldsize + old(m.dvsize)
    ensures HeapOf(m) == IntoDv(old(HeapOf(m)), p, nb, old(m.dv + m.dvsize))
  {
    hide Steady, Core, Quiet, One, Room;
    DvRoom(m, p);
    ghost var st, v0, l0, loose := m.St(), m.view, m.view.l, m.Resting() - {m.dv};
    OrderNow(m);
    var newsize := oldsize + m.dvsize;
    FusedIs(l0, p, p + newsize, true);
    m.mem := SetInuse(m.mem, p, newsize);
    CoreFillRoom(st, m.sb, m.view, m.Resting(), p, p + newsize, {m.dv}, m.mem);
    OneKeepsInuse(l0, p, p + newsize, m.top);
    m.dvsize := 0;
    m.dv := 0;
    m.view := m.view.(l := One(l0, p, p + newsize, true));
    assert loose == m.Resting();
    Grown(m, v0, st.mem, p, nb, newsize);
  }

  lemma OneKeepsInuse(l: Layout, a: nat, e: nat, q: nat)
    requires a in l.chunks && a < e && !(a <= q < e)
    ensures Undisturbed(l, One(l, a, e, true), q) && One(l, a, e, true).first == l.first
    ensures One(l, a, e, true).end == l.end
    ensures q in l.chunks && Next(l, q) == l.end ==> Next(One(l, a, e, true), q) == l.end
  {
  }

  /** The chunk behind is dv: extend into it. */
  method ExtendIntoDv(m: MallocState, p: nat, oldsize: nat, nb: nat)
    requires m.Settled() && p in m.view.l.chunks && m.view.l.chunks[p].inuse && oldsize == m.view.l.chunks[p].size
    requires m.dvsize > 0 && p + oldsize == m.dv && oldsize < nb <= oldsize + m.dvsize && nb % 8 == 0
    modifies m`mem, m`view, m`dv, m`dvsize
    ensures Resized(m, old(m.view), old(m.mem), p, nb)
    ensures HeapOf(m) == IntoDv(old(HeapOf(m)), p, nb, old(m.dv + m.dvsize))
    ensures var rest := oldsize + old(m.dvsize) - nb;
      if rest >= MIN_CHUNK_SIZE then m.view.l.chunks[p].size == nb && m.dv == p + nb && m.dvsize == rest
      else m.view.l.chunks[p].size == nb + rest && m.dvsize == 0
  {
    var dvs := m.dvsize;
    var dsize := oldsize + dvs - nb;
    if dsize >= MIN_CHUNK_SIZE {
      SplitDvBehind(m, p, oldsize, nb, dsize);
    } else {
      ExhaustDvBehind(m, p, oldsize, nb);
    }
  }

  lemma NextRoom(m: MallocState, p: nat, next: nat, v0: View, m0: Mem)
    requires m.top != 0 && m.TopAndDv() && m.Holds(m.Resting() + {next}) && m.view.l == v0.l
    requires Quiet(Live(v0.l), m0, m.mem)
    requires p in v0.l.chunks && v0.l.chunks[p].inuse && next == Next(v0.l, p) && next in v0.l.chunks
    requires !v0.l.chunks[next].inuse
    requires next !in m.Resting() && SteadySince(v0, m.view)
    ensures var e := Next(v0.l, next); Resizing(m, p, e, {next}, v0, m0) && e != v0.l.end && p < next < e && p % 8 == 0
    ensures p in Live(v0.l) && Live(v0.l)[p] == v0.l.chunks[p].size >= 16
  {
    hide Core, Quiet, Steady;
    NotTop(m.St(), m.sb, m.view, m.Resting() + {next}, next, m.top);
    RoomFacts(m.St(), m.sb, m.view, m.Resting() + {next}, p, Next(v0.l, next), {next});
  }

  /** All of the next free chunk joins p. */
  method FillNext(m: MallocState, p: nat, newsize: nat, nb: nat, ghost e: nat, ghost next: nat, ghost v0: View,
          ghost m0: Mem)
    requires Resizing(m, p, e, {next}, v0, m0) && e != v0.l.end
    requires p in Live(v0.l) && Live(v0.l)[p] < nb <= newsize < nb + MIN_CHUNK_SIZE && p < e == p + newsize
    modifies m`mem, m`view
    ensures Resized(m, v0, m0, p, nb) && HeapOf(m) == old(HeapOf(m)).(l := Fused(v0.l, p, e, true))
  {
    hide Core, Quiet, One, Room, Steady;
    OutsideRoom(m, p, e, {next}, v0, m0);
    ghost var st := m.St();
    FusedIs(v0.l, p, e, true);
    m.mem := SetInuse(m.mem, p, newsize);
    CoreFillRoom(st, m.sb, m.view, m.Resting() + {next}, p, e, {next}, m.mem);
    OneKeepsInuse(v0.l, p, e, m.top);
    OneKeepsInuse(v0.l, p, e, m.dv);
    m.view := m.view.(l := One(v0.l, p, e, true));
    QuietTransitive(Live(v0.l), m0, st.mem, m.mem);
    Grown(m, v0, m0, p, nb, newsize);
  }

  /** The chunk behind is free and in a bin: extend into it. */
  method ExtendIntoNext(m: MallocState, p: nat, oldsize: nat, next: nat, nextsize: nat, nb: nat)
    requires m.Settled() && p in m.view.l.chunks && m.view.l.chunks[p].inuse && oldsize == m.view.l.chunks[p].size
    requires next == p + oldsize
    requires next in m.view.l.chunks && !m.view.l.chunks[next].inuse && nextsize == m.view.l.chunks[next].size
    requires next !in m.Resting()
    requires oldsize < nb <= oldsize + nextsize && nb % 8 == 0
    modifies m`mem, m`smallmap, m`treemap, m`treebins, m`view, m`top, m`topsize, m`dv, m`dvsize
    ensures Resized(m, old(m.view), old(m.mem), p, nb)
    ensures HeapOf(m) == IntoNext(old(HeapOf(m)), p, nb, next, next + nextsize)
  {
    hide Core, Quiet, One, Two, Resizing, Steady, Sized, CutBack, Fused, Delist;
    ghost var v0, m0 := m.view, m.mem;
    ListsSized(m.St(), m.sb, v0, m.Resting());
    var rsize := oldsize + nextsize - nb;
    ghost var k := FindListed(m.St(), m.sb, m.view, m.Resting(), next);
    CoreDelist(m.St(), m.sb, m.view, m.Resting(), next, k);
    m.UnlinkChunk(next, nextsize, m.Resting(), k);
    SteadyDelisted(v0, v0, nextsize, k, m.view);
    NextRoom(m, p, next, v0, m0);
    if rsize < MIN_CHUNK_SIZE {
      var newsize := oldsize + nextsize;
      FillNext(m, p, newsize, nb, next + nextsize, next, v0, m0);
    } else {
      OutsideRoom(m, p, next + nextsize, {next}, v0, m0);
      InsideAbsent(v0, p + nb);
      SplitAndDispose(m, p, nb, rsize, next + nextsize, {next}, v0, m0);
    }
  }

  lemma OwnRoom(m: MallocState, p: nat)
    requires m.Settled() && p in m.view.l.chunks && m.view.l.chunks[p].inuse
    ensures Resizing(m, p, Next(m.view.l, p), {}, m.view, m.mem) && Next(m.view.l, p) != m.view.l.end
    ensures p in Live(m.view.l) && Live(m.view.l)[p] == m.view.l.chunks[p].size
  {
    hide Core, Steady;
    assert m.Resting() + {} == m.Resting();
    QuietSame(Live(m.view.l), m.mem);
    OrderNow(m);
    RoomFacts(m.St(), m.sb, m.view, m.Resting(), p, Next(m.view.l, p), {});
  }

  /** oldsize >= nb: split off a remainder of at least 16 bytes. */
  method Shrink(m: MallocState, p: nat, oldsize: nat, nb: nat)
    requires m.Settled() && p in m.view.l.chunks && m.view.l.chunks[p].inuse && oldsize == m.view.l.chunks[p].size
    requires 16 <= nb <= oldsize && nb % 8 == 0
    modifies m`mem, m`smallmap, m`treemap, m`treebins, m`view, m`top, m`topsize, m`dv, m`dvsize
    ensures Resized(m, old(m.view), old(m.mem), p, nb)
    ensures HeapOf(m) ==
      if oldsize < nb + MIN_CHUNK_SIZE then old(HeapOf(m)) else CutBack(old(HeapOf(m)), p, nb, p + oldsize)
  {
    hide Core, Quiet, Resizing, Steady, CutBack;
    OwnRoom(m, p);
    var rsize := oldsize - nb;
    if rsize >= MIN_CHUNK_SIZE {
      OrderNow(m);
      OutsideRoom(m, p, p + oldsize, {}, m.view, m.mem);
      InsideAbsent(m.view, p + nb);
      SplitAndDispose(m, p, nb, rsize, p + oldsize, {}, m.view, m.mem);
    } else {
      QuietSame(Live(m.view.l), m.mem);
      OrderNow(m);
      Grown(m, m.view, m.mem, p, nb, oldsize);
    }
  }

  /** Whether p can have nb bytes where it is: its own, or those of a free chunk behind it, of which top must
      keep some. */
  ghost predicate FitsInPlace(l: Layout, p: nat, nb: nat)
    requires p in l.chunks
  {
    || l.chunks[p].size >= nb
    || (Next(l, p) in l.chunks && !l.chunks[Next(l, p)].inuse
        && Next(l, Next(l, p)) - p >= (if Next(l, Next(l, p)) == l.end then nb + 1 else nb))
  }

  lemma BehindFacts(m: MallocState, p: nat)
    requires m.Settled() && p in m.view.l.chunks && m.view.l.chunks[p].inuse
    ensures var n := Next(m.view.l, p);
      && n in m.view.l.chunks && Cinuse(m.mem, n) == m.view.l.chunks[n].inuse && Pinuse(m.mem, n)
      && m.OkAddress(p) && p < n
      && ChunkSize(m.mem, n) == m.view.l.chunks[n].size && (Next(m.view.l, n) == m.view.l.end ==> n == m.top)
      && (n == m.dv ==> m.dvsize > 0) && (n != m.top && n != m.dv ==> n !in m.Resting())
      && (n == m.dv || n == m.top ==> !m.view.l.chunks[n].inuse)
      && (n == m.dv ==> n != m.top && m.view.l.chunks[n].size == m.dvsize && Next(m.view.l, n) != m.view.l.end)
      && (n == m.top ==> m.view.l.chunks[n].size == m.topsize && Next(m.view.l, n) == m.view.l.end)
    ensures p > 0
    ensures ChunkSize(m.mem, p) == m.view.l.chunks[p].size && Cinuse(m.mem, p) && m.view.l.chunks[p].size >= 16
  {
    InUseFacts(m.St(), m.sb, m.view, m.Resting(), p);
    InUseFacts(m.St(), m.sb, m.view, m.Resting(), Next(m.view.l, p));
    hide Core;
    if Next(m.view.l, p) != m.top { NotTop(m.St(), m.sb, m.view, m.Resting(), Next(m.view.l, p), m.top); }
  }

  /** try_realloc_chunk: it fails only when the room is not there, and then leaves everything as it was. */
  method TryReallocChunk(m: MallocState, p: nat, nb: nat) returns (newp: nat)
    requires m.Settled() && p in m.view.l.chunks && m.view.l.chunks[p].inuse && 16 <= nb && nb % 8 == 0
    modifies m`mem, m`smallmap, m`treemap, m`treebins, m`view, m`top, m`topsize, m`dv, m`dvsize
    ensures newp == (if FitsInPlace(old(m.view.l), p, nb) then p else 0)
    ensures FitsInPlace(old(m.view.l), p, nb) ==> p != 0 && Resized(m, old(m.view), old(m.mem), p, nb)
    ensures HeapOf(m) == if newp != 0 then AfterResize(old(HeapOf(m)), p, nb) else old(HeapOf(m))
    ensures !FitsInPlace(old(m.view.l), p, nb) ==>
      m.Settled() && m.view == old(m.view) && m.St() == old(m.St()) && m.top == old(m.top)
        && m.topsize == old(m.topsize) && m.dv == old(m.dv)
  {
    hide Core, Quiet, m.TopAndDv, m.Settled, Resized, CutBack, IntoTop, IntoDv, IntoNext;
    BehindFacts(m, p);
    newp := 0;
    var oldsize := ChunkSize(m.mem, p);
    var next := p + oldsize;
    assert m.OkAddress(p) && Cinuse(m.mem, p) && p < next && Pinuse(m.mem, next);
    if oldsize >= nb {
      Shrink(m, p, oldsize, nb);
      newp := p;
    } else if next == m.top {
      if oldsize + m.topsize > nb {
        ExtendIntoTop(m, p, oldsize, nb);
        newp := p;
      }
    } else if next == m.dv {
      var dvs := m.dvsize;
      if oldsize + dvs >= nb {
        ExtendIntoDv(m, p, oldsize, nb);
        newp := p;
      }
    } else if !Cinuse(m.mem, next) {
      var nextsize := ChunkSize(m.mem, next);
      if oldsize + nextsize >= nb {
        ExtendIntoNext(m, p, oldsize, next, nextsize, nb);
        newp := p;
      }
    }
  }
}
