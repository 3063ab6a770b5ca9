/** internal_bulk_free, and the layout that freeing leaves, whatever the order. */
module BulkFrees {
  import opened Memory
  import opened Layouts
  import opened Tags
  import opened Payloads
  import opened Bins
  import opened SmallBins
  import opened TreeBins
  import opened Ages
  import opened Heaps
  import opened HeapSteps
  import opened MallocStates
  import opened Policies
  import opened Freeing
  import opened Reallocating
  import opened Canonical

  /** The chunks of the non-null pointers in ps. */
  ghost function Chunks(ps: seq<nat>): set<nat> {
    set i: nat | i < |ps| && ps[i] >= 8 :: MemToChunk(ps[i])
  }

  /** What bulk_free asks of its array: null pointers and pairwise distinct live ones. */
  ghost predicate Freeable(live: map<nat, nat>, ps: seq<nat>) {
    && (forall i {:trigger ps[i]} :: 0 <= i < |ps| && ps[i] != NULL ==> ps[i] >= 8 && MemToChunk(ps[i]) in live)
    && (forall i, j {:trigger ps[i], ps[j]} :: 0 <= i < j < |ps| && ps[i] != NULL ==> ps[i] != ps[j])
  }

  lemma ChunksNext(ps: seq<nat>, i: nat)
    requires i < |ps|
    ensures Chunks(ps[..i + 1]) == if ps[i] >= 8 then Chunks(ps[..i]) + {MemToChunk(ps[i])} else Chunks(ps[..i])
  {
    var a, b := ps[..i], ps[..i + 1];
    forall x | x in Chunks(a) ensures x in Chunks(b) {
      var j: nat :| j < |a| && a[j] >= 8 && x == MemToChunk(a[j]);
      assert b[j] == a[j];
    }
    if ps[i] >= 8 { assert b[i] == ps[i]; }
    forall x | x in Chunks(b) ensures x in Chunks(a) || (ps[i] >= 8 && x == MemToChunk(ps[i])) {
      var j: nat :| j < |b| && b[j] >= 8 && x == MemToChunk(b[j]);
      if j < i { assert a[j] == b[j]; }
    }
  }

  lemma NotYet(live: map<nat, nat>, ps: seq<nat>, i: nat)
    requires Freeable(live, ps) && i < |ps| && ps[i] != NULL
    ensures MemToChunk(ps[i]) !in Chunks(ps[..i])
  {
  }

  /** Two adjacent in-use chunks become one. */
  lemma CoreMergeInuse(st: Store, sb: nat, v: View, loose: set<nat>, p: nat, q: nat, m': Mem)
    requires Core(st, sb, v, loose) && p in v.l.chunks && v.l.chunks[p].inuse && q == Next(v.l, p) && q in v.l.chunks
    requires v.l.chunks[q].inuse
    requires m' == SetInuse(st.mem, p, Next(v.l, q) - p)
    ensures p < q < Next(v.l, q) && p > 0
    ensures Core(st.(mem := m'), sb, v.(l := One(v.l, p, Next(v.l, q), true)), loose)
    ensures Live(One(v.l, p, Next(v.l, q), true)) == (Live(v.l) - {q})[p := Next(v.l, q) - p]
    ensures Quiet(Live(v.l) - {p} - {q}, st.mem, m')
    ensures forall x {:trigger x in loose} :: x in loose ==> !(p <= x < Next(v.l, q))
  {
    hide Core, Quiet, Grounded, CanBeOne, One, Relax, Live, LiveOutside, SetInuse;
    MergeFacts(st, sb, v, loose, p, q);
    CoreOneInuse(st, sb, v, loose, p, Next(v.l, q), m');
    assert (Live(v.l) - {p} - {q})[p := Next(v.l, q) - p] == (Live(v.l) - {q})[p := Next(v.l, q) - p];
  }

  lemma MergeFacts(st: Store, sb: nat, v: View, loose: set<nat>, p: nat, q: nat)
    requires Core(st, sb, v, loose) && p in v.l.chunks && v.l.chunks[p].inuse && q == Next(v.l, p) && q in v.l.chunks
    requires v.l.chunks[q].inuse
    ensures var e := Next(v.l, q);
      && p < q < e && p > 0 && CanBeOne(v.l, p, e, true) && Grounded(v.l, loose, p, e)
      && Relax(loose, p, e, {}) == loose && LiveOutside(v.l, p, e) == Live(v.l) - {p} - {q}
    ensures forall x {:trigger x in loose} :: x in loose ==> !(p <= x < Next(v.l, q))
  {
    hide SmallReady, TreeReady, Tagged;
    var e := Next(v.l, q);
    assert FitsAt(v.l, p) && FitsAt(v.l, q) && LinkedAt(v.l, p) && LinkedAt(v.l, q);
    forall x | x in v.l.chunks && p <= x < e ensures x == p || x == q {
      assert ApartAt(v.l, p, x) && ApartAt(v.l, q, x);
    }
    forall x | x in loose ensures !(p <= x < e) { assert LooseAt(v.l, x); }
  }

  /** Make one in-use chunk of p and the next, which is to be freed as well. */
  method MergeWithNextFreed(m: MallocState, p: nat, psize: nat)
    requires m.Settled() && p in Live(m.view.l) && psize == Live(m.view.l)[p] && p + psize in Live(m.view.l)
    modifies m`mem, m`view
    ensures m.Settled() && m.view.l.first == old(m.view.l.first) && m.view.l.end == old(m.view.l.end)
    ensures p in Live(m.view.l) && Live(m.view.l) - {p} == Live(old(m.view.l)) - {p} - {p + psize}
    ensures Quiet(Live(m.view.l) - {p}, old(m.mem), m.mem) && SameLists(old(m.view), m.view)
    ensures HeapOf(m) == old(HeapOf(m)).(l := Fused(old(m.view.l), p, Behind(old(m.view.l), p + psize), true))
  {
    hide Core, Quiet, One;
    ghost var st, l := m.St(), m.view.l;
    var next := p + psize;
    InUseFacts(st, m.sb, m.view, m.Resting(), next);
    var newsize := ChunkSize(m.mem, next) + psize;
    FusedIs(l, p, p + newsize, true);
    m.mem := SetInuse(m.mem, p, newsize);
    CoreMergeInuse(st, m.sb, m.view, m.Resting(), p, next, m.mem);
    OneKeepsInuse(l, p, p + newsize, m.top);
    OneKeepsInuse(l, p, p + newsize, m.dv);
    m.view := m.view.(l := One(l, p, p + newsize, true));
  }

  /** The entries from i on are as they were, except that the one at i may stand for a longer chunk by now; all
      chunks of earlier entries are free, or part of that one. */
  ghost predicate Sweeping(m: MallocState, v0: View, m0: Mem, ps: seq<nat>, i: nat, entry: nat)
    reads m
    requires i < |ps|
  {
    && m.Settled() && m.view.l.first == v0.l.first && m.view.l.end == v0.l.end
    && (entry == NULL <==> ps[i] == NULL)
    && (entry != NULL ==> entry >= 8 && MemToChunk(entry) in Live(m.view.l) && MemToChunk(entry) in Live(v0.l))
    && Live(m.view.l) - (if entry == NULL then {} else {MemToChunk(entry)}) == Live(v0.l) - Chunks(ps[..i + 1])
    && Quiet(Live(v0.l) - Chunks(ps[..i + 1]), m0, m.mem) && SteadySince(v0, m.view)
  }

  /** All chunks of the first i entries are free. */
  ghost predicate Swept(m: MallocState, v0: View, m0: Mem, ps: seq<nat>, i: nat)
    reads m
    requires i <= |ps|
  {
    && m.Settled() && m.view.l.first == v0.l.first && m.view.l.end == v0.l.end
    && Live(m.view.l) == Live(v0.l) - Chunks(ps[..i]) && Quiet(Live(v0.l) - Chunks(ps[..i]), m0, m.mem)
    && SteadySince(v0, m.view)
  }

  lemma SweepNext(m: MallocState, v0: View, m0: Mem, ps: seq<nat>, i: nat)
    requires i < |ps| && Freeable(Live(v0.l), ps) && Swept(m, v0, m0, ps, i)
    ensures Sweeping(m, v0, m0, ps, i, ps[i])
  {
    hide Quiet, Steady, m.Settled;
    ChunksNext(ps, i);
    if ps[i] != NULL { NotYet(Live(v0.l), ps, i); }
    assert ps[i] == NULL || ps[i] >= 8;
    QuietFewer(Live(v0.l) - Chunks(ps[..i]), Live(v0.l) - Chunks(ps[..i + 1]), m0, m.mem);
  }

  /** The next entry names the chunk behind p: let it stand for both. */
  method PassOn(m: MallocState, p: nat, psize: nat, ghost v0: View, ghost m0: Mem, ghost ps: seq<nat>, ghost i: nat)
    requires i + 1 < |ps| && Freeable(Live(v0.l), ps) && Sweeping(m, v0, m0, ps, i, ChunkToMem(p))
    requires psize == Live(m.view.l)[p] && ps[i + 1] == ChunkToMem(p + psize)
    modifies m`mem, m`view
    ensures Sweeping(m, v0, m0, ps, i + 1, ChunkToMem(p))
    ensures HeapOf(m) == old(HeapOf(m)).(l := Fused(old(m.view.l), p, Behind(old(m.view.l), p + psize), true))
  {
    hide Quiet, Steady, m.Settled, Fused;
    ghost var mem0 := m.mem;
    ChunksNext(ps, i + 1);
    NotYet(Live(v0.l), ps, i + 1);
    ghost var kept := Live(v0.l) - Chunks(ps[..i + 2]);
    OwnSizePositive(m, p);
    assert p + psize in Live(v0.l) - Chunks(ps[..i + 1]);
    MergeWithNextFreed(m, p, psize);
    assert Live(m.view.l) - {p} == kept;
    QuietFewer(Live(v0.l) - Chunks(ps[..i + 1]), kept, m0, mem0);
    QuietTransitive(kept, m0, mem0, m.mem);
  }

  lemma OwnSizePositive(m: MallocState, p: nat)
    requires m.Settled() && p in Live(m.view.l)
    ensures ChunkSize(m.mem, p) == Live(m.view.l)[p] >= 16 && m.OkAddress(p) && Cinuse(m.mem, p)
  {
    InUseFacts(m.St(), m.sb, m.view, m.Resting(), p);
  }

  method Dispose(m: MallocState, p: nat, psize: nat, ghost v0: View, ghost m0: Mem, ghost ps: seq<nat>, ghost i: nat)
    requires i < |ps| && Sweeping(m, v0, m0, ps, i, ChunkToMem(p)) && psize == Live(m.view.l)[p] && Orderly(v0)
    modifies m`mem, m`smallmap, m`treemap, m`treebins, m`view, m`top, m`topsize, m`dv, m`dvsize
    ensures Swept(m, v0, m0, ps, i + 1) && HeapOf(m) == AfterFree(old(HeapOf(m)), p)
  {
    hide Quiet, Steady, m.Settled, AfterFree;
    ghost var mem0 := m.mem;
    LiveSize(m.view.l, p);
    LiveUnlisted(v0, m.view.l, p);
    DisposeSince(m, p, psize, v0.(l := m.view.l));
    QuietTransitive(Live(m.view.l), m0, mem0, m.mem);
  }

  lemma BulkPassed(h: Heap, ps: seq<nat>, p: nat, psize: nat)
    requires |ps| > 1 && ps[0] == p + 8 && Behind(h.l, p) == p + psize && ps[1] == p + psize + 8
    ensures AfterBulk(h, ps) ==
      AfterBulk(h.(l := Fused(h.l, p, Behind(h.l, p + psize), true)), [ps[0]] + ps[2..])
  {
    hide Fused, AfterFree;
  }

  lemma BulkFreed(h: Heap, ps: seq<nat>, p: nat, psize: nat)
    requires |ps| > 0 && ps[0] == p + 8 && Behind(h.l, p) == p + psize && (|ps| > 1 ==> ps[1] != p + psize + 8)
    ensures AfterBulk(h, ps) == AfterBulk(AfterFree(h, p), ps[1..])
  {
    hide Fused, AfterFree;
  }

  lemma BulkNull(h: Heap, ps: seq<nat>)
    requires |ps| > 0 && ps[0] == 0
    ensures AfterBulk(h, ps) == AfterBulk(h, ps[1..])
  {
  }

  lemma BulkOver(h: Heap)
    ensures AfterBulk(h, []) == h
  {
  }

  lemma EachOver(h: Heap)
    ensures AfterEach(h, []) == h
  {
  }

  lemma EachNext(h: Heap, ps: seq<nat>, i: nat)
    requires i < |ps|
    ensures AfterEach(h, ps[i..]) == AfterEach(if ps[i] < 8 then h else AfterFree(h, ps[i] - 8), ps[i + 1..])
  {
    hide AfterFree;
    assert ps[i..][1..] == ps[i + 1..];
  }

  /** internal_bulk_free. */
  method BulkFree(m: MallocState, a: array<nat>) returns (unfreed: nat)
    requires m.Settled() && Freeable(Live(m.view.l), a[..])
    modifies a, m`mem, m`smallmap, m`treemap, m`treebins, m`view, m`top, m`topsize, m`dv, m`dvsize
    ensures unfreed == 0 && (forall i :: 0 <= i < a.Length ==> a[i] == NULL)
    ensures Swept(m, old(m.view), old(m.mem), old(a[..]), a.Length)
    ensures HeapOf(m) == AfterBulk(old(HeapOf(m)), old(a[..]))
  {
    hide Quiet, Steady, Sweeping, Swept, m.Settled, Freeable, Orderly, AfterBulk,
      AfterFree, Fused;
    ghost var h := HeapOf(m);
    ghost var v0, m0, ps := m.view, m.mem, a[..];
    unfreed := 0;
    var i := 0;
    NothingSwept(m, ps);
    if 0 < a.Length { SweepNext(m, v0, m0, ps, 0); }
    while i < a.Length
      invariant 0 <= i <= a.Length && (forall j :: 0 <= j < i ==> a[j] == NULL)
      invariant (forall j :: i < j < a.Length ==> a[j] == ps[j])
      invariant if i < a.Length then Sweeping(m, v0, m0, ps, i, a[i]) else Swept(m, v0, m0, ps, i)
      invariant AfterBulk(HeapOf(m), a[i..]) == AfterBulk(h, ps)
    {
      ghost var h1, rest := HeapOf(m), a[i..];
      var mem := a[i];
      if mem != NULL {
        EntryFacts(m, v0, m0, ps, i, mem);
        var p := MemToChunk(mem);
        var psize := ChunkSize(m.mem, p);
        a[i] := NULL;
        assert m.OkAddress(p) && Cinuse(m.mem, p);
        var next := p + psize;
        if i + 1 < a.Length && a[i + 1] == ChunkToMem(next) {
          PassOn(m, p, psize, v0, m0, ps, i);
          a[i + 1] := ChunkToMem(p);
          BulkPassed(h1, rest, p, psize);
          assert a[i + 1..] == [rest[0]] + rest[2..];
        } else {
          Dispose(m, p, psize, v0, m0, ps, i);
          BulkFreed(h1, rest, p, psize);
          assert a[i + 1..] == rest[1..];
          if i + 1 < a.Length { SweepNext(m, v0, m0, ps, i + 1); }
        }
      } else {
        NullEntry(m, v0, m0, ps, i);
        BulkNull(h1, rest);
        if i + 1 < a.Length { SweepNext(m, v0, m0, ps, i + 1); }
      }
      i := i + 1;
    }
    BulkOver(HeapOf(m));
    assert a[i..] == [];
  }

  lemma NothingSwept(m: MallocState, ps: seq<nat>)
    requires m.Settled()
    ensures Swept(m, m.view, m.mem, ps, 0) && Orderly(m.view)
  {
    hide m.Settled, Steady;
    OrderNow(m);
    assert ps[..0] == [];
    assert Live(m.view.l) - Chunks([]) == Live(m.view.l);
  }

  lemma EntryFacts(m: MallocState, v0: View, m0: Mem, ps: seq<nat>, i: nat, entry: nat)
    requires i < |ps| && Sweeping(m, v0, m0, ps, i, entry) && entry != NULL
    ensures entry >= 8 && MemToChunk(entry) in Live(m.view.l)
    ensures ChunkSize(m.mem, MemToChunk(entry)) == Live(m.view.l)[MemToChunk(entry)]
    ensures m.OkAddress(MemToChunk(entry)) && Cinuse(m.mem, MemToChunk(entry))
  {
    hide Quiet, Steady, m.Settled;
    OwnSizePositive(m, MemToChunk(entry));
  }

  lemma NullEntry(m: MallocState, v0: View, m0: Mem, ps: seq<nat>, i: nat)
    requires i < |ps| && Sweeping(m, v0, m0, ps, i, NULL)
    ensures Swept(m, v0, m0, ps, i + 1)
  {
    hide Quiet, Steady, m.Settled;
    assert Live(m.view.l) - {} == Live(m.view.l);
  }

  // any other order

  /** Freeing the same pointers one call at a time, in the order they are listed. */
  method FreeEach(m: MallocState, ps: seq<nat>)
    requires m.Settled() && Freeable(Live(m.view.l), ps)
    modifies m`mem, m`smallmap, m`treemap, m`treebins, m`view, m`top, m`topsize, m`dv, m`dvsize
    ensures Swept(m, old(m.view), old(m.mem), ps, |ps|)
    ensures HeapOf(m) == AfterEach(old(HeapOf(m)), ps)
  {
    hide Quiet, Steady, Sweeping, Swept, m.Settled, Freeable, Orderly, AfterEach,
      AfterFree;
    ghost var h := HeapOf(m);
    ghost var v0, m0 := m.view, m.mem;
    NothingSwept(m, ps);
    assert ps[0..] == ps;
    for i := 0 to |ps|
      invariant Swept(m, v0, m0, ps, i) && AfterEach(HeapOf(m), ps[i..]) == AfterEach(h, ps)
    {
      EachNext(HeapOf(m), ps, i);
      SweepNext(m, v0, m0, ps, i);
      if ps[i] != NULL {
        EntryFacts(m, v0, m0, ps, i, ps[i]);
        Dispose(m, MemToChunk(ps[i]), ChunkSize(m.mem, MemToChunk(ps[i])), v0, m0, ps, i);
      } else {
        NullEntry(m, v0, m0, ps, i);
      }
    }
    EachOver(HeapOf(m));
    assert ps[|ps|..] == [];
  }

  /** Only the set of freed pointers matters: whatever the order, and whether in bulk or one by one, two heaps
      that start alike end with the same chunks, head bits included, and the same top. */
  lemma OrderIsIrrelevant(m: MallocState, n: MallocState, v0: View, v1: View, m0: Mem, m1: Mem, ps: seq<nat>,
          qs: seq<nat>)
    requires Swept(m, v0, m0, ps, |ps|) && Swept(n, v1, m1, qs, |qs|) && v0.l == v1.l
    requires (forall x {:trigger x in ps} :: x in ps <==> x in qs)
    ensures m.view.l == n.view.l && m.top == n.top && m.topsize == n.topsize
  {
    assert ps[..|ps|] == ps && qs[..|qs|] == qs;
    SameChunks(ps, qs);
    SettledTiled(m);
    SettledTiled(n);
    hide m.Settled, n.Settled, Steady;
    LayoutIsCanonical(m.view.l, n.view.l);
    OneLastChunk(m.view.l, m.top, n.top);
  }

  lemma OneLastChunk(l: Layout, p: nat, q: nat)
    requires Tiled(l) && p in l.chunks && q in l.chunks && Next(l, p) == l.end && Next(l, q) == l.end
    ensures p == q
  {
    assert FitsAt(l, p) && FitsAt(l, q) && ApartAt(l, p, q) && ApartAt(l, q, p);
  }

  lemma SettledTiled(m: MallocState)
    requires m.Settled()
    ensures Tiled(m.view.l) && m.top in m.view.l.chunks && Next(m.view.l, m.top) == m.view.l.end
    ensures m.view.l.chunks[m.top].size == m.topsize
  {
    hide SmallReady, TreeReady, Tagged, Binned;
  }

  lemma SameChunks(ps: seq<nat>, qs: seq<nat>)
    requires forall x {:trigger x in ps} :: x in ps <==> x in qs
    ensures Chunks(ps) == Chunks(qs)
  {
    MoreChunks(ps, qs);
    MoreChunks(qs, ps);
  }

  lemma MoreChunks(ps: seq<nat>, qs: seq<nat>)
    requires forall x {:trigger x in ps} :: x in ps ==> x in qs
    ensures Chunks(ps) <= Chunks(qs)
  {
    forall c | c in Chunks(ps) ensures c in Chunks(qs) {
      var i: nat :| i < |ps| && ps[i] >= 8 && c == MemToChunk(ps[i]);
      assert ps[i] in ps;
      var j: nat :| j < |qs| && qs[j] == ps[i];
      assert c == MemToChunk(qs[j]);
    }
  }
}
