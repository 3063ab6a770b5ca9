/** Which chunks dlmalloc joins, cuts, lists and unlists: what each operation makes of the heap, leaving out the words.
    Every operation on words is proved to do just this. */
module Policies {
  import opened Layouts
  import opened Tags
  import opened Rings
  import opened Bins
  import opened Ages
  import opened SmallBins
  import opened Heaps
  import opened TreeBins
  import opened HeapBins
  import opened MallocStates

  /** Layout, free lists (oldest chunk first), designated victim and top. */
  datatype Heap = Heap(l: Layout, lists: Lists, dv: nat, dvsize: nat, top: nat, topsize: nat)

  ghost function HeapOf(m: MallocState): Heap
    reads m
  {
    Heap(m.view.l, m.view.lists, m.dv, m.dvsize, m.top, m.topsize)
  }

  /** Where the chunk at p ends. */
  ghost function Behind(l: Layout, p: nat): nat {
    if p in l.chunks then Next(l, p) else p
  }

  /** [a, e) as one chunk. */
  ghost function Fused(l: Layout, a: nat, e: nat, inuse: bool): Layout {
    if a in l.chunks && a < e then One(l, a, e, inuse) else l
  }

  /** [a, e) as an in-use chunk up to b and another one from there. */
  ghost function Parted(l: Layout, a: nat, b: nat, e: nat, inuse: bool): Layout {
    if a in l.chunks && a < b < e then Two(l, a, b, e, inuse) else l
  }

  /** The lists without x, which may be listed under s. */
  ghost function Delist(lists: Lists, s: nat, x: nat): Lists {
    if Queued(lists, s, x) then
      var k: nat :| k < |lists[s]| && lists[s][k] == x;
      Without(lists, s, k)
    else lists
  }

  lemma DelistAt(lists: Lists, s: nat, k: nat)
    requires s in lists && k < |lists[s]| && Distinct(lists[s])
    ensures Delist(lists, s, lists[s][k]) == Without(lists, s, k)
  {
    hide Without;
    var x := lists[s][k];
    assert Queued(lists, s, x);
    var j: nat :| j < |lists[s]| && lists[s][j] == x && Delist(lists, s, x) == Without(lists, s, j);
    assert j == k;
  }

  /** Delisting a listed chunk is taking it out of its place. */
  lemma CoreDelist(st: Store, sb: nat, v: View, loose: set<nat>, p: nat, k: nat)
    requires Core(st, sb, v, loose) && ListedAs(v, p, k)
    ensures Delist(v.lists, v.l.chunks[p].size, p) == Without(v.lists, v.l.chunks[p].size, k)
  {
    hide SmallReady, TreeReady, Tagged, Delist, Without;
    DelistAt(v.lists, v.l.chunks[p].size, k);
  }

  /** A loose chunk is not listed. */
  lemma CoreNothingToDelist(st: Store, sb: nat, v: View, loose: set<nat>, p: nat, s: nat)
    requires Core(st, sb, v, loose) && p in loose
    ensures Delist(v.lists, s, p) == v.lists
  {
    hide SmallReady, TreeReady, Tagged, Without;
    if s in v.lists { NotListed(v.l, v.lists, loose, s, p); }
  }

  lemma FusedIs(l: Layout, a: nat, e: nat, inuse: bool)
    requires a in l.chunks && a < e
    ensures Fused(l, a, e, inuse) == One(l, a, e, inuse)
  {
  }

  lemma PartedIs(l: Layout, a: nat, b: nat, e: nat, inuse: bool)
    requires a in l.chunks && a < b < e
    ensures Parted(l, a, b, e, inuse) == Two(l, a, b, e, inuse)
  {
  }

  // free

  /** Where a chunk that takes in p and the free chunk in front of it, if any, starts. */
  ghost function Front(l: Layout, p: nat): nat {
    if p in l.chunks && !l.chunks[p].pin && exists a: nat :: EndsFree(l, a, p) then
      var a: nat :| EndsFree(l, a, p);
      a
    else p
  }

  ghost predicate EndsFree(l: Layout, a: nat, p: nat) {
    a in l.chunks && !l.chunks[a].inuse && Next(l, a) == p
  }

  lemma FrontIs(l: Layout, a: nat, p: nat)
    requires Tiled(l) && p in l.chunks && !l.chunks[p].pin && EndsFree(l, a, p)
    ensures Front(l, p) == a
  {
    forall b: nat | EndsFree(l, b, p) ensures b == a {
      assert ApartAt(l, a, b) && ApartAt(l, b, a) && FitsAt(l, a) && FitsAt(l, b);
    }
  }

  function Gap(a: nat, e: nat): nat { if a < e then e - a else 0 }

  /** [a, e) becomes one free chunk: top if it touches the end, dv if it takes dv in, and otherwise listed. */
  ghost function PutAside(h: Heap, a: nat, e: nat): Heap {
    var h' := h.(l := Fused(h.l, a, e, false));
    if e == h.l.end then
      h'.(top := a, topsize := Gap(a, e), dv := if h.dv == a then 0 else h.dv,
          dvsize := if h.dv == a then 0 else h.dvsize)
    else if h.dvsize > 0 && a <= h.dv < e then h'.(dv := a, dvsize := Gap(a, e))
    else h'.(lists := With(h.lists, Gap(a, e), a))
  }

  /** PutAside with the free chunk at n taken in. */
  ghost function FusedAside(h: Heap, a: nat, n: nat): Heap {
    var e := Behind(h.l, n);
    PutAside(h.(lists := Delist(h.lists, Gap(n, e), n)), a, e)
  }

  /** dispose_chunk and dlfree. */
  ghost function AfterFree(h: Heap, p: nat): Heap {
    var a, n := Front(h.l, p), Behind(h.l, p);
    var h' := h.(lists := if a < p then Delist(h.lists, p - a, a) else h.lists);
    if n in h.l.chunks && !h.l.chunks[n].inuse then FusedAside(h', a, n) else PutAside(h', a, n)
  }

  lemma AsideToTop(h: Heap, a: nat, e: nat)
    requires a in h.l.chunks && a < e == h.l.end
    ensures PutAside(h, a, e) == Heap(One(h.l, a, e, false), h.lists, if h.dv == a then 0 else h.dv,
      if h.dv == a then 0 else h.dvsize, a, e - a)
  {
    hide One;
  }

  lemma AsideToDv(h: Heap, a: nat, e: nat)
    requires a in h.l.chunks && a < e != h.l.end && h.dvsize > 0 && a <= h.dv < e
    ensures PutAside(h, a, e) == Heap(One(h.l, a, e, false), h.lists, a, e - a, h.top, h.topsize)
  {
    hide One;
  }

  lemma AsideToBin(h: Heap, a: nat, e: nat)
    requires a in h.l.chunks && a < e != h.l.end && (h.dvsize > 0 ==> !(a <= h.dv < e))
    ensures PutAside(h, a, e) ==
      Heap(One(h.l, a, e, false), With(h.lists, e - a, a), h.dv, h.dvsize, h.top, h.topsize)
  {
    hide One;
  }

  /** What freeing p comes to when its chunk starts at a in the end. */
  lemma FreeFrom(h: Heap, p: nat, a: nat)
    requires Tiled(h.l) && p in h.l.chunks && Next(h.l, p) in h.l.chunks
    requires (a == p && h.l.chunks[p].pin) || (!h.l.chunks[p].pin && EndsFree(h.l, a, p))
    ensures a == Front(h.l, p)
    ensures var n, h' := Next(h.l, p), h.(lists := if a < p then Delist(h.lists, p - a, a) else h.lists);
      AfterFree(h, p) == if h.l.chunks[n].inuse then PutAside(h', a, n) else FusedAside(h', a, n)
  {
    hide PutAside, Delist;
    if !h.l.chunks[p].pin { FrontIs(h.l, a, p); }
  }

  /** The layout is a tiling, and the lists hold free chunks of it, each once, under its size. */
  ghost predicate Sound(h: Heap) {
    && Tiled(h.l)
    && (forall s {:trigger s in h.lists} {:trigger h.lists[s]} :: s in h.lists ==>
          |h.lists[s]| > 0 && Distinct(h.lists[s]))
    && forall s: nat, x: nat {:trigger Queued(h.lists, s, x)} :: Queued(h.lists, s, x) ==>
         x in h.l.chunks && !h.l.chunks[x].inuse && h.l.chunks[x].size == s
  }

  lemma DelistedQueue(lists: Lists, s: nat, x: nat, u: nat, y: nat)
    requires s in lists ==> Distinct(lists[s])
    ensures Queued(Delist(lists, s, x), u, y) <==> Queued(lists, u, y) && !(u == s && y == x)
  {
    hide Without;
    if Queued(lists, s, x) {
      var k: nat :| k < |lists[s]| && lists[s][k] == x && Delist(lists, s, x) == Without(lists, s, k);
      WithoutQueue(lists, s, k, u, y);
    }
  }

  lemma DropOnly(r: seq<nat>, k: nat, y: nat)
    requires k < |r| && Distinct(r)
    ensures y in Drop(r, k) ==> y in r && y != r[k]
    ensures |r| == 1 && y in r ==> y == r[k]
  {
  }

  /** [a, e) is the in-use chunk p with the free chunks next to it. */
  ghost predicate Around(l: Layout, p: nat, a: nat, e: nat) {
    && p in l.chunks && l.chunks[p].inuse && a in l.chunks && l.chunks[a].pin && (a == p || EndsFree(l, a, p))
    && (if e == Next(l, p) then e in l.chunks && l.chunks[e].inuse
        else Next(l, p) in l.chunks && !l.chunks[Next(l, p)].inuse && e == Next(l, Next(l, p)))
  }

  /** Which chunks are listed when [a, e) has become one: those outside, and that one if it is neither top nor dv. */
  lemma FreedQueue(h: Heap, p: nat, a: nat, e: nat, s: nat, x: nat)
    requires Sound(h) && Around(h.l, p, a, e)
    ensures Queued(AfterFree(h, p).lists, s, x) <==>
      || (Queued(h.lists, s, x) && !(a <= x < e))
      || (s == e - a && x == a && e != h.l.end && !(h.dvsize > 0 && a <= h.dv < e))
  {
    hide AfterFree, PutAside, FusedAside, Queued, Delist, With, Fused;
    AroundFacts(h.l, p, a, e);
    var n := Next(h.l, p);
    var h1 := h.(lists := if a < p then Delist(h.lists, p - a, a) else h.lists);
    var h2 := h1.(lists := if n < e then Delist(h1.lists, e - n, n) else h1.lists);
    FreeFrom(h, p, a);
    if n < e { FusedInto(h1, a, n); }
    assert AfterFree(h, p) == PutAside(h2, a, e);
    DistinctDelisted(h.lists, p - a, a, e - n);
    DelistedQueue(h.lists, p - a, a, s, x);
    DelistedQueue(h1.lists, e - n, n, s, x);
    AsideQueue(h2, a, e, s, x);
    if Queued(h.lists, s, x) && a <= x < e { InsideListed(h, p, a, e, s, x); }
  }

  lemma AroundFacts(l: Layout, p: nat, a: nat, e: nat)
    requires Tiled(l) && Around(l, p, a, e)
    ensures a <= p < Next(l, p) <= e && Next(l, p) in l.chunks
    ensures forall x {:trigger x in l.chunks} :: x in l.chunks && a <= x < e ==> x == a || x == p || x == Next(l, p)
    ensures a < p ==> l.chunks[a].size == p - a && !l.chunks[a].inuse && !l.chunks[p].pin
    ensures a == p ==> l.chunks[p].pin
    ensures Next(l, p) < e <==> !l.chunks[Next(l, p)].inuse
    ensures Next(l, p) < e ==> l.chunks[Next(l, p)].size == e - Next(l, p)
  {
    var n := Next(l, p);
    assert FitsAt(l, a) && FitsAt(l, p) && LinkedAt(l, a) && LinkedAt(l, p) && FitsAt(l, n);
    forall x | x in l.chunks && a <= x < e ensures x == a || x == p || x == n {
      assert ApartAt(l, a, x) && ApartAt(l, p, x) && ApartAt(l, n, x) && FitsAt(l, x);
    }
  }

  lemma FusedInto(h: Heap, a: nat, n: nat)
    requires n in h.l.chunks && h.l.chunks[n].size > 0
    ensures FusedAside(h, a, n) == PutAside(h.(lists := Delist(h.lists, h.l.chunks[n].size, n)), a, Next(h.l, n))
  {
    hide PutAside, Delist;
  }

  lemma DistinctDelisted(lists: Lists, s: nat, x: nat, u: nat)
    requires forall t {:trigger t in lists} {:trigger lists[t]} :: t in lists ==> Distinct(lists[t])
    ensures u in Delist(lists, s, x) ==> Distinct(Delist(lists, s, x)[u])
  {
  }

  lemma AsideQueue(h: Heap, a: nat, e: nat, s: nat, x: nat)
    requires a < e
    ensures Queued(PutAside(h, a, e).lists, s, x) <==>
      || Queued(h.lists, s, x)
      || (s == e - a && x == a && e != h.l.end && !(h.dvsize > 0 && a <= h.dv < e))
  {
    hide Fused;
  }

  lemma InsideListed(h: Heap, p: nat, a: nat, e: nat, s: nat, x: nat)
    requires Sound(h) && Around(h.l, p, a, e) && Queued(h.lists, s, x) && a <= x < e
    ensures Next(h.l, p) in h.l.chunks
    ensures (a < p && s == p - a && x == a) || (Next(h.l, p) < e && s == e - Next(h.l, p) && x == Next(h.l, p))
  {
    AroundFacts(h.l, p, a, e);
  }

  /** What freeing p makes of the rest: [a, e) is one free chunk, the chunks before it and behind it are as they were,
      and it is top if it touches the end, dv if it took dv in, and in a bin otherwise. */
  lemma FreedPlace(h: Heap, p: nat, a: nat, e: nat)
    requires Tiled(h.l) && Around(h.l, p, a, e)
    ensures var h' := AfterFree(h, p);
      && a in h'.l.chunks && h'.l.chunks[a] == Chunk(e - a, false, true)
      && h'.l.first == h.l.first && h'.l.end == h.l.end
      && (forall q {:trigger q in h'.l.chunks} :: !(a <= q <= e) ==>
            (q in h'.l.chunks <==> q in h.l.chunks) && (q in h.l.chunks ==> h'.l.chunks[q] == h.l.chunks[q]))
      && (if e == h.l.end then h'.top == a && h'.topsize == e - a else h'.top == h.top && h'.topsize == h.topsize)
      && (if h.dvsize > 0 && a <= h.dv < e && e != h.l.end then h'.dv == a && h'.dvsize == e - a
          else if e == h.l.end && h.dv == a then h'.dv == 0 && h'.dvsize == 0
          else h'.dv == h.dv && h'.dvsize == h.dvsize)
      && (e != h.l.end && !(h.dvsize > 0 && a <= h.dv < e) ==> Queued(h'.lists, e - a, a))
  {
    hide AfterFree, PutAside, FusedAside, Delist, With, Fused;
    AroundFacts(h.l, p, a, e);
    var n := Next(h.l, p);
    var h1 := h.(lists := if a < p then Delist(h.lists, p - a, a) else h.lists);
    var h2 := h1.(lists := if n < e then Delist(h1.lists, e - n, n) else h1.lists);
    FreeFrom(h, p, a);
    if n < e { FusedInto(h1, a, n); }
    AsideQueue(h2, a, e, e - a, a);
    if e == h.l.end { AsideToTop(h2, a, e); }
    else if h.dvsize > 0 && a <= h.dv < e { AsideToDv(h2, a, e); }
    else { AsideToBin(h2, a, e); }
  }

  // malloc

  /** No listed size fits nb. */
  ghost predicate NothingListed(lists: Lists, nb: nat) {
    forall s {:trigger s in lists} :: s in lists ==> s < nb
  }

  /** dv serves a large request when no binned chunk is smaller, and a small one when no chunk of that
      size or the next is binned. */
  ghost predicate DvPreferred(lists: Lists, dvsize: nat, nb: nat) {
    if nb < MIN_LARGE_SIZE then nb !in lists && (nb + 8 < MIN_LARGE_SIZE ==> nb + 8 !in lists)
    else forall s {:trigger s in lists} :: s in lists && nb <= s ==> dvsize <= s
  }

  /** The bins are passed over: dv is to be preferred, or no binned chunk fits. */
  ghost predicate PassedOver(lists: Lists, dvsize: nat, nb: nat) {
    if nb <= dvsize then DvPreferred(lists, dvsize, nb) else NothingListed(lists, nb)
  }

  ghost predicate LeastFit(lists: Lists, nb: nat, s: nat) {
    s in lists && |lists[s]| > 0 && nb <= s && forall t {:trigger t in lists} :: t in lists && nb <= t ==> s <= t
  }

  /** The smallest listed size that fits nb. */
  ghost function FitSize(lists: Lists, nb: nat): nat {
    if exists s: nat :: LeastFit(lists, nb, s) then
      var s: nat :| LeastFit(lists, nb, s);
      s
    else 0
  }

  /** Whose turn it is among chunks of a size: in a small bin the one listed last, in a tree the one listed first. */
  function Turn(s: nat, list: seq<nat>): nat { if s < MIN_LARGE_SIZE && |list| > 0 then |list| - 1 else 0 }

  /** r becomes dv, and the old dv is listed. */
  ghost function NewDv(h: Heap, r: nat, rsize: nat): Heap {
    h.(dv := r, dvsize := rsize, lists := if h.dvsize > 0 then With(h.lists, h.dvsize, h.dv) else h.lists)
  }

  /** nb bytes of the unlisted chunk at c, of s bytes.  What is left, if it can be a chunk, becomes dv when a small
      request is served, and is listed when a large one is. */
  ghost function CutFrom(h: Heap, c: nat, s: nat, nb: nat, small: bool): Heap {
    if s < nb + MIN_CHUNK_SIZE then h.(l := Fused(h.l, c, c + s, true))
    else
      var h' := h.(l := Parted(h.l, c, c + nb, c + s, false));
      if small then NewDv(h', c + nb, s - nb) else h'.(lists := With(h.lists, s - nb, c + nb))
  }

  /** nb bytes of the chunk listed under s whose turn it is. */
  ghost function FromBin(h: Heap, s: nat, nb: nat): Heap {
    if s in h.lists && |h.lists[s]| > 0 then
      var k := Turn(s, h.lists[s]);
      CutFrom(h.(lists := Without(h.lists, s, k)), h.lists[s][k], s, nb, nb < MIN_LARGE_SIZE)
    else h
  }

  /** nb bytes of dv, which keeps the rest if that can be a chunk. */
  ghost function FromDv(h: Heap, nb: nat): Heap {
    if h.dvsize < nb + MIN_CHUNK_SIZE then h.(l := Fused(h.l, h.dv, h.dv + h.dvsize, true), dv := 0, dvsize := 0)
    else
      h.(l := Parted(h.l, h.dv, h.dv + nb, h.dv + h.dvsize, false), dv := h.dv + nb, dvsize := h.dvsize - nb)
  }

  /** nb bytes of top, which keeps the rest. */
  ghost function FromTop(h: Heap, nb: nat): Heap {
    h.(l := Parted(h.l, h.top, h.top + nb, h.l.end, false), top := h.top + nb, topsize := Gap(nb, h.topsize))
  }

  /** The chunk that serves a request for nb bytes: the one whose turn it is among those of the smallest listed size
      that fits, unless the bins are passed over; then dv, if that fits, and top otherwise. */
  ghost function Granted(h: Heap, nb: nat): nat {
    if !PassedOver(h.lists, h.dvsize, nb) then
      var s := FitSize(h.lists, nb);
      if s in h.lists && |h.lists[s]| > 0 then h.lists[s][Turn(s, h.lists[s])] else 0
    else if nb <= h.dvsize then h.dv
    else h.top
  }

  /** dlmalloc of nb bytes, when the heap has them. */
  ghost function AfterMalloc(h: Heap, nb: nat): Heap {
    if !PassedOver(h.lists, h.dvsize, nb) then FromBin(h, FitSize(h.lists, nb), nb)
    else if nb <= h.dvsize then FromDv(h, nb)
    else FromTop(h, nb)
  }

  /** Whether the heap has nb bytes; top must keep some. */
  ghost predicate Serves(h: Heap, nb: nat) {
    !PassedOver(h.lists, h.dvsize, nb) || nb <= h.dvsize || nb < h.topsize
  }

  /** The chunk at p is the one that serves nb, and the heap is what that leaves. */
  ghost predicate Fetched(h0: Heap, nb: nat, p: nat, h: Heap) {
    p == Granted(h0, nb) && h == AfterMalloc(h0, nb)
  }

  lemma FitSizeIs(lists: Lists, nb: nat, s: nat)
    requires LeastFit(lists, nb, s)
    ensures FitSize(lists, nb) == s
  {
  }

  /** A request served from the list of size s. */
  lemma BinFetched(h: Heap, nb: nat, s: nat)
    requires LeastFit(h.lists, nb, s) && !PassedOver(h.lists, h.dvsize, nb)
    ensures Fetched(h, nb, h.lists[s][Turn(s, h.lists[s])], FromBin(h, s, nb))
  {
    hide FromBin, PassedOver;
    FitSizeIs(h.lists, nb, s);
  }

  /** Where some listed size fits, there is a smallest one. */
  lemma {:induction false} LeastThere(lists: Lists, nb: nat, s: nat)
    requires s in lists && nb <= s
    requires forall t {:trigger lists[t]} :: t in lists ==> |lists[t]| > 0
    ensures LeastFit(lists, nb, FitSize(lists, nb))
    decreases s
  {
    if LeastFit(lists, nb, s) {
    } else {
      var t :| t in lists && nb <= t < s;
      LeastThere(lists, nb, t);
    }
  }

  /** Unless the bins are passed over, a listed size fits, and the smallest that does is used. */
  lemma SomethingFits(h: Heap, nb: nat)
    requires Sound(h) && !PassedOver(h.lists, h.dvsize, nb)
    ensures LeastFit(h.lists, nb, FitSize(h.lists, nb))
    ensures var s := FitSize(h.lists, nb); s in h.lists && |h.lists[s]| > 0 && nb <= s
  {
    hide FitSize;
    var s :| s in h.lists && nb <= s;
    LeastThere(h.lists, nb, s);
  }

  lemma WithQueue(lists: Lists, s: nat, x: nat, t: nat, y: nat)
    ensures Queued(With(lists, s, x), t, y) <==> Queued(lists, t, y) || (t == s && y == x)
  {
  }

  lemma WithoutQueue(lists: Lists, s: nat, k: nat, t: nat, y: nat)
    requires s in lists && k < |lists[s]| && Distinct(lists[s])
    ensures Queued(Without(lists, s, k), t, y) <==> Queued(lists, t, y) && !(t == s && y == lists[s][k])
  {
    if t == s {
      if y != lists[s][k] && y in lists[s] { DropKeeps(lists[s], k, y); }
      DropOnly(lists[s], k, y);
    }
  }

  /** Where the rest of a chunk taken from a bin goes: it becomes dv when the request was small, the old dv being listed
      then, and is listed when the request was large; a rest too small to be a chunk goes with the grant. */
  lemma RestPlace(h: Heap, nb: nat)
    requires Sound(h) && !PassedOver(h.lists, h.dvsize, nb)
    ensures var s, c, h' := FitSize(h.lists, nb), Granted(h, nb), AfterMalloc(h, nb);
      && h'.top == h.top && h'.topsize == h.topsize
      && (if s >= nb + MIN_CHUNK_SIZE && nb < MIN_LARGE_SIZE then
            h'.dv == c + nb && h'.dvsize == s - nb && (h.dvsize > 0 ==> Queued(h'.lists, h.dvsize, h.dv))
          else h'.dv == h.dv && h'.dvsize == h.dvsize)
      && (s >= nb + MIN_CHUNK_SIZE && nb >= MIN_LARGE_SIZE ==> Queued(h'.lists, s - nb, c + nb))
  {
    hide PassedOver, LeastFit, Without, Fused, Parted, FitSize;
    SomethingFits(h, nb);
  }

  /** Which chunks are listed when a chunk of s bytes at c has been taken from its bin: the others, and a rest that is
      listed, or the old dv when the rest takes its place. */
  lemma RestQueue(h: Heap, nb: nat, t: nat, x: nat)
    requires Sound(h) && !PassedOver(h.lists, h.dvsize, nb)
    ensures var s, c, h' := FitSize(h.lists, nb), Granted(h, nb), AfterMalloc(h, nb);
      Queued(h'.lists, t, x) <==>
        || (Queued(h.lists, t, x) && !(t == s && x == c))
        || (s >= nb + MIN_CHUNK_SIZE && (if nb >= MIN_LARGE_SIZE then t == s - nb && x == c + nb
             else h.dvsize > 0 && t == h.dvsize && x == h.dv))
  {
    hide PassedOver, LeastFit, Fused, Parted, FitSize, Without, With, Queued;
    var s := FitSize(h.lists, nb);
    SomethingFits(h, nb);
    var k := Turn(s, h.lists[s]);
    WithoutQueue(h.lists, s, k, t, x);
    var lists := Without(h.lists, s, k);
    WithQueue(lists, s - nb, Granted(h, nb) + nb, t, x);
    WithQueue(lists, h.dvsize, h.dv, t, x);
  }

  /** A request served from dv. */
  lemma DvFetched(h: Heap, nb: nat)
    requires PassedOver(h.lists, h.dvsize, nb) && nb <= h.dvsize
    ensures Serves(h, nb) && Fetched(h, nb, h.dv, FromDv(h, nb))
  {
    hide PassedOver, FromDv;
  }

  /** A request served from top. */
  lemma TopFetched(h: Heap, nb: nat)
    requires PassedOver(h.lists, h.dvsize, nb) && h.dvsize < nb < h.topsize
    ensures Serves(h, nb) && Fetched(h, nb, h.top, FromTop(h, nb))
  {
    hide PassedOver, FromTop;
  }

  lemma NotServed(h: Heap, nb: nat)
    requires PassedOver(h.lists, h.dvsize, nb) && h.dvsize < nb && h.topsize <= nb
    ensures !Serves(h, nb)
  {
    hide PassedOver;
  }

  // realloc in place

  /** The in-use chunk at p keeps nb bytes of [p, e); the rest is freed. */
  ghost function CutBack(h: Heap, p: nat, nb: nat, e: nat): Heap {
    AfterFree(h.(l := Parted(h.l, p, p + nb, e, true)), p + nb)
  }

  /** The in-use chunk at p grows over dv behind it, up to e. */
  ghost function IntoDv(h: Heap, p: nat, nb: nat, e: nat): Heap {
    if e < p + nb + MIN_CHUNK_SIZE then h.(l := Fused(h.l, p, e, true), dv := 0, dvsize := 0)
    else h.(l := Parted(h.l, p, p + nb, e, false), dv := p + nb, dvsize := e - (p + nb))
  }

  /** It grows over the free chunk at n behind it, up to e. */
  ghost function IntoNext(h: Heap, p: nat, nb: nat, n: nat, e: nat): Heap {
    var h' := h.(lists := Delist(h.lists, Gap(n, e), n));
    if e < p + nb + MIN_CHUNK_SIZE then h'.(l := Fused(h.l, p, e, true)) else CutBack(h', p, nb, e)
  }

  /** It grows over top behind it. */
  ghost function IntoTop(h: Heap, p: nat, nb: nat): Heap {
    h.(l := Parted(h.l, p, p + nb, h.l.end, false), top := p + nb, topsize := Gap(p + nb, h.l.end))
  }

  /** try_realloc_chunk, when there is room for nb bytes. */
  ghost function AfterResize(h: Heap, p: nat, nb: nat): Heap {
    var n := Behind(h.l, p);
    if p + nb <= n then if n < p + nb + MIN_CHUNK_SIZE then h else CutBack(h, p, nb, n)
    else if n == h.top then IntoTop(h, p, nb)
    else if n == h.dv then IntoDv(h, p, nb, n + h.dvsize)
    else IntoNext(h, p, nb, n, Behind(h.l, n))
  }

  // memalign

  /** The leader, the in-use chunk at p up to q, is freed. */
  ghost function LeadOff(h: Heap, p: nat, q: nat): Heap {
    if q == p then h else AfterFree(h.(l := Parted(h.l, p, q, Behind(h.l, p), true)), p)
  }

  /** What the in-use chunk at q has beyond nb bytes is freed, if it is more than the smallest chunk. */
  ghost function TailOff(h: Heap, q: nat, nb: nat): Heap {
    var e := Behind(h.l, q);
    if e <= q + nb + MIN_CHUNK_SIZE then h else CutBack(h, q, nb, e)
  }

  // bulk_free

  /** internal_bulk_free of the blocks at ps: where the next block named lies right behind, the two are made one, which
      the next entry then stands for. */
  ghost function AfterBulk(h: Heap, ps: seq<nat>): Heap
    decreases |ps|
  {
    if ps == [] then h
    else if ps[0] < 8 then AfterBulk(h, ps[1..])
    else
      var p := ps[0] - 8;
      var n := Behind(h.l, p);
      if |ps| > 1 && ps[1] == n + 8 then
        AfterBulk(h.(l := Fused(h.l, p, Behind(h.l, n), true)), [ps[0]] + ps[2..])
      else AfterBulk(AfterFree(h, p), ps[1..])
  }

  /** Freeing the blocks at ps one by one. */
  ghost function AfterEach(h: Heap, ps: seq<nat>): Heap
    decreases |ps|
  {
    if ps == [] then h
    else AfterEach(if ps[0] < 8 then h else AfterFree(h, ps[0] - 8), ps[1..])
  }
}
