/** Boundary-tag tilings: the chunk sequence that the head and foot words of malloc.c describe. */
module Layouts {
  /** What one head word says: size, CINUSE and PINUSE. */
  datatype Chunk = Chunk(size: nat, inuse: bool, pin: bool)

  /** Chunks by address.  They tile [first, end); the chunk that touches `end` is the top chunk. */
  datatype Layout = Layout(first: nat, end: nat, chunks: map<nat, Chunk>)

  lemma EightMore(a: nat, b: nat)
    requires a % 8 == 0 && b % 8 == 0
    ensures (a + b) % 8 == 0
  {
  }

  function Next(l: Layout, p: nat): nat
    requires p in l.chunks
  {
    p + l.chunks[p].size
  }

  ghost predicate Boundary(l: Layout, x: nat) {
    x == l.end || x in l.chunks
  }

  /** The chunk at p is aligned and lies inside the segment; only the top chunk touches its end. */
  ghost predicate FitsAt(l: Layout, p: nat)
    requires p in l.chunks
  {
    && p % 8 == 0 && l.chunks[p].size % 8 == 0
    && l.first <= p && Next(l, p) <= l.end
    && (if Next(l, p) == l.end then l.chunks[p].size >= 8 && !l.chunks[p].inuse else l.chunks[p].size >= 16)
  }

  ghost predicate ApartAt(l: Layout, p: nat, q: nat)
    requires p in l.chunks && q in l.chunks
  {
    p < q ==> Next(l, p) <= q
  }

  /** The chunk at p ends where the next one starts, the next one's PINUSE bit tells whether p is
      in use, and p and its successor are not both free. */
  ghost predicate LinkedAt(l: Layout, p: nat)
    requires p in l.chunks
  {
    && (!l.chunks[p].inuse ==> l.chunks[p].pin)
    && (Next(l, p) != l.end ==>
          && Next(l, p) in l.chunks
          && l.chunks[Next(l, p)].pin == l.chunks[p].inuse
          && (l.chunks[p].inuse || l.chunks[Next(l, p)].inuse))
  }

  ghost predicate Tiled(l: Layout) {
    && l.first % 8 == 0 && l.end % 8 == 0 && l.first in l.chunks && l.chunks[l.first].pin
    && (forall p {:trigger FitsAt(l, p)} :: p in l.chunks ==> FitsAt(l, p))
    && (forall p, q {:trigger ApartAt(l, p, q)} :: p in l.chunks && q in l.chunks ==> ApartAt(l, p, q))
    && (forall p {:trigger LinkedAt(l, p)} :: p in l.chunks ==> LinkedAt(l, p))
  }

  /** The chunks outside [a, e), with the PINUSE bit of the chunk at e set to `pin`. */
  ghost function Rest(l: Layout, a: nat, e: nat, pin: bool): (r: map<nat, Chunk>)
  {
    map q | q in l.chunks && !(a <= q < e) ::
      if q == e then l.chunks[q].(pin := pin) else l.chunks[q]
  }

  /** Merge everything in [a, e) into one chunk. */
  ghost function One(l: Layout, a: nat, e: nat, inuse: bool): Layout
    requires a in l.chunks && a < e
  {
    l.(chunks := Rest(l, a, e, inuse)[a := Chunk(e - a, inuse, l.chunks[a].pin)])
  }

  /** Rebuild [a, e) as an in-use chunk [a, m) followed by [m, e). */
  ghost function Two(l: Layout, a: nat, m: nat, e: nat, inuse: bool): Layout
    requires a in l.chunks && a < m < e
  {
    l.(chunks := Rest(l, a, e, inuse)[a := Chunk(m - a, true, l.chunks[a].pin)][m := Chunk(e - m, inuse, true)])
  }

  /** Walking from `first` meets every boundary: each chunk but the first has a predecessor. */
  lemma Predecessor(l: Layout, q: nat) returns (p: nat)
    requires Tiled(l) && Boundary(l, q) && q != l.first
    ensures p in l.chunks && Next(l, p) == q && p < q
  {
    p := l.first;
    assert q in l.chunks ==> FitsAt(l, q);
    assert FitsAt(l, p);
    while Next(l, p) != q
      invariant p in l.chunks && p < q
      decreases q - p
    {
      assert FitsAt(l, p) && LinkedAt(l, p);
      assert q in l.chunks ==> ApartAt(l, p, q) && FitsAt(l, q);
      assert Next(l, p) in l.chunks ==> FitsAt(l, Next(l, p));
      p := Next(l, p);
    }
  }

  ghost predicate CanBeOne(l: Layout, a: nat, e: nat, inuse: bool) {
    && a in l.chunks && a < e && Boundary(l, e)
    && (if e == l.end then !inuse && e - a >= 8 else e - a >= 16)
    && (!inuse ==> l.chunks[a].pin && (e == l.end || l.chunks[e].inuse))
  }

  ghost predicate CanBeTwo(l: Layout, a: nat, m: nat, e: nat, inuse: bool) {
    && a in l.chunks && a < m < e && Boundary(l, e) && m % 8 == 0
    && m - a >= 16
    && (if e == l.end then !inuse && e - m >= 8 else e - m >= 16)
    && (!inuse ==> e == l.end || l.chunks[e].inuse)
  }

  /** n is l with [a, e) rebuilt: the chunks outside are those of l, except that the chunk at e
      learns the new in-use state of its predecessor. */
  ghost predicate Spliced(l: Layout, n: Layout, a: nat, e: nat, pin: bool) {
    && n.first == l.first && n.end == l.end
    && a in l.chunks && a in n.chunks && a < e && Boundary(l, e)
    && n.chunks[a].pin == l.chunks[a].pin
    && (!n.chunks[a].inuse ==> l.chunks[a].pin)
    && (e == l.end ==> e !in n.chunks)
    && (e != l.end ==> e in n.chunks && n.chunks[e] == l.chunks[e].(pin := pin) && (!l.chunks[e].inuse ==> pin))
    && (forall q {:trigger q in n.chunks} {:trigger n.chunks[q]} :: !(a <= q <= e) ==>
          (q in n.chunks <==> q in l.chunks) && (q in l.chunks ==> n.chunks[q] == l.chunks[q]))
  }

  lemma SpliceOutside(l: Layout, n: Layout, a: nat, e: nat, pin: bool, p: nat)
    requires Tiled(l) && Spliced(l, n, a, e, pin)
    requires p in n.chunks && !(a <= p < e)
    ensures FitsAt(n, p) && LinkedAt(n, p)
    ensures p < a ==> Next(n, p) <= a
    ensures p == l.first ==> n.chunks[p].pin || p == e
  {
    assert e in l.chunks ==> FitsAt(l, e);
    assert p in l.chunks && FitsAt(l, p) && FitsAt(l, a);
    assert LinkedAt(l, p) && ApartAt(l, p, a);
  }

  lemma SpliceApart(l: Layout, n: Layout, a: nat, e: nat, pin: bool, p: nat, q: nat)
    requires Tiled(l) && Spliced(l, n, a, e, pin)
    requires p in n.chunks && q in n.chunks && !(a <= p < e) && !(a <= q < e)
    ensures ApartAt(n, p, q)
  {
    assert e in l.chunks ==> FitsAt(l, e);
    assert p in l.chunks && q in l.chunks && FitsAt(l, p) && FitsAt(l, q) && ApartAt(l, p, q);
  }

  lemma SpliceTiled(l: Layout, n: Layout, a: nat, e: nat, pin: bool)
    requires Tiled(l) && Spliced(l, n, a, e, pin)
    requires forall p :: p in n.chunks && a <= p < e ==> FitsAt(n, p) && LinkedAt(n, p) && Next(n, p) <= e
    requires forall p, q :: p in n.chunks && q in n.chunks && a <= p < e && a <= q < e ==> ApartAt(n, p, q)
    ensures Tiled(n)
  {
    assert FitsAt(l, a);
    forall p | p in n.chunks ensures FitsAt(n, p) && LinkedAt(n, p) {
      if !(a <= p < e) { SpliceOutside(l, n, a, e, pin, p); }
    }
    forall p, q | p in n.chunks && q in n.chunks ensures ApartAt(n, p, q) {
      if !(a <= p < e) && !(a <= q < e) { SpliceApart(l, n, a, e, pin, p, q); }
      else if !(a <= p < e) { SpliceOutside(l, n, a, e, pin, p); }
    }
    if a != l.first { assert FitsAt(l, l.first); SpliceOutside(l, n, a, e, pin, l.first); }
  }

  lemma OneTiled(l: Layout, a: nat, e: nat, inuse: bool)
    requires Tiled(l) && CanBeOne(l, a, e, inuse)
    ensures Tiled(One(l, a, e, inuse))
  {
    var n := One(l, a, e, inuse);
    assert FitsAt(l, a);
    assert e in l.chunks ==> FitsAt(l, e);
    SpliceTiled(l, n, a, e, inuse);
  }

  lemma TwoSpliced(l: Layout, a: nat, m: nat, e: nat, inuse: bool)
    requires Tiled(l) && CanBeTwo(l, a, m, e, inuse)
    ensures Spliced(l, Two(l, a, m, e, inuse), a, e, inuse)
  {
    assert FitsAt(l, a);
    assert e in l.chunks ==> FitsAt(l, e);
  }

  /** The two pieces fit, follow each other, and are alone in [a, e). */
  lemma TwoPieces(l: Layout, a: nat, m: nat, e: nat, inuse: bool)
    requires Tiled(l) && CanBeTwo(l, a, m, e, inuse)
    ensures var n := Two(l, a, m, e, inuse);
      && a in n.chunks && m in n.chunks && Next(n, a) == m && Next(n, m) == e
      && FitsAt(n, a) && FitsAt(n, m) && LinkedAt(n, a) && LinkedAt(n, m)
      && (forall q {:trigger q in n.chunks} :: q in n.chunks && a <= q < e ==> q == a || q == m)
  {
    assert FitsAt(l, a);
    assert e in l.chunks ==> FitsAt(l, e);
  }

  lemma TwoTiled(l: Layout, a: nat, m: nat, e: nat, inuse: bool)
    requires Tiled(l) && CanBeTwo(l, a, m, e, inuse)
    ensures Tiled(Two(l, a, m, e, inuse))
  {
    hide Tiled, Spliced, FitsAt, LinkedAt, Two;
    TwoSpliced(l, a, m, e, inuse);
    TwoPieces(l, a, m, e, inuse);
    SpliceTiled(l, Two(l, a, m, e, inuse), a, e, inuse);
  }
}
