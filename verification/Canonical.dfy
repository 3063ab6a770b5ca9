/** The layout is a function of the live allocations. */
module Canonical {
  import opened Layouts
  import opened Payloads

  ghost predicate SameSegment(l: Layout, n: Layout) {
    Tiled(l) && Tiled(n) && l.first == n.first && l.end == n.end && Live(l) == Live(n)
  }

  lemma LiveChunk(l: Layout, p: nat)
    ensures p in Live(l) <==> p in l.chunks && l.chunks[p].inuse
    ensures p in Live(l) ==> Live(l)[p] == l.chunks[p].size
  {
  }

  /** Where both layouts have a chunk, they agree on its size and use: a free chunk ends at the next
      live one, since free chunks never touch. */
  lemma SameChunk(l: Layout, n: Layout, p: nat)
    requires SameSegment(l, n) && p in l.chunks && p in n.chunks
    ensures l.chunks[p].size == n.chunks[p].size && l.chunks[p].inuse == n.chunks[p].inuse
  {
    LiveChunk(l, p);
    LiveChunk(n, p);
    if !l.chunks[p].inuse {
      FreeReaches(l, n, p);
      FreeReaches(n, l, p);
    }
  }

  lemma FreeReaches(l: Layout, n: Layout, p: nat)
    requires SameSegment(l, n) && p in l.chunks && p in n.chunks && !l.chunks[p].inuse
    ensures Next(n, p) <= Next(l, p)
  {
    assert FitsAt(l, p) && FitsAt(n, p) && LinkedAt(l, p);
    var q := Next(l, p);
    if q != l.end {
      LiveChunk(l, q);
      LiveChunk(n, q);
      assert ApartAt(n, p, q);
    }
  }

  lemma {:induction false} SharedBoundary(l: Layout, n: Layout, p: nat)
    requires SameSegment(l, n) && p in l.chunks
    ensures p in n.chunks && n.chunks[p].pin == l.chunks[p].pin
    decreases p
  {
    if p != l.first {
      var q := Predecessor(l, p);
      SharedBoundary(l, n, q);
      SameChunk(l, n, q);
      assert FitsAt(l, p) && LinkedAt(l, q) && LinkedAt(n, q);
    }
  }

  /** Two tilings of one segment with the same live allocations are equal, head bits and all: the
      order of past calls leaves no trace in the chunk sequence or in top. */
  lemma LayoutIsCanonical(l: Layout, n: Layout)
    requires SameSegment(l, n)
    ensures l == n
  {
    forall p | p in l.chunks ensures p in n.chunks && n.chunks[p] == l.chunks[p] {
      SharedBoundary(l, n, p);
      SameChunk(l, n, p);
    }
    forall p | p in n.chunks ensures p in l.chunks { SharedBoundary(n, l, p); }
  }
}
