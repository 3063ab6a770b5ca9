/** Which words belong to live allocations, and which words the allocator may scribble on. */
module Payloads {
  import opened Memory
  import opened Layouts
  import opened Tags

  /** The live allocations: chunk address to chunk size. */
  ghost function Live(l: Layout): map<nat, nat> {
    map p | p in l.chunks && l.chunks[p].inuse :: l.chunks[p].size
  }

  /** No word of the payload [p + 8, p + s + 4) differs between m and m'. */
  ghost predicate PayloadKept(m: Mem, m': Mem, p: nat, s: nat) {
    && (forall x {:trigger SameAt(m, m', x)} :: p + 8 <= x < p + s ==> SameAt(m, m', x))
    && Lo(m', p + s) == Lo(m, p + s)
  }

  /** No payload word of any of these allocations differs between m and m'. */
  ghost predicate Quiet(live: map<nat, nat>, m: Mem, m': Mem) {
    forall p {:trigger PayloadKept(m, m', p, live[p])} :: p in live ==> PayloadKept(m, m', p, live[p])
  }

  lemma QuietTransitive(live: map<nat, nat>, m0: Mem, m1: Mem, m2: Mem)
    requires Quiet(live, m0, m1) && Quiet(live, m1, m2)
    ensures Quiet(live, m0, m2)
  {
    forall p | p in live ensures PayloadKept(m0, m2, p, live[p]) {
      assert PayloadKept(m0, m1, p, live[p]) && PayloadKept(m1, m2, p, live[p]);
      forall x | p + 8 <= x < p + live[p] ensures SameAt(m0, m2, x) {
        assert SameAt(m0, m1, x) && SameAt(m1, m2, x);
      }
    }
  }

  lemma QuietFewer(live: map<nat, nat>, fewer: map<nat, nat>, m: Mem, m': Mem)
    requires Quiet(live, m, m')
    requires forall p {:trigger p in fewer} :: p in fewer ==> p in live && fewer[p] == live[p]
    ensures Quiet(fewer, m, m')
  {
    forall p | p in fewer ensures PayloadKept(m, m', p, fewer[p]) {
      assert PayloadKept(m, m', p, live[p]);
    }
  }

  ghost predicate InBody(l: Layout, c: nat, y: nat)
    requires c in l.chunks
  {
    !l.chunks[c].inuse && c + 8 <= y < Next(l, c)
  }

  /** y lies in the allocator's own static data or behind the header of a free chunk. */
  ghost predicate LinkWord(l: Layout, y: nat) {
    y < l.first || exists c {:trigger InBody(l, c, y)} :: c in l.chunks && InBody(l, c, y)
  }

  /** The granules right behind the header of a free chunk hold links. */
  lemma FreeBody(l: Layout, c: nat, y: nat)
    requires c in l.chunks && !l.chunks[c].inuse && c + 8 <= y < Next(l, c)
    ensures LinkWord(l, y)
  {
    assert InBody(l, c, y);
  }

  /** Only link words may differ. */
  ghost predicate LinkWrites(l: Layout, m: Mem, m': Mem) {
    forall y {:trigger SameAt(m, m', y)} :: !LinkWord(l, y) ==> SameAt(m, m', y)
  }

  lemma BoundaryNotLink(l: Layout, y: nat)
    requires Tiled(l) && Boundary(l, y)
    ensures !LinkWord(l, y)
  {
    assert FitsAt(l, l.first);
    assert y in l.chunks ==> FitsAt(l, y);
    forall c | c in l.chunks ensures !InBody(l, c, y) {
      assert FitsAt(l, c);
      assert y in l.chunks ==> ApartAt(l, c, y);
    }
  }

  lemma PayloadNotLink(l: Layout, p: nat, y: nat)
    requires Tiled(l) && p in l.chunks && l.chunks[p].inuse && p + 8 <= y < Next(l, p)
    ensures !LinkWord(l, y)
  {
    assert FitsAt(l, p);
    forall c | c in l.chunks ensures !InBody(l, c, y) {
      assert FitsAt(l, c) && ApartAt(l, c, p) && ApartAt(l, p, c);
    }
  }

  /** Writing links disturbs neither head nor foot words nor any live payload. */
  lemma LinkWritesKeep(l: Layout, m: Mem, m': Mem)
    requires Tiled(l) && Tagged(m, l) && LinkWrites(l, m, m')
    ensures Tagged(m', l) && Quiet(Live(l), m, m')
  {
    BoundaryNotLink(l, l.end);
    assert SameAt(m, m', l.end);
    forall p | p in l.chunks ensures TagAt(m', l, p) {
      NextBoundary(l, p);
      BoundaryNotLink(l, p);
      BoundaryNotLink(l, Next(l, p));
      assert TagAt(m, l, p) && SameAt(m, m', p) && SameAt(m, m', Next(l, p));
    }
    forall p | p in Live(l) ensures PayloadKept(m, m', p, Live(l)[p]) {
      LivePayloadKept(l, m, m', p);
    }
  }

  lemma NextBoundary(l: Layout, p: nat)
    requires Tiled(l) && p in l.chunks
    ensures Boundary(l, Next(l, p))
  {
    assert LinkedAt(l, p);
  }

  lemma LivePayloadKept(l: Layout, m: Mem, m': Mem, p: nat)
    requires Tiled(l) && LinkWrites(l, m, m') && p in l.chunks && l.chunks[p].inuse
    ensures PayloadKept(m, m', p, l.chunks[p].size)
  {
    NextBoundary(l, p);
    BoundaryNotLink(l, Next(l, p));
    assert SameAt(m, m', Next(l, p));
    forall x | p + 8 <= x < p + l.chunks[p].size ensures SameAt(m, m', x) {
      PayloadNotLink(l, p, x);
    }
  }

  /** Writing tags in [a, e] leaves alone every payload outside. */
  lemma TagWritesQuiet(l: Layout, a: nat, b: nat, e: nat, m: Mem, m': Mem, live: map<nat, nat>)
    requires a <= b < e && TagWrites(m, m', a, b, e)
    requires forall p {:trigger p in live} :: p in live ==>
      p + live[p] <= a || (e <= p && live[p] > 0) || (p == a && a + live[p] <= b)
    ensures Quiet(live, m, m')
  {
    forall p | p in live ensures PayloadKept(m, m', p, live[p]) {
      forall x | p + 8 <= x < p + live[p] ensures SameAt(m, m', x) {
      }
    }
  }
}
