/** The 32 small bins: one ring per size below 256, each through a header in static data. */
module SmallBins {
  import opened Memory
  import opened Layouts
  import opened Rings
  import opened Payloads
  import opened Bins
  import opened BinMaps

  const NSMALLBINS: nat := 32
  const MIN_LARGE_SIZE: nat := 256

  predicate IsSmall(s: nat) { s / 8 < NSMALLBINS }

  function SmallIndex(s: nat): nat { s / 8 }

  /** smallbin_at for the bin of size s: a header placed so that its fd and bk are the array slots. */
  function Header(sb: nat, s: nat): nat { sb + s }

  ghost function SmallRing(sb: nat, lists: Lists, s: nat): seq<nat>
    requires s in lists
  {
    [Header(sb, s)] + lists[s]
  }

  ghost predicate SmallAt(m: Mem, sb: nat, lists: Lists, s: nat)
    requires s in lists
  {
    s < MIN_LARGE_SIZE ==> Ring(m, SmallRing(sb, lists, s))
  }

  ghost predicate MapAt(smallmap: bv32, lists: Lists, i: nat)
    requires i < 32
  {
    Marked(smallmap, i) <==> 8 * i in lists
  }

  /** A marked bin's ring runs through its header; the links of an unmarked header mean nothing. */
  ghost predicate SmallReady(m: Mem, smallmap: bv32, sb: nat, lists: Lists) {
    && (forall s {:trigger SmallAt(m, sb, lists, s)} :: s in lists ==> SmallAt(m, sb, lists, s))
    && (forall i: nat {:trigger MapAt(smallmap, lists, i)} :: i < 32 ==> MapAt(smallmap, lists, i))
  }

  /** Only the words at these granules differ. */
  ghost predicate Touches(m: Mem, m': Mem, xs: set<nat>) {
    forall y {:trigger SameAt(m, m', y)} :: y !in xs ==> SameAt(m, m', y)
  }

  /** A ring element of another list is neither the header of bin s nor one of its chunks. */
  lemma RingElement(l: Layout, lists: Lists, loose: set<nat>, sb: nat, t: nat, k: nat)
    requires Tiled(l) && Binned(l, lists, loose) && sb + 264 <= l.first
    requires t in lists && t < MIN_LARGE_SIZE && k < |SmallRing(sb, lists, t)|
    ensures var x := SmallRing(sb, lists, t)[k];
      x == Header(sb, t) < l.first
        || (x in l.chunks && l.chunks[x].size == t && x !in loose && !l.chunks[x].inuse && l.first <= x)
  {
    if k > 0 {
      assert MemberAt(l, lists, loose, t, k - 1);
      assert FitsAt(l, lists[t][k - 1]);
    }
  }

  lemma SmallRingDistinct(l: Layout, lists: Lists, loose: set<nat>, sb: nat, s: nat)
    requires Tiled(l) && Binned(l, lists, loose) && sb + 264 <= l.first && s in lists && s < MIN_LARGE_SIZE
    ensures Distinct(SmallRing(sb, lists, s))
  {
    var r := SmallRing(sb, lists, s);
    forall i: nat, j: nat | i < j < |r| ensures r[i] != r[j] {
      RingElement(l, lists, loose, sb, s, j);
      if i == 0 {
        assert MemberAt(l, lists, loose, s, j - 1);
        assert FitsAt(l, lists[s][j - 1]);
      } else {
        assert lists[s][i - 1] != lists[s][j - 1];
      }
    }
  }

  /** Ring words of size class s: its header and chunks (listed or not). */
  ghost predicate OfClass(l: Layout, sb: nat, s: nat, x: nat) {
    x == Header(sb, s) || (x in l.chunks && l.chunks[x].size == s && !l.chunks[x].inuse)
  }

  /** Rewriting links of one size class leaves the rings of the other small bins intact. */
  lemma OtherRingsKept(l: Layout, lists: Lists, loose: set<nat>, sb: nat, s: nat, t: nat, m: Mem, m': Mem, a: nat,
          b: nat, c: nat)
    requires Tiled(l) && Binned(l, lists, loose) && sb + 264 <= l.first
    requires s < MIN_LARGE_SIZE && t in lists && t < MIN_LARGE_SIZE && s != t
    requires OfClass(l, sb, s, a) && OfClass(l, sb, s, b) && OfClass(l, sb, s, c)
    requires Touches(m, m', {a + 8, b + 8, c + 8})
    requires Ring(m, SmallRing(sb, lists, t))
    ensures Ring(m', SmallRing(sb, lists, t))
  {
    var r := SmallRing(sb, lists, t);
    forall k: nat | k < |r| ensures SameAt(m, m', r[k] + 8) {
      RingElement(l, lists, loose, sb, t, k);
      NotOfClass(l, sb, s, t, r[k], a);
      NotOfClass(l, sb, s, t, r[k], b);
      NotOfClass(l, sb, s, t, r[k], c);
    }
    RingFrame(m, m', r);
  }

  lemma NotOfClass(l: Layout, sb: nat, s: nat, t: nat, x: nat, a: nat)
    requires Tiled(l) && sb + 264 <= l.first && s < MIN_LARGE_SIZE && t < MIN_LARGE_SIZE && s != t
    requires x == Header(sb, t) || (x in l.chunks && l.chunks[x].size == t)
    requires OfClass(l, sb, s, a)
    ensures x != a
  {
    if x in l.chunks { assert FitsAt(l, x); }
    if a in l.chunks { assert FitsAt(l, a); }
  }

  lemma LinksOfClass(l: Layout, sb: nat, s: nat, a: nat, b: nat, c: nat, m: Mem, m': Mem)
    requires Tiled(l) && sb + 264 <= l.first && 16 <= s < MIN_LARGE_SIZE
    requires OfClass(l, sb, s, a) && OfClass(l, sb, s, b) && OfClass(l, sb, s, c)
    requires Touches(m, m', {a + 8, b + 8, c + 8})
    ensures LinkWrites(l, m, m')
  {
    LinkWordOfClass(l, sb, s, a);
    LinkWordOfClass(l, sb, s, b);
    LinkWordOfClass(l, sb, s, c);
    forall y | !LinkWord(l, y) ensures SameAt(m, m', y) { }
  }

  lemma LinkWordOfClass(l: Layout, sb: nat, s: nat, a: nat)
    requires Tiled(l) && sb + 264 <= l.first && 16 <= s < MIN_LARGE_SIZE && OfClass(l, sb, s, a)
    ensures LinkWord(l, a + 8)
  {
    if a in l.chunks { assert FitsAt(l, a); FreeBody(l, a, a + 8); }
  }

  ghost predicate BinsReady(l: Layout, lists: Lists, loose: set<nat>, sb: nat) {
    Tiled(l) && Binned(l, lists, loose) && sb + 264 <= l.first
  }

  /** insert_small_chunk: p joins its list, its bin is marked, and only link words change. */
  lemma SmallInserted(l: Layout, lists: Lists, loose: set<nat>, sb: nat, p: nat, f: nat, m: Mem, smallmap: bv32,
          m': Mem, smallmap': bv32)
    requires BinsReady(l, lists, loose, sb) && SmallReady(m, smallmap, sb, lists)
    requires p in loose && p in l.chunks && Next(l, p) != l.end && l.chunks[p].size < MIN_LARGE_SIZE
    requires var s := l.chunks[p].size;
      && f == (if s in lists then Fd(m, Header(sb, s)) else Header(sb, s))
      && m' == LinkBetween(m, f, Header(sb, s), p)
      && smallmap' == (if s in lists then smallmap else Mark(smallmap, SmallIndex(s)))
    ensures SmallReady(m', smallmap', sb, With(lists, l.chunks[p].size, p))
    ensures OfClass(l, sb, l.chunks[p].size, f)
    ensures Touches(m, m', {Header(sb, l.chunks[p].size) + 8, f + 8, p + 8})
  {
    hide Marked, Mark;
    var s := l.chunks[p].size;
    var n := With(lists, s, p);
    assert LooseAt(l, p) && FitsAt(l, p);
    LinkTouches(m, f, Header(sb, s), p);
    SmallRingExtended(l, lists, loose, sb, p, f, m);
    forall t | t in n ensures SmallAt(m', sb, n, t) {
      if t != s && t < MIN_LARGE_SIZE {
        assert SmallAt(m, sb, lists, t);
        OtherRingsKept(l, lists, loose, sb, s, t, m, m', Header(sb, s), f, p);
        assert SmallRing(sb, n, t) == SmallRing(sb, lists, t);
      }
    }
    forall i: nat | i < 32 ensures MapAt(smallmap', n, i) {
      assert MapAt(smallmap, lists, i);
      MarkBin(smallmap, SmallIndex(s), i);
    }
  }

  lemma LinkTouches(m: Mem, f: nat, b: nat, x: nat)
    ensures Touches(m, LinkBetween(m, f, b, x), {b + 8, f + 8, x + 8})
    ensures Touches(m, UnlinkBetween(m, f, b), {b + 8, f + 8, x + 8})
  {
  }

  lemma SmallRingExtended(l: Layout, lists: Lists, loose: set<nat>, sb: nat, p: nat, f: nat, m: Mem)
    requires BinsReady(l, lists, loose, sb)
    requires p in loose && p in l.chunks && l.chunks[p].size < MIN_LARGE_SIZE
    requires l.chunks[p].size in lists ==> SmallAt(m, sb, lists, l.chunks[p].size)
    requires f == (if l.chunks[p].size in lists then Fd(m, Header(sb, l.chunks[p].size))
      else Header(sb, l.chunks[p].size))
    ensures var s := l.chunks[p].size;
      Ring(LinkBetween(m, f, Header(sb, s), p), SmallRing(sb, With(lists, s, p), s))
    ensures OfClass(l, sb, l.chunks[p].size, f)
  {
    var s := l.chunks[p].size;
    var r := if s in lists then SmallRing(sb, lists, s) else [Header(sb, s)];
    assert FitsAt(l, p) && LooseAt(l, p);
    if s in lists {
      SmallRingDistinct(l, lists, loose, sb, s);
      assert RingAt(m, r, 0);
      NotListed(l, lists, loose, s, p);
      RingElement(l, lists, loose, sb, s, |r| - 1);
    }
    assert SmallRing(sb, With(lists, s, p), s) == r + [p];
    RingAppend(m, r, p);
  }

  /** unlink_small_chunk and unlink_first_small_chunk: p leaves its list, and its bin is unmarked
      when p was the last chunk, in which case no link is written. */
  lemma SmallUnlinked(l: Layout, lists: Lists, loose: set<nat>, sb: nat, p: nat, k: nat, f: nat, b: nat, m: Mem,
          smallmap: bv32, m': Mem, smallmap': bv32)
    requires BinsReady(l, lists, loose, sb) && SmallReady(m, smallmap, sb, lists)
    requires p in l.chunks && l.chunks[p].size in lists && l.chunks[p].size < MIN_LARGE_SIZE
    requires k < |lists[l.chunks[p].size]| && lists[l.chunks[p].size][k] == p
    requires f == Fd(m, p) && b == Bk(m, p)
    requires m' == (if b == f then m else UnlinkBetween(m, f, b))
    requires smallmap' == (if b == f then Clear(smallmap, SmallIndex(l.chunks[p].size)) else smallmap)
    ensures SmallReady(m', smallmap', sb, Without(lists, l.chunks[p].size, k))
    ensures OfClass(l, sb, l.chunks[p].size, f) && OfClass(l, sb, l.chunks[p].size, b)
    ensures Touches(m, m', {b + 8, f + 8, p + 8})
  {
    hide Marked, Clear;
    var s := l.chunks[p].size;
    var n := Without(lists, s, k);
    LinkTouches(m, f, b, p);
    MemberFits(l, lists, loose, s, k);
    SmallRingReduced(l, lists, loose, sb, p, k, m);
    forall t | t in n ensures SmallAt(m', sb, n, t) {
      if t != s && t < MIN_LARGE_SIZE {
        assert SmallAt(m, sb, lists, t);
        OtherRingsKept(l, lists, loose, sb, s, t, m, m', b, f, p);
        assert SmallRing(sb, n, t) == SmallRing(sb, lists, t);
      }
    }
    forall i: nat | i < 32 ensures MapAt(smallmap', n, i) {
      assert MapAt(smallmap, lists, i);
      MarkBin(smallmap, SmallIndex(s), i);
    }
  }

  lemma HeaderStays(h: nat, r: seq<nat>, k: nat)
    requires k < |r|
    ensures Drop([h] + r, k + 1) == [h] + Drop(r, k)
  {
  }

  lemma RingNeighbour(m: Mem, r: seq<nat>, k: nat)
    requires Ring(m, r) && Distinct(r) && 1 < |r| && k < |r|
    ensures Bk(m, r[k]) == After(r, k) && Fd(m, r[k]) == Before(r, k) && (After(r, k) == Before(r, k) <==> |r| == 2)
  {
    assert RingAt(m, r, k);
    var a, b := if k + 1 == |r| then 0 else k + 1, if k == 0 then |r| - 1 else k - 1;
    assert a < b ==> r[a] != r[b];
    assert b < a ==> r[b] != r[a];
  }

  lemma SmallRingReduced(l: Layout, lists: Lists, loose: set<nat>, sb: nat, p: nat, k: nat, m: Mem)
    requires BinsReady(l, lists, loose, sb)
    requires p in l.chunks && l.chunks[p].size in lists && l.chunks[p].size < MIN_LARGE_SIZE
    requires k < |lists[l.chunks[p].size]| && lists[l.chunks[p].size][k] == p
    requires SmallAt(m, sb, lists, l.chunks[p].size)
    ensures var s, f, b := l.chunks[p].size, Fd(m, p), Bk(m, p);
      && OfClass(l, sb, s, f) && OfClass(l, sb, s, b)
      && (f == b <==> |lists[s]| == 1)
      && (f != b ==> Ring(UnlinkBetween(m, f, b), SmallRing(sb, Without(lists, s, k), s)))
  {
    hide Distinct, RingAt, Ring, UnlinkBetween, Binned, Tiled, Drop;
    var s := l.chunks[p].size;
    var r := SmallRing(sb, lists, s);
    SmallRingDistinct(l, lists, loose, sb, s);
    RingNeighbour(m, r, k + 1);
    RingElement(l, lists, loose, sb, s, k);
    RingElement(l, lists, loose, sb, s, if k + 2 == |r| then 0 else k + 2);
    if |r| > 2 {
      RingUnlink(m, r, k + 1);
      HeaderStays(Header(sb, s), lists[s], k);
    }
  }
}
