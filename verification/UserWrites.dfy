/** What the program may do with its own memory: writing inside a live payload keeps the heap. */
module UserWrites {
  import opened Memory
  import opened Layouts
  import opened Tags
  import opened Payloads
  import opened Bins
  import opened SmallBins
  import opened Tries
  import opened TreeBins
  import opened Heaps
  import opened HeapSteps
  import opened Bytes

  /** [lo, hi) lies in the payload of the live chunk p, which reaches over the next chunk's prev_foot. */
  ghost predicate InPayload(l: Layout, p: nat, lo: nat, hi: nat) {
    p in l.chunks && l.chunks[p].inuse && p + 8 <= lo && hi <= Next(l, p) + 4
  }

  lemma UserTagged(l: Layout, p: nat, lo: nat, hi: nat, m: Mem, m': Mem)
    requires Tiled(l) && Tagged(m, l) && InPayload(l, p, lo, hi) && WordsOutside(m, m', lo, hi)
    ensures Tagged(m', l)
  {
    assert FitsAt(l, p) && LinkedAt(l, p);
    forall q | q in l.chunks ensures TagAt(m', l, q) {
      assert TagAt(m, l, q) && FitsAt(l, q) && ApartAt(l, p, q) && ApartAt(l, q, p) && LinkedAt(l, q);
      UserTag(l, p, lo, hi, q);
    }
  }

  lemma UserTag(l: Layout, p: nat, lo: nat, hi: nat, q: nat)
    requires Tiled(l) && InPayload(l, p, lo, hi) && q in l.chunks
    ensures q + 8 <= lo || q + 4 >= hi
    ensures !l.chunks[q].inuse ==> Next(l, q) + 4 <= lo || Next(l, q) >= hi
  {
    assert FitsAt(l, p) && FitsAt(l, q) && ApartAt(l, p, q) && ApartAt(l, q, p);
  }

  lemma UserKeepsBins(l: Layout, lists: Lists, loose: set<nat>, sb: nat, t: Trie, p: nat, lo: nat, hi: nat, m: Mem,
          m': Mem, smallmap: bv32, treemap: bv32, roots: seq<nat>)
    requires BinsReady(l, lists, loose, sb) && InPayload(l, p, lo, hi) && WordsOutside(m, m', lo, hi)
    requires SmallReady(m, smallmap, sb, lists) && TreeReady(m, treemap, roots, sb, lists, t)
    ensures SmallReady(m', smallmap, sb, lists) && TreeReady(m', treemap, roots, sb, lists, t)
  {
    hide SmallReady, TreeReady;
    assert FitsAt(l, p) && Flying(l, loose, p);
    forall q | q in l.chunks && p <= q < Next(l, p) ensures Flying(l, loose, q) { assert ApartAt(l, p, q); }
    forall s | s in lists ensures SmallKept(sb, lists, m, m', s) {
      if s < MIN_LARGE_SIZE {
        forall k: nat | k < |SmallRing(sb, lists, s)| ensures SameAt(m, m', SmallRing(sb, lists, s)[k] + 8) {
          if k > 0 { ListedOutside(l, lists, loose, p, Next(l, p), s, k - 1); MemberFits(l, lists, loose, s, k - 1); }
        }
      }
    }
    SmallBinsFrame(m, m', smallmap, sb, lists);
    forall s, k: nat | s in lists && k < |lists[s]| ensures LargeKept(lists, m, m', s, k) {
      ListedOutside(l, lists, loose, p, Next(l, p), s, k);
    }
    TreeBinsFrame(m, m', treemap, roots, sb, lists, t);
  }

  lemma UserQuiet(l: Layout, p: nat, lo: nat, hi: nat, m: Mem, m': Mem)
    requires Tiled(l) && InPayload(l, p, lo, hi) && WordsOutside(m, m', lo, hi)
    ensures Quiet(Live(l) - {p}, m, m')
  {
    var live := Live(l) - {p};
    assert FitsAt(l, p);
    forall q | q in live ensures PayloadKept(m, m', q, live[q]) {
      assert FitsAt(l, q) && ApartAt(l, p, q) && ApartAt(l, q, p);
      forall x | q + 8 <= x < q + live[q] ensures SameAt(m, m', x) {
        assert Lo(m', x) == Lo(m, x);
      }
    }
  }

  /** A program that writes only inside live payloads cannot break the heap or another payload. */
  lemma CoreUserWrites(st: Store, sb: nat, v: View, loose: set<nat>, p: nat, lo: nat, hi: nat, m': Mem)
    requires Core(st, sb, v, loose) && InPayload(v.l, p, lo, hi) && WordsOutside(st.mem, m', lo, hi)
    ensures Core(st.(mem := m'), sb, v, loose) && Quiet(Live(v.l) - {p}, st.mem, m')
  {
    hide SmallReady, TreeReady, Tagged, WordsOutside, Quiet;
    UserTagged(v.l, p, lo, hi, st.mem, m');
    UserKeepsBins(v.l, v.lists, loose, sb, v.t, p, lo, hi, st.mem, m', st.smallmap, st.treemap, st.roots);
    UserQuiet(v.l, p, lo, hi, st.mem, m');
  }
}
