/** Free lists: every free chunk outside the loose set is listed exactly once, under its size. */
module Bins {
  import opened Layouts
  import opened Rings

  /** Chunk size to the chunks of that size, oldest first (bk order). */
  type Lists = map<nat, seq<nat>>

  ghost predicate MemberAt(l: Layout, lists: Lists, loose: set<nat>, s: nat, k: nat)
    requires s in lists && k < |lists[s]|
  {
    var x := lists[s][k];
    x in l.chunks && !l.chunks[x].inuse && l.chunks[x].size == s && x !in loose
  }

  ghost predicate FoundAt(l: Layout, lists: Lists, loose: set<nat>, p: nat)
    requires p in l.chunks
  {
    && (!l.chunks[p].inuse && p !in loose ==> l.chunks[p].size in lists && p in lists[l.chunks[p].size])
    && (Next(l, p) == l.end ==> p in loose)
  }

  ghost predicate LooseAt(l: Layout, p: nat) {
    p in l.chunks && !l.chunks[p].inuse
  }

  /** The free chunks are the listed ones and the loose ones (top, dv, and those in flight). */
  ghost predicate Binned(l: Layout, lists: Lists, loose: set<nat>) {
    && (forall s {:trigger s in lists} {:trigger lists[s]} :: s in lists ==> |lists[s]| > 0 && Distinct(lists[s]))
    && (forall s, k: nat {:trigger MemberAt(l, lists, loose, s, k)} ::
         s in lists && k < |lists[s]| ==> MemberAt(l, lists, loose, s, k))
    && (forall p {:trigger FoundAt(l, lists, loose, p)} :: p in l.chunks ==> FoundAt(l, lists, loose, p))
    && (forall p {:trigger LooseAt(l, p)} :: p in loose ==> LooseAt(l, p))
  }

  ghost function With(lists: Lists, s: nat, x: nat): Lists {
    lists[s := (if s in lists then lists[s] else []) + [x]]
  }

  ghost function Without(lists: Lists, s: nat, k: nat): Lists
    requires s in lists && k < |lists[s]|
  {
    if |lists[s]| == 1 then lists - {s} else lists[s := Drop(lists[s], k)]
  }

  /** A listed chunk sits somewhere in its list. */
  lemma Find(l: Layout, lists: Lists, loose: set<nat>, p: nat) returns (k: nat)
    requires Binned(l, lists, loose) && p in l.chunks && !l.chunks[p].inuse && p !in loose
    ensures l.chunks[p].size in lists && k < |lists[l.chunks[p].size]| && lists[l.chunks[p].size][k] == p
  {
    assert FoundAt(l, lists, loose, p);
    k :| 0 <= k < |lists[l.chunks[p].size]| && lists[l.chunks[p].size][k] == p;
  }

  lemma MemberFits(l: Layout, lists: Lists, loose: set<nat>, s: nat, k: nat)
    requires Tiled(l) && Binned(l, lists, loose) && s in lists && k < |lists[s]|
    ensures MemberAt(l, lists, loose, s, k) && FitsAt(l, lists[s][k]) && s >= 16 && s % 8 == 0
    ensures l.first <= lists[s][k] && Next(l, lists[s][k]) != l.end
  {
    assert MemberAt(l, lists, loose, s, k);
    assert FitsAt(l, lists[s][k]) && FoundAt(l, lists, loose, lists[s][k]);
  }

  lemma NotListed(l: Layout, lists: Lists, loose: set<nat>, s: nat, p: nat)
    requires Binned(l, lists, loose) && p in loose && s in lists
    ensures p !in lists[s]
  {
    forall k: nat | k < |lists[s]| ensures lists[s][k] != p {
      assert MemberAt(l, lists, loose, s, k);
    }
  }

  lemma BinnedWith(l: Layout, lists: Lists, loose: set<nat>, p: nat)
    requires Binned(l, lists, loose) && p in loose && p in l.chunks && Next(l, p) != l.end
    ensures Binned(l, With(lists, l.chunks[p].size, p), loose - {p})
  {
    var s, r, n := l.chunks[p].size, With(lists, l.chunks[p].size, p), loose - {p};
    assert LooseAt(l, p);
    if s in lists { NotListed(l, lists, loose, s, p); }
    forall t, k: nat | t in r && k < |r[t]| ensures MemberAt(l, r, n, t, k) {
      if t in lists && k < |lists[t]| { assert MemberAt(l, lists, loose, t, k); }
    }
    forall q | q in l.chunks ensures FoundAt(l, r, n, q) {
      assert FoundAt(l, lists, loose, q);
    }
    forall q | q in n ensures LooseAt(l, q) { assert q in loose; }
  }

  lemma BinnedWithout(l: Layout, lists: Lists, loose: set<nat>, p: nat, k: nat)
    requires Binned(l, lists, loose) && p in l.chunks && l.chunks[p].size in lists
    requires k < |lists[l.chunks[p].size]| && lists[l.chunks[p].size][k] == p
    ensures Binned(l, Without(lists, l.chunks[p].size, k), loose + {p})
  {
    var s, r, n := l.chunks[p].size, Without(lists, l.chunks[p].size, k), loose + {p};
    assert MemberAt(l, lists, loose, s, k);
    forall t, j: nat | t in r && j < |r[t]| ensures MemberAt(l, r, n, t, j) {
      var i := if t == s && k <= j then j + 1 else j;
      assert MemberAt(l, lists, loose, t, i);
    }
    forall q | q in l.chunks ensures FoundAt(l, r, n, q) {
      assert FoundAt(l, lists, loose, q);
      if !l.chunks[q].inuse && q !in n && l.chunks[q].size == s { DropKeeps(lists[s], k, q); }
    }
    forall q | q in n ensures LooseAt(l, q) { if q != p { assert LooseAt(l, q); } }
  }

  lemma DropKeeps(r: seq<nat>, k: nat, q: nat)
    requires k < |r| && q in r && q != r[k]
    ensures |r| > 1 && q in Drop(r, k)
  {
    var i :| 0 <= i < |r| && r[i] == q;
    assert Drop(r, k)[if i < k then i else i - 1] == q;
  }
}
