/** The tries of large sizes: one size per position, each on its own path of bits. */
module Tries {
  import opened TreeIndices
  import opened Positions

  const MIN_TREE_SIZE: nat := 256

  /** Sizes by position, positions by size, and the tree-resident chunk at each position. */
  datatype Trie = Trie(size: map<Pos, nat>, pos: map<nat, Pos>, node: Nodes)

  ghost predicate TreeSize(s: nat) {
    MIN_TREE_SIZE <= s < WORD && s % 8 == 0
  }

  /** Where the path of size s passes the level that branches on bit b. */
  function PathPos(s: nat, b: nat): Pos {
    Pos(TreeIndex(s), b, Shr(s, b + 1))
  }

  ghost predicate KeyAt(t: Trie, p: Pos)
    requires p in t.size
  {
    var s := t.size[p];
    && TreeSize(s) && s in t.pos && t.pos[s] == p
    && p == PathPos(s, p.bit) && 2 <= p.bit <= RootBit(p.bin)
    && (p.bit < RootBit(p.bin) ==> Up(p) in t.size)
  }

  ghost predicate SizeAt(t: Trie, s: nat)
    requires s in t.pos
  {
    t.pos[s] in t.size && t.size[t.pos[s]] == s
  }

  /** Sizes sit on their own bit paths, every position below a root has its parent, and no size
      occurs twice. */
  ghost predicate TrieOK(t: Trie) {
    && (forall p {:trigger KeyAt(t, p)} :: p in t.size ==> KeyAt(t, p))
    && (forall s {:trigger SizeAt(t, s)} :: s in t.pos ==> SizeAt(t, s))
    && t.node.Keys == t.size.Keys
  }

  lemma PathUp(s: nat, b: nat)
    ensures Up(PathPos(s, b)) == PathPos(s, b + 1)
    ensures b > 0 ==> PathPos(s, b - 1) == Down(PathPos(s, b), Shr(s, b) % 2)
  {
    ShrNext(s, b + 1);
    ShrNext(s, b);
  }

  lemma PathRoot(s: nat)
    requires TreeSize(s)
    ensures TreeIndex(s) < NTREEBINS && PathPos(s, RootBit(TreeIndex(s))) == Root(TreeIndex(s))
  {
    RootPrefixOf(s);
  }

  /** The path from a stored size up to its root is fully occupied. */
  lemma {:induction false} PathOccupied(t: Trie, s: nat, b: nat)
    requires TrieOK(t) && s in t.pos && t.pos[s].bit <= b <= RootBit(TreeIndex(s))
    ensures PathPos(s, b) in t.size
    decreases b
  {
    assert SizeAt(t, s) && KeyAt(t, t.pos[s]);
    if t.pos[s].bit < b {
      PathOccupied(t, s, b - 1);
      assert KeyAt(t, PathPos(s, b - 1));
      PathUp(s, b - 1);
    }
  }

  /** Two sizes that share the position branching on bit 2 are equal: chunk sizes are multiples of 8. */
  lemma PathsMerge(s: nat, r: nat, b: nat)
    requires s % 8 == 0 && r % 8 == 0 && b <= 2 && Shr(s, b + 1) == Shr(r, b + 1)
    ensures s == r
  {
    ShrThree(s);
    ShrThree(r);
    ShrShr(s, b + 1, 2 - b);
    ShrShr(r, b + 1, 2 - b);
  }

  /** The search for s stands at p: on s's path, with no s above. */
  ghost predicate Descending(t: Trie, s: nat, p: Pos) {
    && p in t.size && p == PathPos(s, p.bit)
    && forall b: nat {:trigger PathPos(s, b)} ::
        p.bit < b <= RootBit(p.bin) && PathPos(s, b) in t.size ==> t.size[PathPos(s, b)] != s
  }

  lemma DescendStart(t: Trie, s: nat)
    requires TrieOK(t) && TreeSize(s) && Root(TreeIndex(s)) in t.size
    ensures Descending(t, s, Root(TreeIndex(s)))
  {
    PathRoot(s);
  }

  lemma DescendStep(t: Trie, s: nat, p: Pos)
    requires TrieOK(t) && TreeSize(s) && Descending(t, s, p) && t.size[p] != s
    ensures p.bit >= 3 && PathPos(s, p.bit - 1) == Down(p, Shr(s, p.bit) % 2)
    ensures PathPos(s, p.bit - 1) in t.size ==> Descending(t, s, PathPos(s, p.bit - 1))
    ensures PathPos(s, p.bit - 1) !in t.size ==> s !in t.pos
  {
    assert KeyAt(t, p);
    if p.bit <= 2 { PathsMerge(s, t.size[p], p.bit); }
    PathUp(s, p.bit);
    if s in t.pos {
      assert SizeAt(t, s) && KeyAt(t, t.pos[s]);
      assert t.pos[s] == PathPos(s, t.pos[s].bit);
      if t.pos[s].bit < p.bit { PathOccupied(t, s, p.bit - 1); }
    }
  }

  lemma RootFree(t: Trie, s: nat)
    requires TrieOK(t) && TreeSize(s) && Root(TreeIndex(s)) !in t.size
    ensures s !in t.pos
  {
    PathRoot(s);
    if s in t.pos {
      assert SizeAt(t, s) && KeyAt(t, t.pos[s]);
      PathOccupied(t, s, RootBit(TreeIndex(s)));
    }
  }

  ghost function AddSize(t: Trie, s: nat, p: Pos, x: nat): Trie {
    Trie(t.size[p := s], t.pos[s := p], t.node[p := x])
  }

  lemma SizeAdded(t: Trie, s: nat, b: nat, x: nat)
    requires TrieOK(t) && TreeSize(s) && s !in t.pos && PathPos(s, b) !in t.size
    requires 2 <= b <= RootBit(TreeIndex(s)) && (b < RootBit(TreeIndex(s)) ==> PathPos(s, b + 1) in t.size)
    ensures TrieOK(AddSize(t, s, PathPos(s, b), x))
  {
    var n, q := AddSize(t, s, PathPos(s, b), x), PathPos(s, b);
    PathUp(s, b);
    forall p | p in n.size ensures KeyAt(n, p) { if p != q { assert KeyAt(t, p); } }
    forall r | r in n.pos ensures SizeAt(n, r) { if r != s { assert SizeAt(t, r); } }
  }

  ghost function RemoveSize(t: Trie, p: Pos): Trie
    requires p in t.size
  {
    Trie(t.size - {p}, t.pos - {t.size[p]}, t.node - {p})
  }

  ghost predicate TrieLeaf(t: Trie, q: Pos)
    requires q.bit > 0
  {
    Down(q, 0) !in t.size && Down(q, 1) !in t.size
  }

  lemma SizeRemoved(t: Trie, q: Pos)
    requires TrieOK(t) && q in t.size && q.bit > 0 && TrieLeaf(t, q)
    ensures TrieOK(RemoveSize(t, q))
  {
    var n := RemoveSize(t, q);
    assert KeyAt(t, q);
    forall p | p in n.size ensures KeyAt(n, p) { assert KeyAt(t, p); UpDown(q, p); }
    forall r | r in n.pos ensures SizeAt(n, r) { assert SizeAt(t, r); }
  }

  /** q is p or lies below it. */
  ghost predicate Under(p: Pos, q: Pos) {
    q.bin == p.bin && q.bit <= p.bit && Shr(q.prefix, p.bit - q.bit) == p.prefix
  }

  lemma UnderPath(t: Trie, p: Pos, q: Pos)
    requires TrieOK(t) && q in t.size && Under(p, q)
    ensures p == PathPos(t.size[q], p.bit)
  {
    assert KeyAt(t, q);
    ShrShr(t.size[q], q.bit + 1, p.bit - q.bit);
  }

  lemma UnderDown(p: Pos, q: Pos, k: nat)
    requires Under(p, q) && q.bit > 0 && k < 2
    ensures Under(p, Down(q, k))
  {
  }

  /** Give the size of leaf q, and its chunk, the position p above it. */
  ghost function HoistSize(t: Trie, p: Pos, q: Pos): Trie
    requires p in t.size && q in t.size && q in t.node
  {
    Trie((t.size - {q})[p := t.size[q]], (t.pos - {t.size[p]})[t.size[q] := p], (t.node - {q})[p := t.node[q]])
  }

  lemma SizeHoisted(t: Trie, p: Pos, q: Pos)
    requires TrieOK(t) && p in t.size && q in t.size && p != q && Under(p, q) && q.bit > 0 && TrieLeaf(t, q)
    ensures TrieOK(HoistSize(t, p, q))
  {
    var n := HoistSize(t, p, q);
    assert KeyAt(t, p) && KeyAt(t, q);
    UnderPath(t, p, q);
    forall r | r in n.size ensures KeyAt(n, r) { assert KeyAt(t, r); UpDown(q, r); }
    forall s | s in n.pos ensures SizeAt(n, s) { assert SizeAt(t, s); }
  }

  // searching

  /** The chunk of size s sits at p or below it. */
  ghost predicate Located(t: Trie, p: Pos, s: nat) {
    s in t.pos && Under(p, t.pos[s])
  }

  lemma LocatedPath(t: Trie, p: Pos, s: nat)
    requires TrieOK(t) && Located(t, p, s)
    ensures p == PathPos(s, p.bit) && TreeSize(s)
  {
    assert SizeAt(t, s);
    UnderPath(t, p, t.pos[s]);
    assert KeyAt(t, t.pos[s]);
  }

  lemma LocatedSelf(t: Trie, p: Pos)
    requires TrieOK(t) && p in t.size
    ensures Located(t, p, t.size[p])
  {
    assert KeyAt(t, p) && Shr(p.prefix, 0) == p.prefix;
  }

  /** Everything below p other than p's own size is below an occupied child. */
  lemma LocatedBelow(t: Trie, p: Pos, s: nat)
    requires TrieOK(t) && p in t.size && Located(t, p, s) && s != t.size[p]
    ensures p.bit > 0
    ensures var q := Down(p, Shr(s, p.bit) % 2); q in t.size && Located(t, q, s)
  {
    LocatedPath(t, p, s);
    assert SizeAt(t, s) && KeyAt(t, p) && KeyAt(t, t.pos[s]);
    var r := t.pos[s];
    assert Shr(r.prefix, 0) == r.prefix;
    PathOccupied(t, s, p.bit - 1);
    PathUp(s, p.bit);
    ShrShr(s, r.bit + 1, p.bit - 1 - r.bit);
  }

  /** What lies below a position whose sizes start with more than n's bits is bigger than n. */
  lemma LocatedAbove(t: Trie, p: Pos, s: nat, n: nat)
    requires TrieOK(t) && Located(t, p, s)
    ensures Shr(n, p.bit + 1) < p.prefix ==> n < s
    ensures p.prefix < Shr(n, p.bit + 1) ==> s < n
  {
    LocatedPath(t, p, s);
    if s <= n { ShrMonotone(s, n, p.bit + 1); }
    if n <= s { ShrMonotone(n, s, p.bit + 1); }
  }

  /** Left of a sibling means smaller. */
  lemma LeftIsSmaller(t: Trie, p: Pos, r: nat, s: nat)
    requires TrieOK(t) && p.bit > 0 && Located(t, Down(p, 0), r) && Located(t, Down(p, 1), s)
    ensures r < s
  {
    LocatedPath(t, Down(p, 0), r);
    LocatedAbove(t, Down(p, 1), s, r);
  }
}
