/** How deep the tries of malloc.c get: the bound on their depth, and tries that attain it. */
module Depths {
  import opened Powers
  import opened TreeIndices
  import opened Positions
  import opened Tries

  /** How many nodes lie on the path from the root down to p. */
  function Depth(p: Pos): int { RootBit(p.bin) - p.bit + 1 }

  /** One node for each bit from the root's down to bit 3, and one more: 5 to 20 nodes, but 30 in the last bin, which
      branches from bit 31.  (The figure "6 up to 21" of the comment on the worst case leaves the last bin out.) */
  function MaxDepth(i: nat): int {
    if i == NTREEBINS - 1 then 30 else i / 2 + 5
  }

  /** No path is longer. */
  lemma DepthBound(t: Trie, s: nat)
    requires TrieOK(t) && s in t.pos
    ensures 1 <= Depth(t.pos[s]) <= MaxDepth(TreeIndex(s))
  {
    assert SizeAt(t, s) && KeyAt(t, t.pos[s]);
    IndexBound(s);
  }

  // a path as long

  /** Where the sizes of bin i end. */
  function Ceiling(i: nat): nat {
    if i == NTREEBINS - 1 then WORD else MinSize(i + 1)
  }

  /** The largest size of bin i differs from this one in bit b alone. */
  function Rung(i: nat, b: nat): int {
    Ceiling(i) - 8 - (if b <= 2 then 0 else Pow2(b))
  }

  lemma {:induction false} CeilingMultiple(i: nat, b: nat) returns (k: nat)
    requires i < NTREEBINS && b <= RootBit(i)
    ensures Ceiling(i) == k * Pow2(b + 1) && k > 0
    decreases RootBit(i) - b
  {
    if b < RootBit(i) {
      var h := CeilingMultiple(i, b + 1);
      k := 2 * h;
      TwiceAsMany(h, Pow2(b + 1));
    } else if i == NTREEBINS - 1 {
      k := 1;
      WordPowers();
    } else {
      k := if i % 2 == 0 then 3 else 4;
      CeilingPowers(i);
    }
  }

  lemma TwiceAsMany(h: nat, p: nat)
    ensures h * (2 * p) == 2 * h * p
  {
  }

  /** Ceilings, and the smallest sizes, in units of the power of two above the root's bit. */
  lemma CeilingPowers(i: nat)
    requires i < NTREEBINS - 1
    ensures var p := Pow2(i / 2 + 7);
      Ceiling(i) == (if i % 2 == 0 then 3 * p else 4 * p) && MinSize(i) == Ceiling(i) - p
  {
    var h := i / 2;
    assert Pow2(h + 8) == 2 * Pow2(h + 7) && Pow2(h + 9) == 2 * Pow2(h + 8);
    assert if i % 2 == 0 then (i + 1) / 2 == h && (i + 1) % 2 == 1 else (i + 1) / 2 == h + 1 && (i + 1) % 2 == 0;
  }

  lemma PowerEights(b: nat)
    requires b >= 3
    ensures Pow2(b) % 8 == 0 && Pow2(b) >= 8
  {
    Pow2Grows(0, b - 3);
    assert Pow2(b) == 2 * Pow2(b - 1) && Pow2(b - 1) == 2 * Pow2(b - 2) && Pow2(b - 2) == 2 * Pow2(b - 3);
  }

  /** Every rung is a size of bin i. */
  lemma RungSize(i: nat, b: nat)
    requires i < NTREEBINS && 2 <= b <= RootBit(i)
    ensures Rung(i, b) >= 0 && TreeSize(Rung(i, b)) && TreeIndex(Rung(i, b)) == i
  {
    hide Pow2, MinSize, TreeIndex, Ceiling;
    CeilingEights(i);
    if b > 2 { PowerEights(b); }
    Pow2Grows(b, RootBit(i));
    RungBounds(i, b);
    MinSizes(i);
    RungIndex(i, b);
  }

  lemma CeilingEights(i: nat)
    requires i < NTREEBINS
    ensures Ceiling(i) % 8 == 0
  {
    hide Ceiling;
    var k := CeilingMultiple(i, 2);
    assert Pow2(3) == 8;
  }

  lemma RungIndex(i: nat, b: nat)
    requires i < NTREEBINS && 256 <= MinSize(i) <= Rung(i, b) < Ceiling(i) <= WORD
    ensures TreeIndex(Rung(i, b)) == i
  {
    hide TreeIndex, MinSize, Rung;
    IndexRange(Rung(i, b), i);
  }

  lemma RungBounds(i: nat, b: nat)
    requires i < NTREEBINS && 2 <= b <= RootBit(i) && (b > 2 ==> Pow2(b) <= Pow2(RootBit(i)))
    ensures MinSize(i) <= Rung(i, b) < Ceiling(i) <= WORD
  {
    hide Pow2, MinSize, Ceiling;
    LastMinSize();
    if i == NTREEBINS - 1 {
      LastCeiling();
    } else {
      CeilingPowers(i);
      PowerEights(i / 2 + 6);
      NextPower(i / 2 + 6);
      Pow2Grows(i / 2 + 7, 22);
    }
  }

  lemma LastCeiling()
    ensures Ceiling(NTREEBINS - 1) == WORD == 2 * Pow2(31)
  {
    WordPowers();
  }

  lemma NextPower(n: nat)
    ensures Pow2(n + 1) == 2 * Pow2(n)
  {
  }

  lemma LastMinSize()
    ensures Pow2(22) == 0x40_0000 && MinSize(NTREEBINS - 1) == 0xC0_0000
  {
    assert Pow2(8) == 0x100 && Pow2(16) == 0x1_0000 && Pow2(22) == 0x40_0000;
  }

  lemma FirstMinSize()
    ensures MinSize(0) == 256
  {
    assert Pow2(8) == 0x100;
  }

  lemma MinSizes(i: nat)
    ensures MinSize(i) >= 256
  {
    FirstMinSize();
    Pow2Grows(8, i / 2 + 8);
  }

  /** ... and shares the bits above b with the largest. */
  lemma RungPath(i: nat, b: nat)
    requires i < NTREEBINS && 2 <= b <= RootBit(i) && Rung(i, b) >= 0 && Rung(i, 2) >= 0
    ensures Shr(Rung(i, b), b + 1) == Shr(Rung(i, 2), b + 1)
  {
    hide Ceiling, Shr;
    var k := CeilingMultiple(i, b);
    if b > 2 {
      PowerEights(b);
      assert Pow2(b + 1) == 2 * Pow2(b);
      BelowMultiple(Rung(i, b), b + 1, k, 8 + Pow2(b));
      BelowMultiple(Rung(i, 2), b + 1, k, 8);
    }
  }

  lemma BelowMultiple(x: nat, n: nat, k: nat, d: nat)
    requires k > 0 && x + d == k * Pow2(n) && 0 < d <= Pow2(n)
    ensures Shr(x, n) == k - 1
  {
    hide Pow2, Shr;
    var p := Pow2(n);
    OneLess(k, p);
    ShrAtLeast(x, n, k - 1);
    ShrAtLeast(x, n, k);
  }

  lemma OneLess(k: nat, p: nat)
    requires k > 0
    ensures (k - 1) * p == k * p - p
  {
  }

  /** The ladder's path: that of the largest size of bin i. */
  function RungPos(i: nat, b: nat): Pos
    requires Rung(i, 2) >= 0
  {
    PathPos(Rung(i, 2), b)
  }

  /** The trie of the rungs from the root's bit down to b. */
  ghost predicate Ladder(t: Trie, i: nat, b: nat)
    requires i < NTREEBINS && Rung(i, 2) >= 0
  {
    && TrieOK(t)
    && (forall s {:trigger s in t.pos} :: s in t.pos ==> s + Pow2(b) <= Ceiling(i) - 8)
    && (forall p {:trigger p in t.size} :: p in t.size ==> p.bit >= b)
    && (b <= RootBit(i) ==> RungPos(i, b) in t.size)
  }

  lemma {:induction false} LadderBuilt(i: nat, b: nat) returns (t: Trie)
    requires i < NTREEBINS && 3 <= b <= RootBit(i) + 1 && Rung(i, 2) >= 0
    ensures Ladder(t, i, b)
    decreases RootBit(i) + 1 - b
  {
    if b == RootBit(i) + 1 {
      t := Trie(map[], map[], map[]);
    } else {
      var u := LadderBuilt(i, b + 1);
      t := NextRung(u, i, b);
    }
  }

  lemma NextRung(u: Trie, i: nat, b: nat) returns (t: Trie)
    requires i < NTREEBINS && 3 <= b <= RootBit(i) && Rung(i, 2) >= 0 && Ladder(u, i, b + 1)
    ensures Ladder(t, i, b)
  {
    RungSize(i, 2);
    RungSize(i, b);
    RungPath(i, b);
    var s := Rung(i, b);
    ShrNext(s, b + 1);
    ShrNext(Rung(i, 2), b + 1);
    Pow2Grows(0, b);
    SizeAdded(u, s, b, 1);
    t := AddSize(u, s, RungPos(i, b), 1);
  }

  /** In every bin some trie has a path as long as the bound allows. */
  lemma DepthAttained(i: nat) returns (t: Trie, s: nat)
    requires i < NTREEBINS
    ensures TrieOK(t) && s in t.pos && TreeIndex(s) == i && Depth(t.pos[s]) == MaxDepth(i)
  {
    RungSize(i, 2);
    var u := LadderBuilt(i, 3);
    s := Rung(i, 2);
    ShrNext(s, 3);
    assert Pow2(3) == 8;
    SizeAdded(u, s, 2, 1);
    t := AddSize(u, s, PathPos(s, 2), 1);
  }
}
