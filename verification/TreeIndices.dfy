/** Bin index arithmetic for large chunks: which tree a size belongs to and which of its bits steer there. */
module TreeIndices {
  import opened Powers

  const NTREEBINS: nat := 32
  const WORD: nat := 0x1_0000_0000

  /** x shifted right by n places. */
  function Shr(x: nat, n: nat): nat {
    if n == 0 then x else Shr(x / 2, n - 1)
  }

  /** x shifted left by n places in 32 bits. */
  function Shl(x: nat, n: nat): nat {
    if n == 0 then x % WORD else Shl(x, n - 1) * 2 % WORD
  }

  lemma {:induction false} ShrNext(x: nat, n: nat)
    ensures Shr(x, n + 1) == Shr(x, n) / 2
  {
    if n > 0 { ShrNext(x / 2, n - 1); }
  }

  lemma {:induction false} ShrShr(x: nat, a: nat, b: nat)
    ensures Shr(Shr(x, a), b) == Shr(x, a + b)
  {
    if a > 0 { ShrShr(x / 2, a - 1, b); }
  }

  lemma {:induction false} ShrMonotone(x: nat, y: nat, n: nat)
    requires x <= y
    ensures Shr(x, n) <= Shr(y, n)
  {
    if n > 0 { ShrMonotone(x / 2, y / 2, n - 1); }
  }

  lemma {:induction false} ShrAtLeast(x: nat, n: nat, v: nat)
    ensures v <= Shr(x, n) <==> v * Pow2(n) <= x
  {
    if n > 0 {
      ShrAtLeast(x / 2, n - 1, v);
      TwiceOver(v, Pow2(n - 1));
      TwiceBelow(v * Pow2(n - 1), x);
    }
  }

  lemma TwiceOver(v: nat, p: nat)
    ensures v * (2 * p) == 2 * (v * p)
  {
  }

  lemma TwiceBelow(q: nat, x: nat)
    ensures q <= x / 2 <==> 2 * q <= x
  {
  }

  lemma ShrThree(x: nat)
    ensures Shr(x, 3) == x / 8
  {
    assert Shr(x, 3) == Shr(x / 2, 2) == Shr(x / 2 / 2, 1) == x / 2 / 2 / 2;
  }

  /** 31 - __builtin_clz(x). */
  function Log2(x: nat): nat
    requires x > 0
  {
    if x == 1 then 0 else 1 + Log2(x / 2)
  }

  lemma {:induction false} Log2Leading(x: nat)
    requires x > 0
    ensures Shr(x, Log2(x)) == 1
  {
    if x > 1 { Log2Leading(x / 2); }
  }

  lemma {:induction false} Log2Unique(x: nat, k: nat)
    requires x > 0 && Shr(x, k) == 1
    ensures Log2(x) == k
  {
    if k > 0 {
      if x == 1 { ShrMonotone(0, 0, k - 1); ShrOfZero(k - 1); }
      Log2Unique(x / 2, k - 1);
    } else {
      assert x == 1;
    }
  }

  lemma {:induction false} ShrOfZero(n: nat)
    ensures Shr(0, n) == 0
  {
    if n > 0 { ShrOfZero(n - 1); }
  }

  lemma {:induction false} Log2Monotone(x: nat, y: nat)
    requires 0 < x <= y
    ensures Log2(x) <= Log2(y)
  {
    if x > 1 { Log2Monotone(x / 2, y / 2); }
  }

  /** compute_tree_index. */
  function TreeIndex(size: nat): nat {
    var x := Shr(size, 8);
    if x == 0 then 0
    else if x > 0xFFFF then NTREEBINS - 1
    else 2 * Log2(x) + Shr(size, Log2(x) + 7) % 2
  }

  /** bit_for_tree_index: the bit that the root of bin i branches on. */
  function RootBit(i: nat): nat {
    if i == NTREEBINS - 1 then 31 else i / 2 + 6
  }

  /** What lies above the root's bit, for every size in bin i. */
  function RootPrefix(i: nat): nat {
    if i == NTREEBINS - 1 then 0 else 2 + i % 2
  }

  /** minsize_for_tree_index. */
  function MinSize(i: nat): nat {
    Pow2(i / 2 + 8) + i % 2 * Pow2(i / 2 + 7)
  }

  lemma SmallLog(x: nat)
    requires 0 < x <= 0xFFFF
    ensures Log2(x) <= 15
  {
    Log2Monotone(x, 0xFFFF);
    assert Log2(0xFFFF) == 15;
  }

  /** Within bins 0 to 30 the two bits above the root's bit are fixed. */
  lemma LeadingBits(size: nat)
    requires 0 < Shr(size, 8) <= 0xFFFF
    ensures var k := Log2(Shr(size, 8));
      && k <= 15 && Shr(size, k + 8) == 1
      && Shr(size, k + 7) == 2 + Shr(size, k + 7) % 2
  {
    var k := Log2(Shr(size, 8));
    SmallLog(Shr(size, 8));
    Log2Leading(Shr(size, 8));
    ShrShr(size, 8, k);
    ShrNext(size, k + 7);
  }

  lemma IndexBound(size: nat)
    ensures TreeIndex(size) < NTREEBINS
  {
    if 0 < Shr(size, 8) <= 0xFFFF { LeadingBits(size); }
  }

  lemma RootPrefixOf(size: nat)
    requires 256 <= size < WORD
    ensures TreeIndex(size) < NTREEBINS
    ensures Shr(size, RootBit(TreeIndex(size)) + 1) == RootPrefix(TreeIndex(size))
  {
    IndexBound(size);
    ShrMonotone(256, size, 8);
    assert Shr(256, 8) == 1;
    if Shr(size, 8) <= 0xFFFF { LeadingBits(size); }
    if TreeIndex(size) == NTREEBINS - 1 {
      WordPowers();
      ShrAtLeast(size, 32, 1);
    }
  }

  /** Bigger sizes never have a smaller index. */
  lemma IndexMonotone(x: nat, y: nat)
    requires x <= y
    ensures TreeIndex(x) <= TreeIndex(y)
  {
    ShrMonotone(x, y, 8);
    IndexBound(x);
    if 0 < Shr(x, 8) && Shr(y, 8) <= 0xFFFF {
      LeadingBits(x);
      LeadingBits(y);
      Log2Monotone(Shr(x, 8), Shr(y, 8));
      ShrMonotone(x, y, Log2(Shr(x, 8)) + 7);
    }
  }

  /** Bin i holds exactly the sizes from minsize(i) up to minsize(i + 1). */
  lemma IndexRange(size: nat, i: nat)
    requires 256 <= size < WORD && i < NTREEBINS
    ensures TreeIndex(size) == i ==> MinSize(i) <= size && (i < NTREEBINS - 1 ==> size < MinSize(i + 1))
    ensures MinSize(i) <= size && (i < NTREEBINS - 1 ==> size < MinSize(i + 1)) ==> TreeIndex(size) == i
  {
    RootPrefixOf(size);
    if TreeIndex(size) >= i { IndexAtLeast(size, i); }
    else { IndexAtLeast(size, i); }
    if i + 1 < NTREEBINS { IndexAtLeast(size, i + 1); }
  }

  lemma MinSizeForm(i: nat)
    ensures MinSize(i) == (2 + i % 2) * Pow2(i / 2 + 7)
  {
    assert Pow2(i / 2 + 8) == 2 * Pow2(i / 2 + 7);
  }

  lemma ShrOf256()
    ensures Shr(256, 8) == 1
  {
  }

  lemma IndexAtLeast(size: nat, i: nat)
    requires 256 <= size < WORD && i < NTREEBINS
    ensures i <= TreeIndex(size) <==> MinSize(i) <= size
  {
    hide Pow2, Shr, Log2, MinSize;
    var k := i / 2;
    MinSizeForm(i);
    ShrAtLeast(size, k + 7, 2 + i % 2);
    assert MinSize(i) <= size <==> 2 + i % 2 <= Shr(size, k + 7);
    ShrMonotone(256, size, 8);
    ShrOf256();
    ShrShr(size, 8, k);
    ShrNext(size, k + 7);
    if Shr(size, 8) <= 0xFFFF {
      LeadingBits(size);
      var j := Log2(Shr(size, 8));
      if j < k { ShrPast(size, j + 8, k + 8); }
      if k < j { ShrBefore(size, k + 8, j + 8); }
    } else {
      ShrMonotone(0x10000, Shr(size, 8), k);
      ShrAtLeast(0x10000, k, 2);
      PowSmall(k);
      ShrShr(size, 8, k);
    }
  }

  lemma ShrPast(x: nat, a: nat, b: nat)
    requires a < b && Shr(x, a) == 1
    ensures Shr(x, b) == 0
  {
    ShrShr(x, a, b - a);
    assert Shr(1, b - a) == Shr(0, b - a - 1);
    ShrOfZero(b - a - 1);
  }

  lemma {:induction false} ShrBefore(x: nat, a: nat, b: nat)
    requires a < b && Shr(x, b) == 1
    ensures Shr(x, a) >= 2
    decreases b - a
  {
    ShrNext(x, b - 1);
    if a + 1 < b { ShrBeforeAny(x, a, b - 1); }
  }

  lemma {:induction false} ShrBeforeAny(x: nat, a: nat, b: nat)
    requires a <= b
    ensures Shr(x, a) >= Shr(x, b)
    decreases b - a
  {
    if a < b { ShrNext(x, a); ShrBeforeAny(x, a + 1, b); }
  }

  lemma {:induction false} PowSmall(k: nat)
    requires k <= 15
    ensures 2 * Pow2(k) <= 0x10000
    decreases 15 - k
  {
    if k < 15 { PowSmall(k + 1); } else { assert Pow2(15) == 0x8000; }
  }

  // the key that insert_large_chunk and tmalloc_large shift left one bit per level

  lemma {:induction false} AddHigh(y: nat, n: nat, k: nat)
    requires k < n
    ensures Shr(y + Pow2(n), k) % 2 == Shr(y, k) % 2
  {
    if k > 0 {
      assert (y + Pow2(n)) / 2 == y / 2 + Pow2(n - 1);
      AddHigh(y / 2, n - 1, k - 1);
    }
  }

  lemma DoubledWord(x: nat, y: nat)
    requires x < WORD && y == if x < 0x8000_0000 then x else x - 0x8000_0000
    ensures x * 2 % WORD == 2 * y && 2 * y / 2 == y
  {
  }

  lemma DoubleBits(x: nat, j: nat)
    requires x < WORD && 1 <= j <= 31
    ensures Shr(x * 2 % WORD, j) % 2 == Shr(x, j - 1) % 2
  {
    WordPowers();
    var y := if x < 0x8000_0000 then x else x - 0x8000_0000;
    DoubledWord(x, y);
    if x >= 0x8000_0000 { AddHigh(y, 31, j - 1); }
  }

  lemma {:induction false} ShlBits(x: nat, n: nat, j: nat)
    requires x < WORD && n <= j <= 31
    ensures Shl(x, n) < WORD
    ensures Shr(Shl(x, n), j) % 2 == Shr(x, j - n) % 2
  {
    if n > 0 {
      ShlBits(x, n - 1, j - 1);
      DoubleBits(Shl(x, n - 1), j);
    }
  }

  /** After n shifts the sign bit of the key is bit 31 - n of the size. */
  lemma KeyBit(x: nat, n: nat)
    requires x < WORD && n <= 31
    ensures Shl(x, n) < WORD && Shl(x, n) / 0x8000_0000 == Shr(x, 31 - n) % 2
  {
    ShlBits(x, n, 31);
    var y := Shl(x, n);
    ShrIsDivision(y);
  }

  lemma ShrIsDivision(y: nat)
    requires y < WORD
    ensures Shr(y, 31) == y / 0x8000_0000 < 2
  {
    WordPowers();
    ShrAtLeast(y, 31, 1);
    ShrAtLeast(y, 31, 2);
  }
}
