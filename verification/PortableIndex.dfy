/** compute_tree_index and compute_bit2idx have a portable form of shifts and masks beside the builtin that wasm
    uses.  Both forms agree on every machine word. */
module PortableIndex {
  import opened BinMaps
  import opened Powers
  import opened TreeIndices

  /** One step of the portable form: the shift that brings the leading bit of y up. */
  function Step(y: bv32, bias: bv32, mask: bv32): bv32 {
    ((y - bias) >> 16) & mask
  }

  /** K of the portable compute_tree_index, from X. */
  function PortableLog(x: bv32): bv32 {
    var n := Step(x, 0x100, 8);
    var y1 := x << n;
    var k1 := Step(y1, 0x1000, 4);
    var y2 := y1 << k1;
    var k2 := Step(y2, 0x4000, 2);
    14 - (n + k1 + k2) + ((y2 << k2) >> 15)
  }

  /** compute_tree_index without builtins. */
  function PortableTreeIndex(s: bv32): bv32 {
    var x := s >> 8;
    if x == 0 then 0
    else if x > 0xFFFF then 31
    else
      var k := PortableLog(x);
      DoubledPlus(k, LowBit(ShiftRight(s, Clip(k + 7))))
  }

  function DoubledPlus(k: bv32, b: bv32): bv32 { (k << 1) + b }

  function LowBit(x: bv32): bv32 { x & 1 }

  /** The shift count as the processor takes it: its low five bits. */
  function Clip(k: bv32): (r: bv32)
    ensures r < 32
  {
    k & 31
  }

  // words as numbers

  function Upper(x: bv32): bv31 { (x >> 1) as bv31 }

  function Lowest(x: bv32): bv1 { (x & 1) as bv1 }

  lemma Rejoined(x: bv32)
    ensures x == ((Upper(x) as bv32) << 1) | (Lowest(x) as bv32) && x >> 1 == Upper(x) as bv32
    ensures x & 1 == Lowest(x) as bv32
  {
  }

  lemma JoinedValue(y: bv31, b: bv1)
    ensures (((y as bv32) << 1) | (b as bv32)) as nat == 2 * (y as nat) + (b as nat)
    ensures (y as bv32) as nat == y as nat && (b as bv32) as nat == b as nat < 2
  {
  }

  /** Shifting by one place halves. */
  lemma Half(x: bv32)
    ensures x as nat == 2 * ((x >> 1) as nat) + (LowBit(x) as nat) && LowBit(x) as nat < 2
    ensures (x >> 1) as nat == x as nat / 2 && LowBit(x) as nat == x as nat % 2
  {
    hide Upper, Lowest;
    Rejoined(x);
    JoinedValue(Upper(x), Lowest(x));
    HalfOf(x as nat, (x >> 1) as nat, LowBit(x) as nat);
  }

  lemma HalfOf(a: nat, h: nat, b: nat)
    requires a == 2 * h + b && b < 2
    ensures h == a / 2 && b == a % 2
  {
  }

  lemma ShiftMore(x: bv32, k: bv32)
    requires k < 31
    ensures ShiftRight(x, k + 1) == ShiftRight(x, k) >> 1
  {
  }

  /** Shifting a word right is shifting the number it stands for. */
  lemma {:induction false} ShiftIsShr(x: bv32, n: nat)
    requires n < 32
    ensures ShiftRight(x, Idx(n)) as nat == Shr(x as nat, n)
  {
    hide LowBit, Idx, ShiftRight;
    if n == 0 {
      ShiftNone(x);
    } else {
      ShiftIsShr(x, n - 1);
      ShiftNext(x, n - 1);
      Half(ShiftRight(x, Idx(n - 1)));
      ShrNext(x as nat, n - 1);
    }
  }

  lemma ShiftNext(x: bv32, n: nat)
    requires n < 31
    ensures ShiftRight(x, Idx(n + 1)) == ShiftRight(x, Idx(n)) >> 1
  {
    hide Idx, ShiftRight;
    IdxNext(n);
    ShiftMore(x, Idx(n));
  }

  lemma ShiftNone(x: bv32)
    ensures ShiftRight(x, Idx(0)) == x
  {
  }

  lemma IdxValue(i: nat)
    requires i < 32
    ensures Idx(i) as nat == i
  {
  }

  lemma IdxOf(k: bv32) returns (i: nat)
    requires k < 32
    ensures i < 32 && Idx(i) == k
  {
    i := (k as bv5) as nat;
  }

  lemma {:induction false} ShrBelow(x: nat, n: nat)
    ensures Shr(x, n) == 0 <==> x < Pow2(n)
  {
    ShrAtLeast(x, n, 1);
  }

  lemma ZeroValue(x: bv32)
    ensures x as nat == 0 <==> x == 0
    ensures x as nat == 1 <==> x == 1
  {
    hide LowBit;
    Half(x);
    OneOrNone(x);
  }

  lemma OneOrNone(x: bv32)
    ensures x >> 1 == 0 && LowBit(x) == 0 <==> x == 0
    ensures x >> 1 == 0 && LowBit(x) == 1 <==> x == 1
    ensures LowBit(x) == 0 || LowBit(x) == 1
    ensures (x >> 1) as nat == 0 <==> x >> 1 == 0
  {
  }

  lemma Fits16(x: bv32)
    ensures x > 0xFFFF <==> x as nat > 0xFFFF
  {
    ShiftIsShr(x, 16);
    ShrBelow(x as nat, 16);
    WordPowers();
    Above16(x);
    ZeroValue(ShiftRight(x, Idx(16)));
  }

  lemma Above16(x: bv32)
    ensures x > 0xFFFF <==> ShiftRight(x, Idx(16)) != 0
  {
  }

  lemma Eighth(s: bv32)
    ensures ShiftRight(s, Idx(8)) == s >> 8
  {
    hide Idx, ShiftRight;
    IdxEight();
    ShiftByEight(s);
  }

  lemma IdxEight()
    ensures Idx(8) == 8
  {
  }

  lemma ShiftByEight(s: bv32)
    ensures ShiftRight(s, 8) == s >> 8
  {
  }

  // compute_tree_index

  lemma LeadingBit(x: bv32)
    requires 1 <= x <= 0xFFFF
    ensures PortableLog(x) < 16 && ShiftRight(x, PortableLog(x)) == 1
  {
  }

  /** The portable K is what 31 - __builtin_clz(X) is. */
  lemma PortableLogIsLog2(x: bv32)
    requires 1 <= x <= 0xFFFF
    ensures PortableLog(x) < 16 && x as nat > 0 && PortableLog(x) as nat == Log2(x as nat)
  {
    hide PortableLog, Idx, ShiftRight;
    LeadingBit(x);
    var i := IdxOf(PortableLog(x));
    IdxValue(i);
    ShiftIsShr(x, i);
    ZeroValue(1);
    ZeroValue(x);
    Log2Unique(x as nat, i);
  }

  lemma Seven(k: bv32, i: nat)
    requires k < 16 && i < 16 && Idx(i) == k
    ensures Idx(i + 7) == Clip(k + 7)
  {
  }

  lemma DoubledPlusValue(k: bv32, b: bv32)
    requires k < 16 && b < 2
    ensures DoubledPlus(k, b) as nat == 2 * (k as nat) + b as nat
  {
    hide DoubledPlus, LowBit;
    DoubledHalf(k, b);
    Half(DoubledPlus(k, b));
  }

  lemma DoubledHalf(k: bv32, b: bv32)
    requires k < 16 && b < 2
    ensures DoubledPlus(k, b) >> 1 == k && LowBit(DoubledPlus(k, b)) == b
  {
  }

  lemma LowBitSmall(x: bv32)
    ensures LowBit(x) < 2
  {
  }

  /** The bit of s below the leading one of s / 256. */
  lemma BitBelowLeading(s: bv32, k: bv32)
    requires k < 16
    ensures LowBit(ShiftRight(s, Clip(k + 7))) as nat == Shr(s as nat, k as nat + 7) % 2
  {
    hide Idx, ShiftRight, LowBit, Clip;
    var i := IdxOf(k);
    IdxValue(i);
    Index16(k, i);
    Seven(k, i);
    ShiftIsShr(s, i + 7);
    Half(ShiftRight(s, Clip(k + 7)));
  }

  lemma Index16(k: bv32, i: nat)
    requires k < 16 && i < 32 && Idx(i) == k
    ensures i < 16
  {
  }

  /** Both forms of compute_tree_index agree. */
  lemma PortableTreeIndexAgrees(s: bv32)
    ensures PortableTreeIndex(s) as nat == TreeIndex(s as nat)
  {
    hide PortableTreeIndex, TreeIndex, PortableLog, DoubledPlus, LowBit, Clip, ShiftRight, Idx, Shr, Log2;
    var x := s >> 8;
    UpperPart(s);
    Constants(x);
    if 1 <= x <= 0xFFFF {
      MiddleAgrees(s);
    } else {
      PortableEnds(s);
      TreeEnds(s as nat);
    }
  }

  /** X as a word and as a number. */
  lemma UpperPart(s: bv32)
    ensures (s >> 8) as nat == Shr(s as nat, 8)
    ensures s >> 8 == 0 <==> (s >> 8) as nat == 0
    ensures s >> 8 > 0xFFFF <==> (s >> 8) as nat > 0xFFFF
  {
    hide ShiftRight, Idx, Shr;
    Eighth(s);
    ShiftIsShr(s, 8);
    ZeroValue(s >> 8);
    Fits16(s >> 8);
  }

  lemma PortableEnds(s: bv32)
    requires s >> 8 == 0 || s >> 8 > 0xFFFF
    ensures PortableTreeIndex(s) == if s >> 8 == 0 then 0 else 31
  {
    hide PortableLog, DoubledPlus, LowBit, Clip, ShiftRight;
  }

  lemma TreeEnds(s: nat)
    requires Shr(s, 8) == 0 || Shr(s, 8) > 0xFFFF
    ensures TreeIndex(s) == if Shr(s, 8) == 0 then 0 else 31
  {
    hide Shr, Log2;
  }

  lemma MiddleAgrees(s: bv32)
    requires 1 <= s >> 8 <= 0xFFFF
    ensures PortableTreeIndex(s) as nat == TreeIndex(s as nat)
  {
    hide PortableTreeIndex, TreeIndex, PortableLog, DoubledPlus, LowBit, Clip, ShiftRight, Idx, Shr, Log2;
    var x := s >> 8;
    UpperPart(s);
    var k := PortableLog(x);
    PortableLogIsLog2(x);
    BitBelowLeading(s, k);
    LowBitSmall(ShiftRight(s, Clip(k + 7)));
    DoubledPlusValue(k, LowBit(ShiftRight(s, Clip(k + 7))));
    PortableMiddle(s);
    TreeMiddle(s as nat);
  }

  lemma PortableMiddle(s: bv32)
    requires 1 <= s >> 8 <= 0xFFFF
    ensures var k := PortableLog(s >> 8); PortableTreeIndex(s) == DoubledPlus(k, LowBit(ShiftRight(s, Clip(k + 7))))
  {
    hide PortableLog, DoubledPlus, LowBit, Clip, ShiftRight;
  }

  lemma TreeMiddle(s: nat)
    requires 1 <= Shr(s, 8) <= 0xFFFF
    ensures TreeIndex(s) == 2 * Log2(Shr(s, 8)) + Shr(s, Log2(Shr(s, 8)) + 7) % 2
  {
    hide Shr, Log2;
  }

  lemma Constants(x: bv32)
    ensures (0 as bv32) as nat == 0 && (31 as bv32) as nat == 31
    ensures 1 <= x <= 0xFFFF || x == 0 || x > 0xFFFF
  {
  }

  // numbers as words

  lemma {:induction false} WordOf(n: nat) returns (w: bv32)
    requires n < WORD
    ensures w as nat == n
  {
    hide Joined;
    if n == 0 {
      w := 0;
    } else {
      var h := WordOf(n / 2);
      w := Joined(h, n % 2 == 1);
      JoinedWord(h, n % 2 == 1);
    }
  }

  lemma JoinedWord(h: bv32, b: bool)
    requires h as nat < WORD / 2
    ensures Joined(h, b) as nat == 2 * (h as nat) + (if b then 1 else 0)
  {
    hide Joined, LowBit;
    TopClear(h);
    JoinedHalf(h, b);
    Half(Joined(h, b));
  }

  function Joined(h: bv32, b: bool): bv32 { (h << 1) | (if b then 1 else 0) }

  lemma JoinedHalf(h: bv32, b: bool)
    requires h >> 31 == 0
    ensures Joined(h, b) >> 1 == h && LowBit(Joined(h, b)) as nat == if b then 1 else 0
  {
  }

  lemma TopClear(h: bv32)
    requires h as nat < WORD / 2
    ensures h >> 31 == 0
  {
    hide Shr;
    ShiftIsShr(h, 31);
    WordPowers();
    ShrBelow(h as nat, 31);
    ZeroValue(ShiftRight(h, Idx(31)));
    LastShift(h);
  }

  lemma LastShift(h: bv32)
    ensures ShiftRight(h, Idx(31)) == h >> 31
  {
  }

  lemma RoundTrip(n: nat)
    requires n < WORD
    ensures (n as bv32) as nat == n
  {
    var w := WordOf(n);
    ThereAndBack(w);
  }

  lemma ThereAndBack(w: bv32)
    ensures w as nat < WORD && (w as nat) as bv32 == w
  {
  }

  /** For every chunk size the portable form computes the bin index used everywhere else. */
  lemma PortableIndexOfSize(s: nat)
    requires s < WORD
    ensures PortableTreeIndex(s as bv32) as nat == TreeIndex(s)
  {
    hide PortableTreeIndex, TreeIndex;
    RoundTrip(s);
    PortableTreeIndexAgrees(s as bv32);
  }

  // compute_bit2idx

  /** I of the portable compute_bit2idx. */
  function PortableBit2Idx(x: bv32): bv32 {
    var y := x - 1;
    var k1 := (y >> 12) & 16;
    var y1 := y >> k1;
    var k2 := (y1 >> 5) & 8;
    var y2 := y1 >> k2;
    var k3 := (y2 >> 2) & 4;
    var y3 := y2 >> k3;
    var k4 := (y3 >> 1) & 2;
    var y4 := y3 >> k4;
    var k5 := (y4 >> 1) & 1;
    k1 + k2 + k3 + k4 + k5 + (y4 >> k5)
  }

  lemma PortableBit2IdxOfBit(k: bv32)
    requires k < 32
    ensures PortableBit2Idx(BitAt(k)) == k
  {
  }

  lemma OnlyBit(x: bv32, k: bv32)
    requires k < 32 && Set(LeastBit(x), k)
    ensures LeastBit(x) == BitAt(k)
  {
  }

  /** Both forms of compute_bit2idx agree on what they are given: the least bit of a map that is not empty. */
  lemma PortableBit2IdxAgrees(x: bv32)
    requires x != 0
    ensures PortableBit2Idx(LeastBit(x)) as nat == Ctz(LeastBit(x)) < 32
  {
    hide PortableBit2Idx, LeastBit, Idx, Set, BitAt, Ctz;
    LowestBin(x, 0);
    SomeLeast(x);
    CtzFirst(LeastBit(x), 0);
    var i := Ctz(LeastBit(x));
    OnlyBit(x, Idx(i));
    PortableBit2IdxOfBit(Idx(i));
    IdxValue(i);
  }

  lemma SomeLeast(x: bv32)
    requires x != 0
    ensures LeastBit(x) != 0
  {
  }
}
