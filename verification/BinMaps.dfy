/** The 32-bit maps of non-empty bins, and the bit tricks that pick a bin. */
module BinMaps {
  /** A bin index as a shift count. */
  function Idx(i: nat): (k: bv32)
    requires i < 32
    ensures k < 32
  {
    (i as bv5) as bv32
  }

  lemma IdxNext(i: nat)
    requires i < 31
    ensures Idx(i) < 31 && Idx(i + 1) == Idx(i) + 1
  {
    NarrowNext(i);
    WideNext(i as bv5);
  }

  lemma NarrowNext(i: nat)
    requires i < 31
    ensures i as bv5 < 31 && (i + 1) as bv5 == i as bv5 + 1
  {
    var k := i as bv5;
    NarrowAndBack(i);
    NarrowStep(k);
    WideAndBack(k + 1);
  }

  lemma NarrowAndBack(i: nat)
    requires i < 32
    ensures (i as bv5) as nat == i
  {
  }

  lemma WideAndBack(k: bv5)
    ensures (k as nat) as bv5 == k
  {
  }

  lemma NarrowStep(k: bv5)
    requires k as nat < 31
    ensures k < 31 && (k + 1) as nat == k as nat + 1
  {
  }

  lemma WideNext(k: bv5)
    requires k < 31
    ensures (k + 1) as bv32 == k as bv32 + 1 && k as bv32 < 31
  {
  }

  lemma {:induction false} IdxGrows(i: nat, j: nat)
    requires i < j < 32
    ensures Idx(i) < Idx(j)
    decreases j
  {
    hide Idx;
    IdxNext(j - 1);
    if i < j - 1 { IdxGrows(i, j - 1); }
  }

  lemma IdxBelow(i: nat, j: nat)
    requires i < 32 && j < 32
    ensures i < j <==> Idx(i) < Idx(j)
    ensures i == j <==> Idx(i) == Idx(j)
  {
    hide Idx;
    if i < j {
      IdxGrows(i, j);
    } else if j < i {
      IdxGrows(j, i);
    }
  }

  function LeastBit(x: bv32): bv32 { x & -x }

  function LeftBits(x: bv32): bv32 { (x << 1) | -(x << 1) }

  function BitAt(k: bv32): bv32
    requires k < 32
  {
    (1 as bv32) << k
  }

  function Below(k: bv32): bv32
    requires k < 32
  {
    BitAt(k) - 1
  }

  predicate Set(m: bv32, k: bv32)
    requires k < 32
  {
    And(m, BitAt(k)) != 0
  }

  /** idx2bit. */
  function Bit(i: nat): bv32
    requires i < 32
  {
    BitAt(Idx(i))
  }

  function And(x: bv32, y: bv32): bv32 { x & y }
  function Minus(x: bv32, y: bv32): bv32 { x & !y }
  function Or(x: bv32, y: bv32): bv32 { x | y }
  function ShiftRight(x: bv32, k: bv32): bv32 requires k < 32 { x >> k }
  function ShiftLeft(x: bv32, k: bv32): bv32 requires k < 32 { x << k }

  /** mark_smallmap, mark_treemap. */
  function Mark(m: bv32, i: nat): bv32
    requires i < 32
  {
    Or(m, Bit(i))
  }

  /** clear_smallmap, clear_treemap. */
  function Clear(m: bv32, i: nat): bv32
    requires i < 32
  {
    Minus(m, Bit(i))
  }

  function From(m: bv32, i: nat): bv32
    requires i < 32
  {
    ShiftRight(m, Idx(i))
  }

  predicate Marked(m: bv32, i: nat)
    requires i < 32
  {
    Set(m, Idx(i))
  }

  // facts about bits

  lemma SameBit(k: bv32, j: bv32)
    requires k < 32 && j < 32
    ensures And(BitAt(k), BitAt(j)) != 0 <==> k == j
  {
  }

  lemma OrThenAnd(m: bv32, b: bv32, c: bv32)
    ensures And(Or(m, b), c) != 0 <==> And(m, c) != 0 || And(b, c) != 0
  {
    assert (m | b) & c == (m & c) | (b & c);
  }

  lemma MinusThenAnd(m: bv32, b: bv32, c: bv32)
    ensures b == c ==> And(Minus(m, b), c) == 0
    ensures And(b, c) == 0 ==> And(Minus(m, b), c) == And(m, c)
  {
    assert b & c == 0 ==> (m & !b) & c == m & c;
  }

  lemma AndTwice(m: bv32, b: bv32, c: bv32)
    ensures And(And(b, m), c) == And(m, And(b, c))
    ensures And(And(m, b), c) == And(m, And(b, c))
    ensures And(m, 0) == 0
  {
  }

  lemma LeftMask(k: bv32, j: bv32)
    requires k < 32 && j < 32
    ensures And(LeftBits(BitAt(k)), BitAt(j)) == if k < j then BitAt(j) else 0
  {
  }

  lemma ShiftedLeftMask(m: bv32, k: bv32)
    requires k < 32
    ensures And(ShiftLeft(ShiftRight(m, k), k), LeftBits(BitAt(k))) == And(m, LeftBits(BitAt(k)))
  {
  }

  lemma SetBit(m: bv32, k: bv32, j: bv32)
    requires k < 32 && j < 32
    ensures Set(Or(m, BitAt(k)), j) <==> Set(m, j) || k == j
    ensures Set(Minus(m, BitAt(k)), j) <==> Set(m, j) && k != j
  {
    hide BitAt, And, Or, Minus;
    SameBit(k, j);
    OrThenAnd(m, BitAt(k), BitAt(j));
    MinusThenAnd(m, BitAt(k), BitAt(j));
  }

  lemma SetLeft(m: bv32, k: bv32, j: bv32)
    requires k < 32 && j < 32
    ensures Set(And(LeftBits(BitAt(k)), m), j) <==> k < j && Set(m, j)
    ensures Set(And(ShiftLeft(ShiftRight(m, k), k), LeftBits(BitAt(k))), j) <==> k < j && Set(m, j)
  {
    hide BitAt, And, LeftBits, ShiftLeft, ShiftRight;
    LeftMask(k, j);
    ShiftedLeftMask(m, k);
    AndTwice(m, LeftBits(BitAt(k)), BitAt(j));
  }

  lemma SetLow(m: bv32, k: bv32)
    requires k < 32
    ensures And(ShiftRight(m, k), 1) != 0 <==> Set(m, k)
    ensures And(!ShiftRight(m, k), 1) == if Set(m, k) then 0 else 1
  {
  }

  lemma SetPair(m: bv32, k: bv32)
    requires k < 32
    ensures k < 31 ==>
      (And(ShiftRight(m, k), 3) != 0 <==> And(ShiftRight(m, k), 1) != 0 || And(ShiftRight(m, k + 1), 1) != 0)
    ensures k == 31 ==> And(ShiftRight(m, k), 3) == And(ShiftRight(m, k), 1)
  {
  }

  lemma SetNone(m: bv32, k: bv32, j: bv32)
    requires k <= j < 32 && ShiftRight(m, k) == 0
    ensures !Set(m, j)
  {
  }

  lemma SetShiftOut(x: bv32, k: bv32)
    requires k < 32 && ShiftRight(x, k) != 0 && !Set(x, k)
    ensures k < 31 && ShiftRight(x, k + 1) != 0
  {
  }

  lemma SetLeast(x: bv32, k: bv32)
    requires k < 32
    ensures Set(LeastBit(x), k) ==> Set(x, k)
    ensures Set(x, k) && And(x, Below(k)) == 0 ==> Set(LeastBit(x), k)
  {
  }

  lemma SetBelow(x: bv32, k: bv32, j: bv32)
    requires k < 32 && j < 32 && Set(And(x, Below(k)), j)
    ensures j < k && Set(x, j)
  {
  }

  // facts about bins

  lemma MarkBin(m: bv32, i: nat, j: nat)
    requires i < 32 && j < 32
    ensures Marked(Mark(m, i), j) <==> Marked(m, j) || i == j
    ensures Marked(Clear(m, i), j) <==> Marked(m, j) && i != j
  {
    hide Idx, BitAt, Below, And, Minus, Or, ShiftLeft, ShiftRight, Set;
    IdxBelow(i, j);
    SetBit(m, Idx(i), Idx(j));
  }

  lemma BinsLeftOf(m: bv32, i: nat, j: nat)
    requires i < 32 && j < 32
    ensures Marked(And(LeftBits(Bit(i)), m), j) <==> i < j && Marked(m, j)
    ensures Marked(And(ShiftLeft(From(m, i), Idx(i)), LeftBits(Bit(i))), j) <==> i < j && Marked(m, j)
  {
    hide Idx, BitAt, Below, And, Minus, Or, ShiftLeft, ShiftRight, Set, LeftBits;
    IdxBelow(i, j);
    SetLeft(m, Idx(i), Idx(j));
  }

  lemma OneBin(m: bv32, i: nat)
    requires i < 32
    ensures And(From(m, i), 1) != 0 <==> Marked(m, i)
    ensures And(!From(m, i), 1) == if Marked(m, i) then 0 else 1
  {
    hide Idx, BitAt, Set, And, ShiftRight;
    SetLow(m, Idx(i));
  }

  lemma PairOfBins(m: bv32, i: nat)
    requires i < 31
    ensures And(From(m, i), 3) != 0 <==> Marked(m, i) || Marked(m, i + 1)
  {
    hide Idx, BitAt, Set, And, ShiftRight, Marked;
    IdxNext(i);
    SetPair(m, Idx(i));
    OneBin(m, i);
    OneBin(m, i + 1);
  }

  lemma LastBin(m: bv32)
    ensures And(From(m, 31), 3) != 0 <==> Marked(m, 31)
  {
    hide Idx, BitAt, Set, And, ShiftRight, Marked;
    LastIdx();
    SetPair(m, Idx(31));
    OneBin(m, 31);
  }

  /** (m >> i) & 3 asks about bins i and i + 1, and ~(m >> i) & 1 steps over an empty bin i. */
  lemma TwoBins(m: bv32, i: nat)
    requires i < 32
    ensures And(From(m, i), 3) != 0 <==> Marked(m, i) || (i < 31 && Marked(m, i + 1))
    ensures And(!From(m, i), 1) == if Marked(m, i) then 0 else 1
  {
    hide Idx, BitAt, Set, And, ShiftRight, Marked, From;
    OneBin(m, i);
    if i < 31 { PairOfBins(m, i); } else { LastBin(m); }
  }

  lemma NoBinsFrom(m: bv32, i: nat, j: nat)
    requires i <= j < 32 && From(m, i) == 0
    ensures !Marked(m, j)
  {
    hide Idx, BitAt, Below, And, Minus, Or, ShiftLeft, ShiftRight, Set;
    IdxBelow(i, j);
    IdxBelow(i, j);
    SetNone(m, Idx(i), Idx(j));
  }

  // __builtin_ctz

  lemma ShiftOut(x: bv32, i: nat)
    requires i < 32 && From(x, i) != 0 && !Marked(x, i)
    ensures i < 31 && From(x, i + 1) != 0
  {
    hide Idx, BitAt, Below, And, Minus, Or, ShiftLeft, ShiftRight, Set;
    SetShiftOut(x, Idx(i));
    if i < 31 { IdxNext(i); } else { LastIdx(); }
  }

  lemma LastIdx()
    ensures Idx(31) == 31 && Idx(0) == 0
  {
  }

  /** The position of the first set bit at or above i, 32 when there is none. */
  function CtzFrom(x: bv32, i: nat): (r: nat)
    requires i <= 32
    ensures i <= r <= 32
    decreases 32 - i
  {
    if i == 32 || Marked(x, i) then i else CtzFrom(x, i + 1)
  }

  function Ctz(x: bv32): nat {
    CtzFrom(x, 0)
  }

  lemma {:induction false} CtzFromFirst(x: bv32, i: nat, j: nat)
    requires i < 32
    ensures From(x, i) != 0 ==> CtzFrom(x, i) < 32 && Marked(x, CtzFrom(x, i))
    ensures i <= j < 32 && Marked(x, j) ==> CtzFrom(x, i) <= j
    decreases 32 - i
  {
    hide Idx, BitAt, Below, And, Minus, Or, ShiftLeft, ShiftRight, Set, Marked;
    if !Marked(x, i) {
      if From(x, i) != 0 { ShiftOut(x, i); }
      if i < 31 { CtzFromFirst(x, i + 1, j); }
    }
  }

  lemma ShiftZero(x: bv32)
    ensures From(x, 0) == x
  {
  }

  lemma CtzFirst(x: bv32, j: nat)
    requires x != 0
    ensures Ctz(x) < 32 && Marked(x, Ctz(x))
    ensures j < 32 && Marked(x, j) ==> Ctz(x) <= j
  {
    hide Idx, BitAt, Below, And, Minus, Or, ShiftLeft, ShiftRight, Set, Marked;
    ShiftZero(x);
    CtzFromFirst(x, 0, j);
  }

  lemma NonZero(x: bv32, i: nat)
    requires i < 32 && Marked(x, i)
    ensures x != 0
  {
  }

  lemma LeastBitNonZero(x: bv32)
    requires x != 0
    ensures LeastBit(x) != 0
  {
  }

  /** least_bit keeps exactly the lowest marked bin. */
  lemma LeastBitIsFirst(x: bv32)
    requires x != 0
    ensures LeastBit(x) != 0 && Ctz(LeastBit(x)) == Ctz(x)
  {
    hide Idx, BitAt, Below, And, Minus, Or, ShiftLeft, ShiftRight, Set, LeastBit, Ctz, Marked;
    LeastBitNonZero(x);
    var y := LeastBit(x);
    var i, k := Ctz(y), Ctz(x);
    CtzFirst(y, 0);
    CtzFirst(x, 0);
    CtzFirst(y, k);
    CtzFirst(x, i);
    MarkedLeast(x, i);
    MarkedLeast(x, k);
    NothingBelowCtz(x);
  }

  lemma MarkedLeast(x: bv32, i: nat)
    requires i < 32
    ensures Marked(LeastBit(x), i) ==> Marked(x, i)
    ensures Marked(x, i) && And(x, Below(Idx(i))) == 0 ==> Marked(LeastBit(x), i)
  {
    hide Idx, BitAt, Below, And, Minus, Or, ShiftLeft, ShiftRight, Set, LeastBit;
    SetLeast(x, Idx(i));
  }

  lemma NothingBelowCtz(x: bv32)
    requires x != 0 && Ctz(x) < 32
    ensures And(x, Below(Idx(Ctz(x)))) == 0
  {
    hide Idx, BitAt, Below, And, Minus, Or, ShiftLeft, ShiftRight, Set, Ctz;
    var k := Ctz(x);
    var z := And(x, Below(Idx(k)));
    if z != 0 {
      var j := Ctz(z);
      CtzFirst(z, j);
      SetBelow(x, Idx(k), Idx(j));
      IdxBelow(j, k);
      CtzFirst(x, j);
    }
  }

  /** compute_bit2idx(least_bit(x), i) finds the lowest marked bin. */
  lemma LowestBin(x: bv32, j: nat)
    requires x != 0
    ensures Ctz(LeastBit(x)) < 32 && Marked(x, Ctz(LeastBit(x)))
    ensures j < 32 && Marked(x, j) ==> Ctz(LeastBit(x)) <= j
  {
    hide Idx, BitAt, Below, And, Minus, Or, ShiftLeft, ShiftRight, Set, LeastBit, Ctz, Marked;
    LeastBitIsFirst(x);
    CtzFirst(x, j);
  }
}
