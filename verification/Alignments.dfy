/** Powers of two, and the masks internal_memalign aligns with. */
module Alignments {
  import opened Powers
  import opened TreeIndices

  /** Bitwise and. */
  function BitAnd(x: nat, y: nat): nat {
    if x == 0 then 0 else 2 * BitAnd(x / 2, y / 2) + (if x % 2 == 1 && y % 2 == 1 then 1 else 0)
  }

  ghost predicate PowerOfTwo(a: nat) {
    a == 1 || (a > 1 && a % 2 == 0 && PowerOfTwo(a / 2))
  }

  lemma {:induction false} AndSelf(x: nat)
    ensures BitAnd(x, x) == x
  {
    if x > 0 { AndSelf(x / 2); }
  }

  /** (a & (a - 1)) == 0 is the test for a power of two. */
  lemma {:induction false} AndLessOne(a: nat)
    requires a > 0
    ensures BitAnd(a, a - 1) == 0 <==> PowerOfTwo(a)
  {
    if a % 2 == 0 {
      assert (a - 1) / 2 == a / 2 - 1;
      AndLessOne(a / 2);
    } else {
      assert (a - 1) / 2 == a / 2;
      AndSelf(a / 2);
    }
  }

  lemma HalfMod(x: nat, b: nat)
    requires b > 0
    ensures x % (2 * b) == 2 * (x / 2 % b) + x % 2
  {
    var q, r := x / 2 / b, x / 2 % b;
    assert x == (2 * b) * q + (2 * r + x % 2) by { assert x / 2 == b * q + r; assert (2 * b) * q == 2 * (b * q); }
    ModUnique(x, 2 * b, q, 2 * r + x % 2);
  }

  lemma ModUnique(x: nat, d: nat, q: nat, r: nat)
    requires d > 0 && x == d * q + r && r < d
    ensures x % d == r
  {
    var q', r' := x / d, x % d;
    assert x == d * q' + r';
    if q' < q { assert d * q' + d <= d * q by { Scale(d, q' + 1, q); } }
    if q' > q { assert d * q + d <= d * q' by { Scale(d, q + 1, q'); } }
  }

  lemma Scale(d: nat, a: nat, b: nat)
    requires a <= b
    ensures d * a <= d * b
  {
  }

  /** x & (a - 1) is x mod a. */
  lemma {:induction false} AndMask(x: nat, a: nat)
    requires PowerOfTwo(a)
    ensures BitAnd(x, a - 1) == x % a
  {
    if a == 1 {
      AndZero(x);
    } else {
      assert (a - 1) / 2 == a / 2 - 1 && (a - 1) % 2 == 1;
      AndMask(x / 2, a / 2);
      HalfMod(x, a / 2);
    }
  }

  lemma {:induction false} AndZero(x: nat)
    ensures BitAnd(x, 0) == 0
  {
    if x > 0 { AndZero(x / 2); }
  }

  lemma AndStep(x: nat, y: nat)
    ensures BitAnd(x, y) == 2 * BitAnd(x / 2, y / 2) + (if x % 2 == 1 && y % 2 == 1 then 1 else 0)
  {
  }

  lemma AndEven(y: nat, z: nat)
    ensures BitAnd(y, 2 * z) == 2 * BitAnd(y / 2, z)
  {
    hide BitAnd;
    AndStep(y, 2 * z);
    assert 2 * z / 2 == z;
  }

  lemma AndOdd(y: nat, z: nat)
    ensures BitAnd(y, 2 * z + 1) == 2 * BitAnd(y / 2, z) + y % 2
  {
    hide BitAnd;
    AndStep(y, 2 * z + 1);
    assert (2 * z + 1) / 2 == z;
  }

  lemma AndAll(y: nat, w: nat)
    requires PowerOfTwo(w) && y < w
    ensures BitAnd(y, w - 1) == y
  {
    hide BitAnd;
    AndMask(y, w);
    ModUnique(y, w, 0, y);
  }

  lemma ComplementDoubles(y: nat, b: nat, v: nat)
    requires 0 < b <= v && BitAnd(y / 2, v - b) + BitAnd(y / 2, b - 1) == y / 2
    ensures BitAnd(y, 2 * v - 2 * b) + BitAnd(y, 2 * b - 1) == y
  {
    hide BitAnd;
    AndEven(y, v - b);
    AndOdd(y, b - 1);
    assert 2 * (v - b) == 2 * v - 2 * b && 2 * (b - 1) + 1 == 2 * b - 1;
  }

  lemma Halves(a: nat)
    requires PowerOfTwo(a) && a > 1
    ensures a == 2 * (a / 2) && a / 2 > 0 && PowerOfTwo(a / 2)
  {
  }

  /** In a word of w values, the bits of y are those under -a and those under a - 1. */
  lemma {:induction false} AndComplement(y: nat, a: nat, w: nat)
    requires PowerOfTwo(a) && PowerOfTwo(w) && a <= w && y < w
    ensures BitAnd(y, w - a) + BitAnd(y, a - 1) == y
    decreases a
  {
    if a == 1 {
      AndAll(y, w);
      AndZero(y);
    } else {
      hide BitAnd, PowerOfTwo;
      var b, v := a / 2, w / 2;
      Halves(a);
      Halves(w);
      AndComplement(y / 2, b, v);
      ComplementDoubles(y, b, v);
    }
  }

  /** y & -a rounds y down to a multiple of a. */
  lemma AndNegated(y: nat, a: nat)
    requires PowerOfTwo(a) && a <= WORD && y < WORD
    ensures BitAnd(y, WORD - a) == y - y % a
  {
    hide BitAnd;
    WordIsPower();
    AndMask(y, a);
    AndComplement(y, a, WORD);
  }

  lemma {:induction false} Pow2IsPower(n: nat)
    ensures PowerOfTwo(Pow2(n))
  {
    if n > 0 { Pow2IsPower(n - 1); }
  }

  lemma WordIsPower()
    ensures PowerOfTwo(WORD)
  {
    WordPowers();
    Pow2IsPower(32);
  }

  lemma {:induction false} PowersApart(x: nat, y: nat)
    requires PowerOfTwo(x) && PowerOfTwo(y) && x < y
    ensures 2 * x <= y
  {
    if x > 1 { PowersApart(x / 2, y / 2); }
  }

  const MIN_ALIGNMENT: nat := 16
  const MAX_ALIGNMENT: nat := 0x8000_0000

  lemma MaxIsPower()
    ensures PowerOfTwo(MAX_ALIGNMENT) && PowerOfTwo(MIN_ALIGNMENT) && PowerOfTwo(8) && PowerOfTwo(4)
  {
    WordPowers();
    Pow2IsPower(31);
  }

  lemma MultipleOfEight(a: nat)
    requires PowerOfTwo(a) && a >= 8
    ensures a % 8 == 0
  {
    assert PowerOfTwo(a / 2) && PowerOfTwo(a / 2 / 2);
  }

  lemma MultipleOf(d: nat, k: nat)
    requires d % 8 == 0 && d > 0
    ensures d * k % 8 == 0 && d * k % d == 0
  {
    ModUnique(d * k, d, k, 0);
    assert d * k == 8 * (d / 8 * k) by { assert d == 8 * (d / 8); MulAssociates(8, d / 8, k); }
  }

  lemma MulAssociates(a: nat, b: nat, c: nat)
    ensures a * b * c == a * (b * c)
  {
  }

  /** The aligned spots at and behind mem: (mem + a - 1) & -a, and the next one. */
  lemma AlignedSpots(mem: nat, a: nat)
    requires PowerOfTwo(a) && MIN_ALIGNMENT <= a && mem % a != 0 && mem + a <= WORD
    ensures var up := BitAnd(mem + a - 1, WORD - a);
      mem < up < mem + a && up % a == 0 && (up + a) % a == 0 && up % 8 == 0 && a % 8 == 0
  {
    hide PowerOfTwo, BitAnd;
    AndNegated(mem + a - 1, a);
    MultipleOfEight(a);
    SpotBehind(mem, a, BitAnd(mem + a - 1, WORD - a));
  }

  lemma SpotBehind(mem: nat, a: nat, up: nat)
    requires a > 0 && a % 8 == 0 && mem % a != 0 && up == mem + a - 1 - (mem + a - 1) % a
    ensures mem < up < mem + a && up % a == 0 && (up + a) % a == 0 && up % 8 == 0
  {
    LastMultiple(mem + a - 1, a);
    RemaindersDiffer(mem, up, a);
  }

  lemma RemaindersDiffer(x: nat, y: nat, a: nat)
    requires a > 0 && x % a != 0 && y % a == 0
    ensures x != y
  {
  }

  /** y rounded down to a multiple of a. */
  lemma LastMultiple(y: nat, a: nat)
    requires a > 0 && a % 8 == 0
    ensures var up := y - y % a; y - a < up <= y && up % a == 0 && (up + a) % a == 0 && up % 8 == 0
  {
    var k, r := Divided(y, a);
    IsMultiple(y - r, a, k);
    IsMultiple(y - r + a, a, k + 1);
  }

  lemma Divided(y: nat, a: nat) returns (k: nat, r: nat)
    requires a > 0
    ensures r == y % a < a && r <= y && y - r == a * k && y - r + a == a * (k + 1)
  {
    k, r := y / a, y % a;
  }

  lemma IsMultiple(x: nat, d: nat, k: nat)
    requires d % 8 == 0 && d > 0 && x == d * k
    ensures x % 8 == 0 && x % d == 0
  {
    MultipleOf(d, k);
  }

  /** The n-th value of the variable a in internal_memalign's rounding loop, were the loop to run on. */
  function Doubled(n: nat): nat {
    if n == 0 then MIN_ALIGNMENT else Doubled(n - 1) * 2 % WORD
  }

  lemma PowerDoubles(x: nat)
    requires PowerOfTwo(x)
    ensures PowerOfTwo(2 * x) && x >= 1
  {
    assert 2 * x / 2 == x;
  }

  lemma {:induction false} DoubledBounded(n: nat)
    ensures Doubled(n) <= MAX_ALIGNMENT && (Doubled(n) == 0 || PowerOfTwo(Doubled(n)))
  {
    hide PowerOfTwo;
    MaxIsPower();
    if n > 0 {
      var x := Doubled(n - 1);
      DoubledBounded(n - 1);
      if 0 < x < MAX_ALIGNMENT {
        PowersApart(x, MAX_ALIGNMENT);
        PowerDoubles(x);
      }
    }
  }

  lemma {:induction false} DoubledReaches(n: nat)
    requires n <= 27
    ensures Doubled(n) == Pow2(n + 4) && Pow2(n + 4) <= MAX_ALIGNMENT
  {
    WordPowers();
    Pow2Grows(n + 4, 31);
    if n > 0 {
      DoubledReaches(n - 1);
      assert Pow2(n + 4) == 2 * Pow2(n + 3);
      DoubledWithin(Doubled(n - 1));
    } else {
      assert Pow2(4) == 16;
    }
  }

  lemma DoubledWithin(x: nat)
    requires 2 * x <= MAX_ALIGNMENT
    ensures x * 2 % WORD == 2 * x
  {
  }

  ghost predicate Reaches(n: nat, alignment: nat) {
    Doubled(n) >= alignment
  }

  /** The rounding loop ends exactly for alignments up to 2^31.  A larger one, which cannot be a power of
      two in 32 bits, is never reached: the variable wraps to 0 and stays there. */
  lemma RoundingEnds(alignment: nat)
    ensures (exists n: nat :: Reaches(n, alignment)) <==> alignment <= MAX_ALIGNMENT
  {
    if alignment <= MAX_ALIGNMENT {
      DoubledReaches(27);
      WordPowers();
      assert Reaches(27, alignment);
    }
    forall n: nat ensures Doubled(n) <= MAX_ALIGNMENT { DoubledBounded(n); }
  }

  lemma RoundingNeverEnds()
    ensures forall n: nat :: !Reaches(n, 0x8000_0001)
  {
    RoundingEnds(0x8000_0001);
  }

  /** The head of internal_memalign: the least power of two that is at least 16 and at least `alignment`. */
  method RoundAlignment(alignment: nat) returns (r: nat)
    requires alignment <= MAX_ALIGNMENT
    ensures PowerOfTwo(r) && MIN_ALIGNMENT <= r <= MAX_ALIGNMENT && r >= alignment
    ensures (r == MIN_ALIGNMENT || r / 2 < alignment)
  {
    hide PowerOfTwo, BitAnd;
    MaxIsPower();
    r := alignment;
    if r < MIN_ALIGNMENT {
      r := MIN_ALIGNMENT;
    }
    AndLessOne(r);
    if BitAnd(r, r - 1) != 0 {
      var a := MIN_ALIGNMENT;
      while a < r
        invariant PowerOfTwo(a) && MIN_ALIGNMENT <= a <= MAX_ALIGNMENT && (a == MIN_ALIGNMENT || a / 2 < r)
        decreases r - a
      {
        PowersApart(a, MAX_ALIGNMENT);
        PowerDoubles(a);
        a := a * 2 % WORD;
      }
      r := a;
    }
  }
}
