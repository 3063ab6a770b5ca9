/** umul64wide and __multi3 of wasm_runtime_core.cpp: 128-bit products from 32-bit halves. */
module WideMultiply {
  import opened Powers

  const W32: nat := 0x1_0000_0000
  const W64: nat := 0x1_0000_0000_0000_0000
  const W128: nat := 0x1_0000_0000_0000_0000_0000_0000_0000_0000

  // uint64_t arithmetic

  function Add64(a: nat, b: nat): nat { (a + b) % W64 }
  function Mul64(a: nat, b: nat): nat { a * b % W64 }
  function Low32(a: nat): nat { a % W32 }
  function High32(a: nat): nat { a / W32 }

  /** Bitwise or. */
  function BitOr(x: nat, y: nat): nat
    decreases x + y
  {
    if x == 0 && y == 0 then 0 else 2 * BitOr(x / 2, y / 2) + (if x % 2 == 1 || y % 2 == 1 then 1 else 0)
  }

  lemma {:induction false} OrZero(x: nat)
    ensures BitOr(x, 0) == x
  {
    if x > 0 { OrZero(x / 2); }
  }

  lemma Doubles(h: nat, k: nat)
    requires k > 0
    ensures h * Pow2(k) == 2 * (h * Pow2(k - 1))
  {
    assert Pow2(k) == 2 * Pow2(k - 1);
    MulSwap(h, 2, Pow2(k - 1));
  }

  lemma MulSwap(a: nat, b: nat, c: nat)
    ensures a * (b * c) == b * (a * c)
  {
  }

  /** Disjoint bits: or is plus. */
  lemma {:induction false} OrShifted(h: nat, k: nat, y: nat)
    requires y < Pow2(k)
    ensures BitOr(h * Pow2(k), y) == h * Pow2(k) + y
  {
    if k == 0 {
      OrZero(h);
    } else {
      Doubles(h, k);
      OrShifted(h, k - 1, y / 2);
      OrStep(h * Pow2(k - 1), y);
    }
  }

  lemma OrStep(x: nat, y: nat)
    ensures BitOr(2 * x, y) == 2 * BitOr(x, y / 2) + y % 2
  {
    if 2 * x != 0 || y != 0 {
      assert 2 * x / 2 == x && 2 * x % 2 == 0;
    } else {
      assert BitOr(0, 0) == 0;
    }
  }

  lemma OrHalves(h: nat, y: nat)
    requires y < W32
    ensures BitOr(h * W32, y) == h * W32 + y
  {
    WordPowers();
    OrShifted(h, 32, y);
  }

  datatype Wide = Wide(high: nat, low: nat)

  /** umul64wide. */
  function Umul64Wide(left: nat, right: nat): Wide {
    var leftLow, leftHigh := Low32(left), High32(left);
    var rightLow, rightHigh := Low32(right), High32(right);
    AddColumns(Mul64(leftLow, rightLow), Mul64(leftLow, rightHigh), Mul64(leftHigh, rightLow),
      Mul64(leftHigh, rightHigh))
  }

  function AddColumns(product0: nat, product1: nat, product2: nat, product3: nat): Wide {
    var middle := Add64(Add64(High32(product0), Low32(product1)), Low32(product2));
    Wide(Add64(Add64(Add64(product3, High32(product1)), High32(product2)), High32(middle)),
         BitOr(Mul64(middle, W32), Low32(product0)))
  }

  lemma Monotone(a: nat, b: nat, c: nat, d: nat)
    requires a <= c && b <= d
    ensures a * b <= c * d
  {
    assert a * b <= c * b && c * b <= c * d;
  }

  /** The product of two 32-bit numbers needs no reduction. */
  lemma HalfProduct(a: nat, b: nat)
    requires a < W32 && b < W32
    ensures Mul64(a, b) == a * b <= (W32 - 1) * (W32 - 1)
  {
    Monotone(a, b, W32 - 1, W32 - 1);
  }

  lemma Distribute(lh: nat, ll: nat, rh: nat, rl: nat)
    ensures (lh * W32 + ll) * (rh * W32 + rl) == (lh * rh) * W64 + (ll * rh) * W32 + (lh * rl) * W32 + ll * rl
  {
    var x := rh * W32 + rl;
    assert (lh * W32 + ll) * x == (lh * W32) * x + ll * x;
    assert (lh * W32) * x == (lh * W32) * (rh * W32) + (lh * W32) * rl;
    assert ll * x == ll * (rh * W32) + ll * rl;
    assert (lh * W32) * (rh * W32) == (lh * rh) * W64;
  }

  /** Adding the columns up: no column overflows, and nothing is lost. */
  lemma Columns(p0: nat, p1: nat, p2: nat, p3: nat)
    requires p0 <= (W32 - 1) * (W32 - 1) && p1 <= (W32 - 1) * (W32 - 1) && p2 <= (W32 - 1) * (W32 - 1)
    requires p3 <= (W32 - 1) * (W32 - 1)
    ensures var middle := High32(p0) + Low32(p1) + Low32(p2);
      && middle < W64 && p3 + High32(p1) + High32(p2) + High32(middle) < W64
      && (p3 + High32(p1) + High32(p2) + High32(middle)) * W64 + (Low32(middle) * W32 + Low32(p0))
        == p3 * W64 + p1 * W32 + p2 * W32 + p0
  {
  }

  lemma ShiftDrops(middle: nat)
    ensures Mul64(middle, W32) == Low32(middle) * W32
  {
    assert middle * W32 == High32(middle) * W64 + Low32(middle) * W32;
  }

  lemma NoWrap(a: nat, b: nat)
    requires a + b < W64
    ensures Add64(a, b) == a + b
  {
  }

  lemma AddColumnsValue(p0: nat, p1: nat, p2: nat, p3: nat, middle: nat)
    requires middle == High32(p0) + Low32(p1) + Low32(p2) < W64 && p3 + High32(p1) + High32(p2) + High32(middle) < W64
    ensures AddColumns(p0, p1, p2, p3) == Wide(p3 + High32(p1) + High32(p2) + High32(middle),
      Low32(middle) * W32 + Low32(p0))
    ensures Low32(middle) * W32 + Low32(p0) < W64
  {
    LowBound(middle);
    LowBound(p0);
    hide BitOr, Add64, Mul64, High32, Low32;
    NoWrap(High32(p0), Low32(p1));
    NoWrap(High32(p0) + Low32(p1), Low32(p2));
    NoWrap(p3, High32(p1));
    NoWrap(p3 + High32(p1), High32(p2));
    NoWrap(p3 + High32(p1) + High32(p2), High32(middle));
    ShiftDrops(middle);
    OrHalves(Low32(middle), Low32(p0));
  }

  lemma AddColumnsExact(p0: nat, p1: nat, p2: nat, p3: nat)
    requires p0 <= (W32 - 1) * (W32 - 1) && p1 <= (W32 - 1) * (W32 - 1) && p2 <= (W32 - 1) * (W32 - 1)
    requires p3 <= (W32 - 1) * (W32 - 1)
    ensures var r := AddColumns(p0, p1, p2, p3);
      r.high * W64 + r.low == p3 * W64 + p1 * W32 + p2 * W32 + p0 && r.high < W64 && r.low < W64
  {
    hide AddColumns, High32, Low32;
    Columns(p0, p1, p2, p3);
    AddColumnsValue(p0, p1, p2, p3, High32(p0) + Low32(p1) + Low32(p2));
  }

  lemma LowBound(a: nat)
    ensures Low32(a) < W32
  {
  }

  lemma SplitWord(a: nat)
    requires a < W64
    ensures a == High32(a) * W32 + Low32(a) && High32(a) < W32 && Low32(a) < W32
  {
  }

  /** umul64wide is the exact 128-bit product. */
  lemma Umul64WideExact(left: nat, right: nat)
    requires left < W64 && right < W64
    ensures var r := Umul64Wide(left, right); r.high * W64 + r.low == left * right && r.high < W64 && r.low < W64
  {
    hide AddColumns, Mul64, High32, Low32;
    var ll, lh, rl, rh := Low32(left), High32(left), Low32(right), High32(right);
    SplitWord(left);
    SplitWord(right);
    HalfProduct(ll, rl);
    HalfProduct(ll, rh);
    HalfProduct(lh, rl);
    HalfProduct(lh, rh);
    AddColumnsExact(ll * rl, ll * rh, lh * rl, lh * rh);
    Distribute(lh, ll, rh, rl);
  }

  // __int128

  /** The value of 128 bits read as a signed number. */
  function Signed128(u: nat): int {
    if u < W128 / 2 then u else u - W128
  }

  /** static_cast<unsigned __int128>. */
  function Unsigned128(x: int): nat { x % W128 }

  /** __multi3. */
  function Multi3(left: int, right: int): int {
    var l, r := Unsigned128(left), Unsigned128(right);
    var leftLow, leftHigh, rightLow, rightHigh := l % W64, l / W64, r % W64, r / W64;
    var lowProduct := Umul64Wide(leftLow, rightLow);
    var resultHigh := Add64(Add64(lowProduct.high, Mul64(leftHigh, rightLow)), Mul64(leftLow, rightHigh));
    Signed128(BitOr(resultHigh * W64, lowProduct.low))
  }

  /** a and b differ by k * n. */
  ghost predicate Apart(a: int, b: int, n: int, k: int) { a == b + k * n }

  ghost predicate Congruent(a: int, b: int, n: int) { exists k: int :: Apart(a, b, n, k) }

  lemma CongruentBy(a: int, b: int, n: int, k: int)
    requires a == b + k * n
    ensures Congruent(a, b, n)
  {
    assert Apart(a, b, n, k);
  }

  lemma CongruentTransitive(a: int, b: int, c: int, n: int)
    requires Congruent(a, b, n) && Congruent(b, c, n)
    ensures Congruent(a, c, n)
  {
    var j: int :| Apart(a, b, n, j);
    var k: int :| Apart(b, c, n, k);
    assert (j + k) * n == j * n + k * n;
    CongruentBy(a, c, n, j + k);
  }

  lemma CongruentProduct(a: int, b: int, c: int, d: int, n: int)
    requires Congruent(a, b, n) && Congruent(c, d, n)
    ensures Congruent(a * c, b * d, n)
  {
    var j: int :| Apart(a, b, n, j);
    var k: int :| Apart(c, d, n, k);
    ProductApart(b, d, n, j, k);
    CongruentBy(a * c, b * d, n, b * k + j * d + j * k * n);
  }

  lemma ProductApart(b: int, d: int, n: int, j: int, k: int)
    ensures (b + j * n) * (d + k * n) == b * d + (b * k + j * d + j * k * n) * n
  {
    assert (b + j * n) * (d + k * n) == b * d + b * (k * n) + (j * n) * d + (j * n) * (k * n);
    assert b * (k * n) == (b * k) * n && (j * n) * d == (j * d) * n && (j * n) * (k * n) == (j * k * n) * n;
    assert (b * k + j * d + j * k * n) * n == (b * k) * n + (j * d) * n + (j * k * n) * n;
  }

  lemma ModApart(a: int, n: int)
    requires n > 0
    ensures Congruent(a % n, a, n)
  {
    CongruentBy(a % n, a, n, -(a / n));
  }

  /** The high word: three 64-bit sums and products, each reduced, are the reduction of the whole. */
  lemma HighWord(h: nat, x: nat, y: nat) returns (t: nat)
    ensures Add64(Add64(h, x % W64), y % W64) + t * W64 == h + x + y && Add64(Add64(h, x % W64), y % W64) < W64
  {
    t := (h + x + y) / W64;
    ReduceTwice(h, x, y);
  }

  lemma ReduceTwice(h: nat, x: nat, y: nat)
    ensures ((h + x % W64) % W64 + y % W64) % W64 == (h + x + y) % W64
  {
  }

  lemma Distribute64(lh: nat, ll: nat, rh: nat, rl: nat)
    ensures (lh * W64 + ll) * (rh * W64 + rl) == (lh * rh) * W128 + (lh * rl) * W64 + (ll * rh) * W64 + ll * rl
  {
    var x := rh * W64 + rl;
    assert (lh * W64 + ll) * x == (lh * W64) * x + ll * x;
    assert (lh * W64) * x == (lh * W64) * (rh * W64) + (lh * W64) * rl;
    assert ll * x == ll * (rh * W64) + ll * rl;
    assert (lh * W64) * (rh * W64) == (lh * rh) * W128;
  }

  lemma OrWords(h: nat, y: nat)
    requires y < W64
    ensures BitOr(h * W64, y) == h * W64 + y
  {
    assert Pow2(64) == W64 by { WordPowers(); PowerAdds(32, 32); }
    OrShifted(h, 64, y);
  }

  lemma {:induction false} PowerAdds(a: nat, b: nat)
    ensures Pow2(a + b) == Pow2(a) * Pow2(b)
  {
    if b > 0 {
      PowerAdds(a, b - 1);
      MulSwap(Pow2(a), 2, Pow2(b - 1));
    }
  }

  lemma SignedCongruent(u: nat)
    requires u < W128
    ensures Congruent(Signed128(u), u, W128) && -(W128 / 2) <= Signed128(u) < W128 / 2
  {
    CongruentBy(Signed128(u), u, W128, if u < W128 / 2 then 0 else -1);
  }

  lemma ProductOfWords(lh: nat, ll: nat, rh: nat, rl: nat, high: nat, low: nat, result: nat, t: nat)
    requires high * W64 + low == ll * rl && result + t * W64 == high + lh * rl + ll * rh
    ensures result * W64 + low == (lh * W64 + ll) * (rh * W64 + rl) - (lh * rh + t) * W128
  {
    Distribute64(lh, ll, rh, rl);
  }

  lemma UnsignedWords(l: nat)
    requires l < W128
    ensures l == l / W64 * W64 + l % W64 && l / W64 < W64 && l % W64 < W64
  {
  }

  /** The unsigned core of __multi3. */
  lemma WordsCongruent(l: nat, r: nat)
    requires l < W128 && r < W128
    ensures var p := Umul64Wide(l % W64, r % W64);
      var high := Add64(Add64(p.high, Mul64(l / W64, r % W64)), Mul64(l % W64, r / W64));
      BitOr(high * W64, p.low) < W128 && Congruent(BitOr(high * W64, p.low), l * r, W128)
  {
    UnsignedWords(l);
    UnsignedWords(r);
    hide BitOr, Umul64Wide, Congruent, Add64;
    var ll, lh, rl, rh := l % W64, l / W64, r % W64, r / W64;
    WordsProduct(ll, lh, rl, rh);
  }

  lemma WordsProduct(ll: nat, lh: nat, rl: nat, rh: nat)
    requires ll < W64 && rl < W64
    ensures var p := Umul64Wide(ll, rl);
      var high := Add64(Add64(p.high, Mul64(lh, rl)), Mul64(ll, rh));
      BitOr(high * W64, p.low) < W128 && Congruent(BitOr(high * W64, p.low), (lh * W64 + ll) * (rh * W64 + rl), W128)
  {
    hide BitOr, Umul64Wide, Congruent, Add64;
    var p := Umul64Wide(ll, rl);
    Umul64WideExact(ll, rl);
    var t := HighWord(p.high, lh * rl, ll * rh);
    var high := Add64(Add64(p.high, Mul64(lh, rl)), Mul64(ll, rh));
    OrWords(high, p.low);
    ProductOfWords(lh, ll, rh, rl, p.high, p.low, high, t);
    CongruentBy(high * W64 + p.low, (lh * W64 + ll) * (rh * W64 + rl), W128, -(lh * rh + t));
  }

  /** __multi3 is the signed product modulo 2^128, read as a signed 128-bit number. */
  lemma Multi3Congruent(left: int, right: int)
    ensures Congruent(Multi3(left, right), left * right, W128) && -(W128 / 2) <= Multi3(left, right) < W128 / 2
  {
    var l, r := Unsigned128(left), Unsigned128(right);
    ModApart(left, W128);
    ModApart(right, W128);
    WordsCongruent(l, r);
    hide BitOr, Umul64Wide, Congruent, Add64, Mul64, Signed128;
    var p := Umul64Wide(l % W64, r % W64);
    var u := BitOr(Add64(Add64(p.high, Mul64(l / W64, r % W64)), Mul64(l % W64, r / W64)) * W64, p.low);
    SignedCongruent(u);
    CongruentProduct(l, left, r, right, W128);
    CongruentTransitive(Signed128(u), u, l * r, W128);
    CongruentTransitive(Signed128(u), l * r, left * right, W128);
  }

  /** When the product fits, __multi3 is the product. */
  lemma Multi3Exact(left: int, right: int)
    requires -(W128 / 2) <= left * right < W128 / 2
    ensures Multi3(left, right) == left * right
  {
    Multi3Congruent(left, right);
    hide Multi3;
    var p := left * right;
    var k: int :| Apart(Multi3(left, right), p, W128, k);
  }
}
