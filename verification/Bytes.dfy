/** memset, memcpy and memmove of wasm_runtime_core.cpp, on the bytes of the words of Memory. */
module Bytes {
  import opened Memory

  const BYTE: nat := 256

  function Digit(w: nat, k: nat): nat
    requires k < 4
  {
    if k == 0 then w % 0x100
    else if k == 1 then w / 0x100 % 0x100
    else if k == 2 then w / 0x1_0000 % 0x100
    else w / 0x100_0000 % 0x100
  }

  function Weight(k: nat): nat
    requires k < 4
  {
    if k == 0 then 1 else if k == 1 then 0x100 else if k == 2 then 0x1_0000 else 0x100_0000
  }

  lemma DigitWithin(w: nat, k: nat)
    requires k < 4
    ensures Digit(w, k) * Weight(k) <= w
  {
    var q := Split(w);
  }

  /** w with its k-th byte replaced. */
  function PutDigit(w: nat, k: nat, v: nat): nat
    requires k < 4
  {
    DigitWithin(w, k);
    w - Digit(w, k) * Weight(k) + v * Weight(k)
  }

  lemma LowDigit(a: nat, d: nat)
    requires d < BYTE
    ensures (a * 0x100 + d) / 0x100 == a && (a * 0x100 + d) % 0x100 == d
  {
  }

  lemma NestedDivision(w: nat)
    ensures w / 0x1_0000 == w / 0x100 / 0x100 && w / 0x100_0000 == w / 0x100 / 0x100 / 0x100
  {
  }

  lemma Digits(q: nat, d0: nat, d1: nat, d2: nat, d3: nat)
    requires d0 < BYTE && d1 < BYTE && d2 < BYTE && d3 < BYTE
    ensures var w := q * 0x1_0000_0000 + d3 * 0x100_0000 + d2 * 0x1_0000 + d1 * 0x100 + d0;
      Digit(w, 0) == d0 && Digit(w, 1) == d1 && Digit(w, 2) == d2 && Digit(w, 3) == d3
  {
    var w3 := q * 0x100 + d3;
    var w2 := w3 * 0x100 + d2;
    var w1 := w2 * 0x100 + d1;
    LowDigit(w1, d0);
    LowDigit(w2, d1);
    LowDigit(w3, d2);
    LowDigit(q, d3);
    NestedDivision(w1 * 0x100 + d0);
  }

  lemma Split(w: nat) returns (q: nat)
    ensures w == q * 0x1_0000_0000 + Digit(w, 3) * 0x100_0000 + Digit(w, 2) * 0x1_0000 + Digit(w, 1) * 0x100 + Digit(w,
      0)
    ensures Digit(w, 0) < BYTE && Digit(w, 1) < BYTE && Digit(w, 2) < BYTE && Digit(w, 3) < BYTE
  {
    hide Digit;
    var w1 := w / BYTE;
    var w2 := w1 / BYTE;
    var w3 := w2 / BYTE;
    q := w3 / BYTE;
    Digits(q, w % BYTE, w1 % BYTE, w2 % BYTE, w3 % BYTE);
  }

  lemma PutDigits(w: nat, k: nat, v: nat)
    requires k < 4 && v < BYTE
    ensures forall j: nat | j < 4 :: Digit(PutDigit(w, k, v), j) == if j == k then v else Digit(w, j)
  {
    var q := Split(w);
    var d0, d1, d2, d3 := Digit(w, 0), Digit(w, 1), Digit(w, 2), Digit(w, 3);
    hide Digit;
    if k == 0 { Digits(q, v, d1, d2, d3); }
    if k == 1 { Digits(q, d0, v, d2, d3); }
    if k == 2 { Digits(q, d0, d1, v, d3); }
    if k == 3 { Digits(q, d0, d1, d2, v); }
  }

  /** The byte at address a. */
  function Byte(m: Mem, a: nat): (r: nat)
  {
    if a % 8 < 4 then Digit(Lo(m, a - a % 8), a % 8) else Digit(Hi(m, a - a % 8), a % 8 - 4)
  }

  function SetByte(m: Mem, a: nat, v: nat): Mem
    requires v < BYTE
  {
    if a % 8 < 4 then SetLo(m, a - a % 8, PutDigit(Lo(m, a - a % 8), a % 8, v))
    else SetHi(m, a - a % 8, PutDigit(Hi(m, a - a % 8), a % 8 - 4, v))
  }

  lemma SetByteByte(m: Mem, a: nat, v: nat, x: nat)
    requires v < BYTE
    ensures Byte(SetByte(m, a, v), x) == if x == a then v else Byte(m, x)
  {
    hide Digit, PutDigit;
    var k := a % 8;
    if k < 4 { PutDigits(Lo(m, a - k), k, v); } else { PutDigits(Hi(m, a - k), k - 4, v); }
  }

  lemma SetByteBytes(m: Mem, a: nat, v: nat)
    requires v < BYTE
    ensures forall x: nat {:trigger Byte(SetByte(m, a, v), x)} ::
      Byte(SetByte(m, a, v), x) == if x == a then v else Byte(m, x)
  {
    hide Byte, SetByte;
    forall x: nat ensures Byte(SetByte(m, a, v), x) == if x == a then v else Byte(m, x) {
      SetByteByte(m, a, v, x);
    }
  }

  /** No word that lies wholly outside [lo, hi) differs. */
  ghost predicate WordsOutside(m: Mem, m': Mem, lo: nat, hi: nat) {
    && (forall x: nat {:trigger Lo(m', x)} :: x + 4 <= lo || x >= hi ==> Lo(m', x) == Lo(m, x))
    && (forall x: nat {:trigger Hi(m', x)} :: x + 8 <= lo || x + 4 >= hi ==> Hi(m', x) == Hi(m, x))
  }

  lemma SetByteOutside(m: Mem, a: nat, v: nat)
    requires v < BYTE
    ensures WordsOutside(m, SetByte(m, a, v), a, a + 1)
  {
    hide Digit, PutDigit;
  }

  lemma OutsideJoins(m0: Mem, m1: Mem, m2: Mem, lo: nat, mid: nat)
    requires WordsOutside(m0, m1, lo, mid) && WordsOutside(m1, m2, mid, mid + 1) && lo <= mid
    ensures WordsOutside(m0, m2, lo, mid + 1)
  {
  }

  ghost predicate Zeroed(m: Mem, a: nat, count: nat) {
    forall x: nat {:trigger Byte(m, x)} :: a <= x < a + count ==> Byte(m, x) == 0
  }

  /** memset. */
  method Memset(m: Mem, dest: nat, value: nat, count: nat) returns (r: Mem)
    ensures forall x: nat {:trigger Byte(r, x)} ::
      Byte(r, x) == if dest <= x < dest + count then value % BYTE else Byte(m, x)
    ensures WordsOutside(m, r, dest, dest + count)
  {
    hide Byte, SetByte, WordsOutside;
    r := m;
    assert WordsOutside(m, r, dest, dest) by { NoneOutside(m, dest); }
    for i := 0 to count
      invariant forall x: nat {:trigger Byte(r, x)} ::
        Byte(r, x) == if dest <= x < dest + i then value % BYTE else Byte(m, x)
      invariant WordsOutside(m, r, dest, dest + i)
    {
      SetByteBytes(r, dest + i, value % BYTE);
      SetByteOutside(r, dest + i, value % BYTE);
      OutsideJoins(m, r, SetByte(r, dest + i, value % BYTE), dest, dest + i);
      r := SetByte(r, dest + i, value % BYTE);
    }
  }

  lemma NoneOutside(m: Mem, lo: nat)
    ensures WordsOutside(m, m, lo, lo)
  {
  }

  lemma ByteBound(m: Mem, a: nat)
    ensures Byte(m, a) < BYTE
  {
  }

  /** The loop that memcpy and memmove share, from the first byte to the last. */
  method MoveDown(m: Mem, dest: nat, src: nat, count: nat) returns (r: Mem)
    requires dest <= src || src + count <= dest
    ensures forall x: nat {:trigger Byte(r, x)} ::
      Byte(r, x) == if dest <= x < dest + count then Byte(m, src + (x - dest)) else Byte(m, x)
    ensures WordsOutside(m, r, dest, dest + count)
  {
    hide Byte, SetByte, WordsOutside;
    r := m;
    assert WordsOutside(m, r, dest, dest) by { NoneOutside(m, dest); }
    for i := 0 to count
      invariant forall x: nat {:trigger Byte(r, x)} ::
        Byte(r, x) == if dest <= x < dest + i then Byte(m, src + (x - dest)) else Byte(m, x)
      invariant WordsOutside(m, r, dest, dest + i)
    {
      var v := Byte(r, src + i);
      ByteBound(r, src + i);
      SetByteBytes(r, dest + i, v);
      SetByteOutside(r, dest + i, v);
      OutsideJoins(m, r, SetByte(r, dest + i, v), dest, dest + i);
      ByteMoved(m, r, SetByte(r, dest + i, v), dest, src, count, i);
      r := SetByte(r, dest + i, v);
    }
  }

  lemma ByteMoved(m: Mem, r: Mem, r': Mem, dest: nat, src: nat, count: nat, i: nat)
    requires i < count && (dest <= src || src + count <= dest)
    requires forall x: nat {:trigger Byte(r, x)} ::
      Byte(r, x) == if dest <= x < dest + i then Byte(m, src + (x - dest)) else Byte(m, x)
    requires forall x: nat {:trigger Byte(r', x)} ::
      Byte(r', x) == if x == dest + i then Byte(r, src + i) else Byte(r, x)
    ensures forall x: nat {:trigger Byte(r', x)} ::
      Byte(r', x) == if dest <= x < dest + i + 1 then Byte(m, src + (x - dest)) else Byte(m, x)
  {
    hide Byte;
  }

  /** memcpy, of ranges that do not overlap (C11, section 7.24.2.1). */
  method Memcpy(m: Mem, dest: nat, src: nat, count: nat) returns (r: Mem)
    requires dest + count <= src || src + count <= dest
    ensures forall x: nat {:trigger Byte(r, x)} ::
      Byte(r, x) == if dest <= x < dest + count then Byte(m, src + (x - dest)) else Byte(m, x)
    ensures WordsOutside(m, r, dest, dest + count)
  {
    r := MoveDown(m, dest, src, count);
  }

  lemma OutsideJoinsBelow(m0: Mem, m1: Mem, m2: Mem, mid: nat, hi: nat)
    requires WordsOutside(m0, m1, mid + 1, hi) && WordsOutside(m1, m2, mid, mid + 1) && mid < hi
    ensures WordsOutside(m0, m2, mid, hi)
  {
  }

  /** The second loop of memmove, from the last byte down to the first. */
  method MoveUp(m: Mem, dest: nat, src: nat, count: nat) returns (r: Mem)
    requires src < dest
    ensures forall x: nat {:trigger Byte(r, x)} ::
      Byte(r, x) == if dest <= x < dest + count then Byte(m, src + (x - dest)) else Byte(m, x)
    ensures WordsOutside(m, r, dest, dest + count)
  {
    hide Byte, SetByte, WordsOutside;
    r := m;
    assert WordsOutside(m, r, dest + count, dest + count) by { NoneOutside(m, dest + count); }
    for i := count downto 0
      invariant forall x: nat {:trigger Byte(r, x)} ::
        Byte(r, x) == if dest + i <= x < dest + count then Byte(m, src + (x - dest)) else Byte(m, x)
      invariant WordsOutside(m, r, dest + i, dest + count)
    {
      var v := Byte(r, src + i);
      ByteBound(r, src + i);
      SetByteBytes(r, dest + i, v);
      SetByteOutside(r, dest + i, v);
      OutsideJoinsBelow(m, r, SetByte(r, dest + i, v), dest + i, dest + count);
      r := SetByte(r, dest + i, v);
    }
  }

  /** memmove: the ranges may overlap. */
  method Memmove(m: Mem, dest: nat, src: nat, count: nat) returns (r: Mem)
    ensures forall x: nat {:trigger Byte(r, x)} ::
      Byte(r, x) == if dest <= x < dest + count then Byte(m, src + (x - dest)) else Byte(m, x)
    ensures WordsOutside(m, r, dest, dest + count)
  {
    hide Byte, WordsOutside;
    r := m;
    if dest < src {
      r := MoveDown(m, dest, src, count);
    } else if dest > src {
      r := MoveUp(m, dest, src, count);
    } else {
      assert WordsOutside(m, m, dest, dest + count) by { AllSame(m, dest, dest + count); }
    }
  }

  lemma AllSame(m: Mem, lo: nat, hi: nat)
    ensures WordsOutside(m, m, lo, hi)
  {
  }
}
