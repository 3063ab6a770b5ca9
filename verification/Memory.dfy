/** Linear memory as the allocator sees it.  Every address it dereferences is 0 or 4 modulo 8, so memory
    is kept as 8-byte granules: the low word (at 8k) and the high word (at 8k + 4) of each. */
module Memory {
  datatype Mem = Mem(low: map<nat, nat>, high: map<nat, nat>)

  /** The word at address a; linear memory starts out zero. */
  function Lo(m: Mem, a: nat): nat {
    if a in m.low then m.low[a] else 0
  }

  /** The word at address a + 4. */
  function Hi(m: Mem, a: nat): nat {
    if a in m.high then m.high[a] else 0
  }

  function SetLo(m: Mem, a: nat, v: nat): (r: Mem)
    ensures forall x {:trigger Lo(r, x)} :: Lo(r, x) == if x == a then v else Lo(m, x)
    ensures forall x {:trigger Hi(r, x)} :: Hi(r, x) == Hi(m, x)
  {
    m.(low := m.low[a := v])
  }

  function SetHi(m: Mem, a: nat, v: nat): (r: Mem)
    ensures forall x {:trigger Hi(r, x)} :: Hi(r, x) == if x == a then v else Hi(m, x)
    ensures forall x {:trigger Lo(r, x)} :: Lo(r, x) == Lo(m, x)
  {
    m.(high := m.high[a := v])
  }

  /** The two words of the granule at x hold in m' what they held in m. */
  ghost predicate SameAt(m: Mem, m': Mem, x: nat) {
    Lo(m', x) == Lo(m, x) && Hi(m', x) == Hi(m, x)
  }

  // A chunk starts with the words prev_foot, head, fd and bk; a tree chunk goes on with two children, parent and index.

  function PrevFoot(m: Mem, p: nat): nat { Lo(m, p) }
  function Head(m: Mem, p: nat): nat { Hi(m, p) }
  function Fd(m: Mem, p: nat): nat { Lo(m, p + 8) }
  function Bk(m: Mem, p: nat): nat { Hi(m, p + 8) }
  function Child(m: Mem, p: nat, k: nat): nat { if k == 0 then Lo(m, p + 16) else Hi(m, p + 16) }
  function Parent(m: Mem, p: nat): nat { Lo(m, p + 24) }
  function Index(m: Mem, p: nat): nat { Hi(m, p + 24) }

  function SetHead(m: Mem, p: nat, v: nat): Mem { SetHi(m, p, v) }
  function SetFoot(m: Mem, p: nat, s: nat): Mem { SetLo(m, p + s, s) }
  function SetFd(m: Mem, p: nat, v: nat): Mem { SetLo(m, p + 8, v) }
  function SetBk(m: Mem, p: nat, v: nat): Mem { SetHi(m, p + 8, v) }
  function SetChild(m: Mem, p: nat, k: nat, v: nat): Mem {
    if k == 0 then SetLo(m, p + 16, v) else SetHi(m, p + 16, v)
  }
  function SetParent(m: Mem, p: nat, v: nat): Mem { SetLo(m, p + 24, v) }
  function SetIndex(m: Mem, p: nat, v: nat): Mem { SetHi(m, p + 24, v) }

  // head words: size | CINUSE_BIT (2) | PINUSE_BIT (1), sizes being multiples of 8

  function SizeOf(w: nat): nat { w / 8 * 8 }
  function CinuseOf(w: nat): bool { w / 2 % 2 == 1 }
  function PinuseOf(w: nat): bool { w % 2 == 1 }

  function ChunkSize(m: Mem, p: nat): nat { SizeOf(Head(m, p)) }
  function Cinuse(m: Mem, p: nat): bool { CinuseOf(Head(m, p)) }
  function Pinuse(m: Mem, p: nat): bool { PinuseOf(Head(m, p)) }

  // the macros of malloc.c that write head and foot words

  function OrPinuse(m: Mem, p: nat): Mem { SetHead(m, p, Head(m, p) - Head(m, p) % 2 + 1) }
  function ClearPinuse(m: Mem, p: nat): Mem { SetHead(m, p, Head(m, p) - Head(m, p) % 2) }

  function SetSizeAndPinuseOfFreeChunk(m: Mem, p: nat, s: nat): Mem {
    SetFoot(SetHead(m, p, s + 1), p, s)
  }
  function SetFreeWithPinuse(m: Mem, p: nat, s: nat, n: nat): Mem {
    SetSizeAndPinuseOfFreeChunk(ClearPinuse(m, n), p, s)
  }
  function SetInuse(m: Mem, p: nat, s: nat): Mem {
    OrPinuse(SetHead(m, p, Head(m, p) % 2 + s + 2), p + s)
  }
  function SetInuseAndPinuse(m: Mem, p: nat, s: nat): Mem {
    OrPinuse(SetHead(m, p, s + 3), p + s)
  }
  function SetSizeAndPinuseOfInuseChunk(m: Mem, p: nat, s: nat): Mem {
    SetHead(m, p, s + 3)
  }
}
