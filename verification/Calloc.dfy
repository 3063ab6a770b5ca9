/** dlcalloc. */
module Callocs {
  import opened Memory
  import opened Payloads
  import opened TreeIndices
  import opened Ages
  import opened Heaps
  import opened MallocStates
  import opened Policies
  import opened Freeing
  import opened Morecores
  import opened Machines
  import opened SysAllocs
  import opened Mallocs
  import opened Bytes
  import opened UserWrites

  /** (n_elements | elem_size) & ~0xffff is not 0. */
  function HighBits(n: bv32, e: bv32): bool {
    (n | e) & 0xFFFF_0000 != 0
  }

  lemma HighBitsSet(n: bv32, e: bv32)
    ensures HighBits(n, e) <==> n >= 0x1_0000 || e >= 0x1_0000
  {
  }

  /** n_elements * elem_size, before it is cut to 32 bits. */
  function Mul(n: nat, e: nat): nat { n * e }

  function Quotient(r: nat, n: nat): nat
    requires n > 0
  {
    r / n
  }

  /** dlcalloc's req. */
  function CallocRequest(n: nat, e: nat): nat {
    if n == 0 then 0
    else if (n >= 0x1_0000 || e >= 0x1_0000) && Quotient(Mul(n, e) % WORD, n) != e then MAX_SIZE
    else Mul(n, e) % WORD
  }

  lemma MulMonotone(n: nat, a: nat, b: nat)
    requires a <= b
    ensures n * a <= n * b
  {
  }

  lemma SmallProduct(n: nat, e: nat)
    requires n < 0x1_0000 && e < 0x1_0000
    ensures Mul(n, e) < WORD
  {
    MulMonotone(n, e, 0xFFFF);
  }

  /** The quotient recovers e from n * e, and from no smaller number. */
  lemma DivideBack(n: nat, e: nat, r: nat)
    requires n > 0
    ensures r == Mul(n, e) ==> Quotient(r, n) == e
    ensures r < Mul(n, e) ==> Quotient(r, n) != e
  {
    var q := r / n;
    assert r == n * q + r % n;
    if q < e { MulMonotone(n, q + 1, e); }
    if q > e { MulMonotone(n, e + 1, q); }
  }

  /** The overflow test is exact: the product is used when 32 bits can hold it, and otherwise a size that
      no heap can provide. */
  lemma CallocRequestExact(n: nat, e: nat)
    requires n < WORD && e < WORD
    ensures CallocRequest(n, e) == if Mul(n, e) < WORD then Mul(n, e) else MAX_SIZE
  {
    assert Mul(0, e) == 0;
    hide Mul, Quotient;
    if n > 0 {
      DivideBack(n, e, Mul(n, e) % WORD);
      if n < 0x1_0000 && e < 0x1_0000 { SmallProduct(n, e); }
    }
  }

  /** A live block, cleared. */
  method Clear(m: MallocState, core: LinearMemory, p: nat, req: nat, ghost v0: View, ghost m0: Mem, ghost nb: nat)
    requires Served(m, core, v0, m0, p, nb) && p in m.view.l.chunks && req + CHUNK_OVERHEAD <= m.view.l.chunks[p].size
    modifies m`mem
    ensures Served(m, core, v0, m0, p, nb) && m.view == old(m.view) && HeapOf(m) == old(HeapOf(m))
    ensures Zeroed(m.mem, ChunkToMem(p), req)
  {
    hide Core, Quiet, Steady, Byte, WordsOutside;
    ghost var st := m.St();
    m.mem := Memset(m.mem, ChunkToMem(p), 0, req);
    CoreUserWrites(st, m.sb, m.view, m.Resting(), p, p + 8, p + 8 + req, m.mem);
    assert Live(m.view.l) - {p} == Live(v0.l);
    QuietTransitive(Live(v0.l), m0, st.mem, m.mem);
  }

  lemma ServedSize(m: MallocState, core: LinearMemory, v0: View, m0: Mem, p: nat, nb: nat)
    requires Served(m, core, v0, m0, p, nb)
    ensures p in m.view.l.chunks && nb <= m.view.l.chunks[p].size
  {
  }

  /** dlcalloc: a block holds all Mul(n, e) bytes, zeroed, or there is none. */
  method Calloc(m: MallocState, core: LinearMemory, n: nat, e: nat) returns (mem: nat)
    requires Valid(m, core) && n < WORD && e < WORD
    modifies m, core
    ensures Valid(m, core) && m.footprintLimit == old(m.footprintLimit)
    ensures mem == NULL ==> Unserved(m, old(m.view), old(m.mem))
    ensures Mul(n, e) >= MAX_REQUEST ==> mem == NULL
    ensures mem != NULL ==>
      mem >= 8 && Served(m, core, old(m.view), old(m.mem), MemToChunk(mem), PaddedSize(Mul(n, e)))
    ensures mem != NULL ==> Zeroed(m.mem, mem, Mul(n, e))
    ensures MallocStep(old(MachineOf(m, core)), PaddedSize(Mul(n, e)), mem, MachineOf(m, core))
  {
    hide Core, Quiet, Steady, Zeroed, GrantGrown, ValidUpTo, Mul, Quotient, MallocStep;
    CallocRequestExact(n, e);
    var req := 0;
    if n != 0 {
      req := Mul(n, e) % WORD;
      if (n >= 0x1_0000 || e >= 0x1_0000) && Quotient(req, n) != e {
        req := MAX_SIZE;
      }
    }
    assert req == CallocRequest(n, e);
    mem := Malloc(m, core, req);
    if mem != NULL {
      PaddedEnough(req);
      ServedSize(m, core, old(m.view), old(m.mem), MemToChunk(mem), PaddedSize(req));
      Clear(m, core, MemToChunk(mem), req, old(m.view), old(m.mem), PaddedSize(req));
    }
  }
}
