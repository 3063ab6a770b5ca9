/** wasm_morecore: an sbrk over WebAssembly linear memory. */
module Morecores {
  import opened TreeIndices

  const WASM_PAGE: nat := 65536
  const MAX_PAGES: nat := 65536

  /** (void *)-1. */
  const MFAIL: nat := 0xFFFF_FFFF

  function MaxOf(a: nat, b: nat): nat { if a < b then b else a }

  /** How far the heap and the memory under it reach, and how often the host has refused more. */
  datatype Span = Span(end: nat, pages: nat, refusals: nat)

  /** The pages that addresses below `end` lie in. */
  function PagesUpTo(end: nat): nat { (end + WASM_PAGE - 1) / WASM_PAGE }

  /** The heap may have grown, and the memory with it, by no more pages than that takes. */
  ghost predicate Grew(s0: Span, s: Span) {
    s0.end <= s.end && s0.refusals <= s.refusals && s.pages == MaxOf(s0.pages, PagesUpTo(s.end))
  }

  lemma GrewTransitive(s0: Span, s1: Span, s2: Span)
    requires Grew(s0, s1) && Grew(s1, s2)
    ensures Grew(s0, s2)
  {
  }

  /** Whether the heap can ever end `size` bytes higher: its last page can never be had. */
  predicate Reachable(s: Span, size: nat) {
    s.pages < MAX_PAGES && s.end + size <= WORD - WASM_PAGE
  }

  /** The heap with `size` more bytes, over memory that exists. */
  function Gained(s: Span, size: nat): Span {
    Span(s.end + size, MaxOf(s.pages, PagesUpTo(s.end + size)), s.refusals)
  }

  /** After asking for `size` more bytes in vain: where they can be had, the host has refused. */
  function Vain(s: Span, size: nat): Span { if CanCome(s, size) then s.(refusals := s.refusals + 1) else s }

  predicate CanCome(s: Span, size: nat) { size > 0 && Reachable(s, size) }

  /** `size` more bytes may not be had: they are out of reach, or lie beyond the pages there are. */
  predicate CanFail(s: Span, size: nat) { !CanCome(s, size) || s.end + size > s.pages * WASM_PAGE }

  /** What asking for `size` more bytes may come to. */
  predicate Asked(s0: Span, size: nat, ok: bool, s: Span) {
    if ok then CanCome(s0, size) && s == Gained(s0, size) else CanFail(s0, size) && s == Vain(s0, size)
  }

  lemma NothingAsked(s: Span)
    ensures Asked(s, 0, false, s)
  {
  }

  class LinearMemory {
    /** wasm_heap_end. */
    var heapEnd: nat
    /** __builtin_wasm_memory_size(0). */
    var pages: nat
    /** How often memory.grow has failed although it need not have. */
    ghost var refusals: nat

    constructor (heapEnd: nat, pages: nat)
      requires heapEnd <= pages * WASM_PAGE && pages <= MAX_PAGES && heapEnd < WORD
      ensures Valid() && Reach() == Span(heapEnd, pages, 0)
    {
      this.heapEnd, this.pages, this.refusals := heapEnd, pages, 0;
    }

    ghost function Reach(): Span
      reads this
    {
      Span(heapEnd, pages, refusals)
    }

    /** The heap end is a 32-bit address inside the memory there is. */
    predicate Valid()
      reads this
    {
      heapEnd <= pages * WASM_PAGE && pages <= MAX_PAGES && heapEnd < WORD
    }

    /** memory.grow: the host may refuse, and must when the limit would be passed. */
    method MemoryGrow(delta: nat) returns (ok: bool)
      requires Valid()
      modifies this`pages, this`refusals
      ensures Valid()
      ensures pages == if ok then old(pages) + delta else old(pages)
      ensures ok <==> old(pages) + delta <= MAX_PAGES && refusals == old(refusals)
      ensures refusals == if ok || old(pages) + delta > MAX_PAGES then old(refusals) else old(refusals) + 1
      ensures old(pages) + delta > MAX_PAGES ==> refusals == old(refusals)
    {
      ok := *;
      if pages + delta > MAX_PAGES {
        ok := false;
      } else if ok {
        pages := pages + delta;
      } else {
        refusals := refusals + 1;
      }
    }

    /** On success the heap end moves up by exactly `size`, over memory that exists, and the old end is
        returned; on failure nothing moves.  It fails only where the new end cannot be reached, or is not within
        the pages there are and the host refuses more.  A memory of 65536 pages can never be extended: its byte
        size wraps to 0; and the page count for an end in the last page of all wraps to 0 too. */
    method WasmMorecore(size: int) returns (r: nat)
      requires Valid() && -0x8000_0000 <= size < 0x8000_0000
      modifies this
      ensures Valid()
      ensures r == old(heapEnd) || r == MFAIL
      ensures r == MFAIL ==> heapEnd == old(heapEnd) && pages == old(pages)
      ensures r != MFAIL ==> heapEnd == r + size && size >= 0 && heapEnd <= pages * WASM_PAGE
      ensures size == 0 ==> r == old(heapEnd) && pages == old(pages)
      ensures size < 0 ==> r == MFAIL
      ensures size > 0 && old(pages) == MAX_PAGES ==> r == MFAIL
      ensures Grew(old(Reach()), Reach())
      ensures size > 0 ==> (r != MFAIL <==> Reachable(old(Reach()), size) && refusals == old(refusals))
      ensures size > 0 ==> Asked(old(Reach()), size, r != MFAIL, Reach())
      ensures refusals > old(refusals) ==> size > 0 && old(heapEnd) + size > old(pages) * WASM_PAGE
    {
      hide MemoryEnd, PagesFor, Missing, PagesUpTo;
      HeldPages(heapEnd, pages);
      if size == 0 {
        return heapEnd;
      }
      if size < 0 {
        return MFAIL;
      }
      var oldEnd := heapEnd;
      if oldEnd > 0xFFFF_FFFF - size {
        return MFAIL;
      }
      var requestedEnd := oldEnd + size;
      var currentPages := pages;
      var currentEnd := MemoryEnd(currentPages);
      PagesNeeded(requestedEnd, currentPages, size);
      HeldPages(requestedEnd, currentPages);
      if requestedEnd > currentEnd {
        var requiredPages := PagesFor(requestedEnd);
        var growPages := Missing(requiredPages, currentPages);
        var ok := MemoryGrow(growPages);
        if !ok {
          return MFAIL;
        }
      }
      heapEnd := requestedEnd;
      return oldEnd;
    }
  }

  /** current_pages * page_size, in 32 bits. */
  function MemoryEnd(pages: nat): nat { pages * WASM_PAGE % WORD }

  /** (requested_end + page_size - 1) / page_size, in 32 bits. */
  function PagesFor(requestedEnd: nat): nat { (requestedEnd + WASM_PAGE - 1) % WORD / WASM_PAGE }

  /** required_pages - current_pages, in 32 bits. */
  function Missing(required: nat, pages: nat): nat
    requires pages <= MAX_PAGES
  {
    (required + WORD - pages) % WORD
  }

  lemma HeldPages(end: nat, pages: nat)
    ensures end <= pages * WASM_PAGE <==> PagesUpTo(end) <= pages
  {
  }

  /** What memory.grow is asked for: just enough pages, or an impossible number of them. */
  lemma PagesNeeded(requestedEnd: nat, pages: nat, size: nat)
    requires requestedEnd < WORD && pages <= MAX_PAGES && requestedEnd <= pages * WASM_PAGE + size
    requires 0 < size < 0x8000_0000
    requires size <= requestedEnd
    ensures pages == MAX_PAGES ==> requestedEnd > MemoryEnd(pages)
    ensures requestedEnd > MemoryEnd(pages) ==>
      var grow := Missing(PagesFor(requestedEnd), pages);
      if pages < MAX_PAGES && requestedEnd <= WORD - WASM_PAGE
        then pages + grow == PagesUpTo(requestedEnd) < MAX_PAGES && requestedEnd <= (pages + grow) * WASM_PAGE
        else pages + grow > MAX_PAGES
    ensures requestedEnd > MemoryEnd(pages) && pages < MAX_PAGES ==> requestedEnd > pages * WASM_PAGE
    ensures requestedEnd <= MemoryEnd(pages) ==>
      requestedEnd <= pages * WASM_PAGE && pages < MAX_PAGES && requestedEnd <= WORD - WASM_PAGE
  {
    var required := PagesFor(requestedEnd);
    if pages < MAX_PAGES { assert MemoryEnd(pages) == pages * WASM_PAGE; }
    if requestedEnd + WASM_PAGE - 1 < WORD {
      assert required * WASM_PAGE >= requestedEnd;
    } else {
      assert required == 0;
    }
  }
}
