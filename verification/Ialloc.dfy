/** ialloc: many chunks, and possibly the array of their addresses, from one allocation. */
module Iallocs {
  import opened Memory
  import opened Layouts
  import opened Tags
  import opened Payloads
  import opened TreeIndices
  import opened Bins
  import opened SmallBins
  import opened TreeBins
  import opened Ages
  import opened Heaps
  import opened MallocStates
  import opened Policies
  import opened Freeing
  import opened Morecores
  import opened Machines
  import opened SysAllocs
  import opened Mallocs
  import opened Callocs
  import opened Reallocs
  import opened Bytes
  import opened UserWrites
  import opened PieceHeads

  function Sum(ss: seq<nat>): nat {
    if ss == [] then 0 else ss[0] + Sum(ss[1..])
  }

  lemma {:induction false} SumAppend(ss: seq<nat>, s: nat)
    ensures Sum(ss + [s]) == Sum(ss) + s
  {
    if ss != [] {
      assert (ss + [s])[1..] == ss[1..] + [s];
      SumAppend(ss[1..], s);
    } else {
      assert ss + [s] == [s] && Sum([s]) == s + Sum([]);
    }
  }

  lemma {:induction false} SumSplit(ss: seq<nat>, i: nat)
    requires i <= |ss|
    ensures Sum(ss) == Sum(ss[..i]) + Sum(ss[i..])
  {
    if i == 0 {
      assert ss[..0] == [] && ss[0..] == ss;
    } else {
      SumSplit(ss, i - 1);
      assert ss[..i] == ss[..i - 1] + [ss[i - 1]];
      SumAppend(ss[..i - 1], ss[i - 1]);
      assert ss[i - 1..][1..] == ss[i..];
    }
  }

  /** Consecutive pieces of these sizes, from p on. */
  ghost function PieceMap(p: nat, ss: seq<nat>): map<nat, nat>
    decreases ss
  {
    if ss == [] then map[] else map[p := ss[0]] + PieceMap(p + ss[0], ss[1..])
  }

  lemma MergeUpdate(a: map<nat, nat>, b: map<nat, nat>, k: nat, v: nat)
    ensures a + b[k := v] == (a + b)[k := v]
  {
  }

  lemma FirstPiece(p: nat, ss: seq<nat>)
    requires ss != []
    ensures PieceMap(p, ss) == map[p := ss[0]] + PieceMap(p + ss[0], ss[1..]) && Sum(ss) == ss[0] + Sum(ss[1..])
  {
  }

  lemma NoPieces(p: nat)
    ensures PieceMap(p, []) == map[] && Sum([]) == 0
  {
  }

  lemma {:induction false} PieceMapAppend(p: nat, ss: seq<nat>, s: nat)
    ensures PieceMap(p, ss + [s]) == PieceMap(p, ss)[p + Sum(ss) := s]
    decreases ss
  {
    hide PieceMap, Sum;
    FirstPiece(p, ss + [s]);
    if ss == [] {
      NoPieces(p + s);
      NoPieces(p);
      assert (ss + [s])[1..] == [];
    } else {
      assert (ss + [s])[1..] == ss[1..] + [s];
      FirstPiece(p, ss);
      PieceMapAppend(p + ss[0], ss[1..], s);
      MergeUpdate(map[p := ss[0]], PieceMap(p + ss[0], ss[1..]), p + Sum(ss), s);
    }
  }

  /** The chunk size each element needs. */
  function Needs(n: nat, same: bool, sizes: seq<nat>): (r: seq<nat>)
    requires if same then |sizes| > 0 else |sizes| == n
  {
    seq(n, i requires 0 <= i < n => Request2Size(if same then sizes[0] else sizes[i]))
  }

  ghost predicate ChunkSizes(ss: seq<nat>) {
    forall i {:trigger ss[i]} :: 0 <= i < |ss| ==> ss[i] >= 16 && ss[i] % 8 == 0
  }

  lemma {:induction false} SumAligned(ss: seq<nat>)
    requires ChunkSizes(ss)
    ensures Sum(ss) % 8 == 0 && Sum(ss) >= 16 * |ss|
  {
    if ss != [] { SumAligned(ss[1..]); }
  }

  lemma NeedsAreSizes(n: nat, same: bool, sizes: seq<nat>)
    requires if same then |sizes| > 0 else |sizes| == n
    ensures ChunkSizes(Needs(n, same, sizes))
  {
  }

  lemma {:induction false} SumSame(ss: seq<nat>, c: nat)
    requires forall i :: 0 <= i < |ss| ==> ss[i] == c
    ensures Sum(ss) == |ss| * c
  {
    if ss != [] { SumSame(ss[1..], c); }
  }

  /** request2size in 32 bits. */
  function Request2Word(bytes: nat): nat { Request2Size(bytes) % WORD }

  function Add32(a: nat, b: nat): nat { (a + b) % WORD }

  function Mul32(n: nat, e: nat): nat { n * e % WORD }

  lemma Add32Word(a: nat, b: nat)
    ensures Add32(a % WORD, b % WORD) == (a + b) % WORD
  {
  }

  lemma Mul32Word(n: nat, e: nat)
    ensures Mul32(n, e % WORD) == n * e % WORD
  {
    var q, r := e / WORD, e % WORD;
    Spread32(n, q, r);
    ManyWords(n * r, n * q);
  }

  lemma Spread32(n: nat, q: nat, r: nat)
    ensures n * (WORD * q + r) == n * r + WORD * (n * q)
  {
  }

  lemma ManyWords(x: nat, k: nat)
    ensures (x + WORD * k) % WORD == x % WORD
  {
  }

  /** contents_size, which may wrap around. */
  method ContentsSize(n: nat, same: bool, sizes: seq<nat>) returns (elementSize: nat, contentsSize: nat)
    requires if same then |sizes| > 0 else |sizes| == n
    ensures contentsSize == Sum(Needs(n, same, sizes)) % WORD
    ensures elementSize == if same then Request2Word(sizes[0]) else 0
  {
    hide Request2Size, Add32, Mul32;
    ghost var needs := Needs(n, same, sizes);
    if same {
      elementSize := Request2Word(sizes[0]);
      contentsSize := Mul32(n, elementSize);
      SumSame(needs, Request2Size(sizes[0]));
      Mul32Word(n, Request2Size(sizes[0]));
    } else {
      elementSize := 0;
      contentsSize := 0;
      for i := 0 to n
        invariant contentsSize == Sum(needs[..i]) % WORD
      {
        assert needs[..i + 1] == needs[..i] + [needs[i]];
        SumAppend(needs[..i], needs[i]);
        Add32Word(Sum(needs[..i]), needs[i]);
        contentsSize := Add32(contentsSize, Request2Word(sizes[i]));
      }
      assert needs[..n] == needs;
    }
  }

  // words and cleared payloads

  function Word(m: Mem, a: nat): nat
    requires a >= 4
  {
    if a % 8 == 0 then Lo(m, a) else Hi(m, a - 4)
  }

  function SetWord(m: Mem, a: nat, v: nat): Mem
    requires a >= 4
  {
    if a % 8 == 0 then SetLo(m, a, v) else SetHi(m, a - 4, v)
  }

  lemma SetWordOutside(m: Mem, a: nat, v: nat)
    requires a % 4 == 0 && a >= 4
    ensures WordsOutside(m, SetWord(m, a, v), a, a + 4) && Word(SetWord(m, a, v), a) == v
  {
  }

  lemma SetHeadOutside(m: Mem, p: nat, v: nat)
    requires p % 8 == 0
    ensures WordsOutside(m, SetHead(m, p, v), p + 4, p + 8)
  {
  }

  lemma LaneBelow(i: nat, r: nat, j: nat)
    requires r < 8
    ensures 8 * i + r < 4 * j ==> (r < 4 ==> 8 * i + 4 <= 4 * j) && (r >= 4 ==> 8 * i + 8 <= 4 * j)
    ensures 8 * i + r >= 4 * j ==> (r < 4 ==> 8 * i >= 4 * j) && (r >= 4 ==> 8 * i + 4 >= 4 * j)
  {
  }

  lemma ByteOutside(m: Mem, m': Mem, lo: nat, hi: nat, x: nat)
    requires WordsOutside(m, m', lo, hi) && lo % 4 == 0 && hi % 4 == 0 && (x < lo || x >= hi)
    ensures Byte(m', x) == Byte(m, x)
  {
    hide Digit;
    LaneBelow(x / 8, x % 8, lo / 4);
    LaneBelow(x / 8, x % 8, hi / 4);
  }

  lemma ZeroedOutside(m: Mem, m': Mem, lo: nat, hi: nat, a: nat, count: nat)
    requires WordsOutside(m, m', lo, hi) && lo % 4 == 0 && hi % 4 == 0 && (a + count <= lo || a >= hi)
    requires Zeroed(m, a, count)
    ensures Zeroed(m', a, count)
  {
    hide Byte, WordsOutside;
    forall x: nat | a <= x < a + count ensures Byte(m', x) == 0 { ByteOutside(m, m', lo, hi, x); }
  }

  /** The payloads of consecutive pieces are zero. */
  ghost predicate PiecesZeroed(m: Mem, p: nat, ss: seq<nat>)
    decreases ss
  {
    ss == [] || (ss[0] >= 4 && Zeroed(m, p + 8, ss[0] - 4) && PiecesZeroed(m, p + ss[0], ss[1..]))
  }

  lemma {:induction false} PiecesZeroedOutside(m: Mem, m': Mem, lo: nat, hi: nat, p: nat, ss: seq<nat>)
    requires WordsOutside(m, m', lo, hi) && lo % 4 == 0 && hi % 4 == 0 && PiecesZeroed(m, p, ss)
    requires p + Sum(ss) + 4 <= lo || hi <= p + 8
    ensures PiecesZeroed(m', p, ss)
    decreases ss
  {
    hide Zeroed, WordsOutside;
    if ss != [] {
      ZeroedOutside(m, m', lo, hi, p + 8, ss[0] - 4);
      PiecesZeroedOutside(m, m', lo, hi, p + ss[0], ss[1..]);
    }
  }

  lemma {:induction false} PiecesZeroedAppend(m: Mem, p: nat, ss: seq<nat>, s: nat)
    requires PiecesZeroed(m, p, ss) && s >= 4 && Zeroed(m, p + Sum(ss) + 8, s - 4)
    ensures PiecesZeroed(m, p, ss + [s])
    decreases ss
  {
    hide Zeroed;
    if ss == [] {
      assert (ss + [s])[1..] == [];
    } else {
      assert (ss + [s])[1..] == ss[1..] + [s];
      PiecesZeroedAppend(m, p + ss[0], ss[1..], s);
    }
  }

  lemma ZeroedPart(m: Mem, a: nat, count: nat, b: nat, part: nat)
    requires Zeroed(m, a, count) && a <= b && b + part <= a + count
    ensures Zeroed(m, b, part)
  {
  }

  // the state while elements are split out

  /** The pointer array's first entries. */
  ghost predicate Stored(m: Mem, marray: nat, elements: seq<nat>) {
    marray % 4 == 0 && marray >= 4 && forall i: nat {:trigger elements[i]} ::
      i < |elements| ==> Word(m, marray + 4 * i) == elements[i]
  }

  lemma StoredOutside(m: Mem, m': Mem, lo: nat, hi: nat, marray: nat, elements: seq<nat>)
    requires WordsOutside(m, m', lo, hi) && Stored(m, marray, elements)
    requires (hi <= marray || marray + 4 * |elements| <= lo)
    ensures Stored(m', marray, elements)
  {
    hide Word, WordsOutside;
    forall i: nat | i < |elements| ensures Word(m', marray + 4 * i) == elements[i] {
      FourMore(marray, i);
      WordOutside(m, m', lo, hi, marray + 4 * i);
    }
  }

  lemma WordOutside(m: Mem, m': Mem, lo: nat, hi: nat, a: nat)
    requires WordsOutside(m, m', lo, hi) && a % 4 == 0 && a >= 4 && (a + 4 <= lo || hi <= a)
    ensures Word(m', a) == Word(m, a)
  {
  }

  ghost predicate Pointers(elements: seq<nat>, p: nat, ss: seq<nat>) {
    |elements| == |ss| && forall i {:trigger elements[i]} ::
      0 <= i < |ss| ==> elements[i] == ChunkToMem(p + Sum(ss[..i]))
  }

  lemma PointersAppend(elements: seq<nat>, p: nat, ss: seq<nat>, s: nat)
    requires Pointers(elements, p, ss)
    ensures Pointers(elements + [ChunkToMem(p + Sum(ss))], p, ss + [s])
  {
    hide Sum;
    forall i | 0 <= i < |ss| ensures (ss + [s])[..i] == ss[..i] { }
    assert (ss + [s])[..|ss|] == ss;
  }

  ghost predicate StillLive(live: map<nat, nat>, l: Layout) {
    forall q {:trigger q in live} :: q in live ==> q in Live(l) && Live(l)[q] == live[q]
  }

  lemma HeadKeeps(m: MallocState, p: nat, rem: nat, b: nat, v: nat, live: map<nat, nat>, m0: Mem, m1: Mem)
    requires Partial(m, p, rem) && b in m.view.l.chunks && StillLive(live, m.view.l) && Quiet(live, m0, m1)
    ensures Quiet(live, m0, SetHead(m1, b, v))
  {
    hide Quiet, Steady, SmallReady, TreeReady, Tagged, Binned, SetHead;
    HeadQuiet(m.view.l, m1, b, v, live);
    QuietTransitive(live, m0, m1, SetHead(m1, b, v));
  }

  /** Elements of sizes `done` are split out of the segment of v1 from p0 on; p is what is left of the chunk. */
  ghost predicate Carving(m: MallocState, v1: View, live0: map<nat, nat>, extra: map<nat, nat>, m0: Mem, p0: nat,
          done: seq<nat>, p: nat, rem: nat)
    reads m
  {
    && Partial(m, p, rem) && p == p0 + Sum(done) && m.view.l.first == v1.l.first && m.view.l.end == v1.l.end
    && SameLists(v1, m.view)
    && Live(m.view.l) == (live0 + extra + PieceMap(p0, done))[p := rem]
    && StillLive(live0, m.view.l) && p !in live0 && Quiet(live0, m0, m.mem)
  }

  lemma UpdateTwice(x: map<nat, nat>, y: map<nat, nat>, pm: map<nat, nat>, p: nat, rem: nat, size: nat)
    ensures (x + y + pm)[p := rem][p := size] == x + y + pm[p := size]
  {
  }

  /** One turn of the loop: split out an element. */
  method NextPiece(m: MallocState, p: nat, size: nat, ghost rem: nat, ghost v1: View, ghost live0: map<nat, nat>,
          ghost extra: map<nat, nat>, ghost m0: Mem, ghost p0: nat, ghost done: seq<nat>)
    requires Carving(m, v1, live0, extra, m0, p0, done, p, rem) && size >= 16 && size % 8 == 0 && size + 16 <= rem
    modifies m`mem, m`view
    ensures Carving(m, v1, live0, extra, m0, p0, done + [size], p + size, rem - size)
    ensures m.mem == SetHead(old(m.mem), p, size + 3) && p % 8 == 0
    ensures forall q {:trigger q in Live(m.view.l)} :: q in old(Live(m.view.l)) && q != p ==>
      q in Live(m.view.l) && Live(m.view.l)[q] == old(Live(m.view.l)[q])
  {
    hide Quiet, Steady, Core, SetHead, Partial, PieceMap, Live;
    PartialOutside(m, p, rem);
    ghost var before, mem0 := Live(m.view.l), m.mem;
    TakePiece(m, p, size, rem);
    SumAppend(done, size);
    PieceMapAppend(p0, done, size);
    CarvedLive(live0, extra, PieceMap(p0, done), before, p, rem, size);
    LivePiece(m.view.l, p);
    HeadKeeps(m, p + size, rem - size, p, size + 3, live0, m0, mem0);
  }

  lemma CarvedLive(live0: map<nat, nat>, extra: map<nat, nat>, pieces: map<nat, nat>, before: map<nat, nat>, p: nat,
          rem: nat, size: nat)
    requires before == (live0 + extra + pieces)[p := rem] && p !in live0 && size > 0 && p + size !in before
    requires forall q {:trigger q in live0} :: q in live0 ==> q in before && before[q] == live0[q]
    ensures before[p := size][p + size := rem - size] == (live0 + extra + pieces[p := size])[p + size := rem - size]
    ensures p + size !in live0
    ensures var after := before[p := size][p + size := rem - size];
      && (forall q {:trigger q in live0} :: q in live0 ==> q in after && after[q] == live0[q])
      && (forall q {:trigger q in after} :: q in before && q != p ==> q in after && after[q] == before[q])
  {
    UpdateTwice(live0, extra, pieces, p, rem, size);
  }

  lemma LivePiece(l: Layout, p: nat)
    ensures p in Live(l) ==> p in l.chunks
  {
  }

  lemma SetWordCommutes(m: Mem, p: nat, x: nat, a: nat, v: nat)
    requires a >= 4 && (a % 8 == 0 || a - 4 != p)
    ensures SetHead(SetWord(m, a, v), p, x) == SetWord(SetHead(m, p, x), a, v)
  {
    if a % 8 != 0 { assert m.high[a - 4 := v][p := x] == m.high[p := x][a - 4 := v]; }
  }

  lemma OtherChunk(st: Store, sb: nat, v: View, loose: set<nat>, p: nat, ac: nat)
    requires Core(st, sb, v, loose) && p in v.l.chunks && ac in Live(v.l) && ac != p
    ensures ac in v.l.chunks && v.l.chunks[ac].inuse && Next(v.l, ac) == ac + Live(v.l)[ac] && ac % 8 == 0 && Tiled(v.l)
    ensures Next(v.l, p) <= ac || Next(v.l, ac) <= p
  {
    hide SmallReady, TreeReady, Tagged, Binned;
    assert FitsAt(v.l, ac) && ApartAt(v.l, p, ac) && ApartAt(v.l, ac, p);
  }

  lemma FourMore(a: nat, i: nat)
    requires a % 4 == 0
    ensures (a + 4 * i) % 4 == 0
  {
  }

  /** Store a pointer in the array, which lies in the live chunk ac, elsewhere than p. */
  method StorePointer(m: MallocState, a: nat, v: nat, ghost ac: nat, ghost p: nat, ghost rem: nat,
          ghost live0: map<nat, nat>, ghost m0: Mem)
    requires Partial(m, p, rem) && ac in Live(m.view.l) && ac != p && a % 4 == 0 && ac + 8 <= a
    requires a <= ac + Live(m.view.l)[ac]
    requires StillLive(live0, m.view.l) && ac !in live0 && Quiet(live0, m0, m.mem)
    modifies m`mem
    ensures Partial(m, p, rem) && Quiet(live0, m0, m.mem) && m.mem == SetWord(old(m.mem), a, v)
  {
    hide Quiet, Steady, SetWord, Core, WordsOutside, SetHead;
    ghost var st, mem0 := m.St().(mem := SetHead(m.mem, p, rem + 3)), m.mem;
    OtherChunk(st, m.sb, m.view, m.Resting(), p, ac);
    SetWordCommutes(m.mem, p, rem + 3, a, v);
    SetWordOutside(m.mem, a, v);
    SetWordOutside(st.mem, a, v);
    CoreUserWrites(st, m.sb, m.view, m.Resting(), ac, a, a + 4, SetWord(st.mem, a, v));
    UserQuiet(m.view.l, ac, a, a + 4, m.mem, SetWord(m.mem, a, v));
    m.mem := SetWord(m.mem, a, v);
    QuietFewer(Live(m.view.l) - {ac}, live0, mem0, m.mem);
    QuietTransitive(live0, m0, mem0, m.mem);
  }

  lemma StoredAppend(m: Mem, m': Mem, marray: nat, elements: seq<nat>, v: nat)
    requires Stored(m, marray, elements) && m' == SetWord(m, marray + 4 * |elements|, v)
    ensures Stored(m', marray, elements + [v])
  {
    hide SetWord, Word, WordsOutside;
    var a := marray + 4 * |elements|;
    FourMore(marray, |elements|);
    SetWordOutside(m, a, v);
    StoredOutside(m, m', a, a + 4, marray, elements);
  }

  /** The bytes of the block at ac are those of m0, but for the ones in [lo, hi). */
  ghost predicate KeptBut(m0: Mem, m: Mem, ac: nat, room: nat, lo: nat, hi: nat) {
    forall x: nat {:trigger Byte(m, x)} :: ac + 8 <= x < ac + room + 4 && !(lo <= x < hi) ==> Byte(m, x) == Byte(m0, x)
  }

  lemma KeptButOutside(m0: Mem, m: Mem, m': Mem, ac: nat, room: nat, lo: nat, hi: nat, a: nat, b: nat)
    requires KeptBut(m0, m, ac, room, lo, hi) && WordsOutside(m, m', a, b) && a % 4 == 0 && b % 4 == 0
    requires (lo <= a && b <= hi) || b <= ac + 8 || ac + room + 4 <= a
    ensures KeptBut(m0, m', ac, room, lo, hi)
  {
    hide Byte, WordsOutside;
    forall x: nat | ac + 8 <= x < ac + room + 4 && !(lo <= x < hi) ensures Byte(m', x) == Byte(m0, x) {
      ByteOutside(m, m', a, b, x);
    }
  }

  /** What the splitting of one chunk is about: the state after the allocation; the blocks and the memory before it,
      without the block that holds the pointer array; that block, of `room` bytes at ac, either split off the chunk
      (`own`) or the caller's; the array of n pointers in it; the first element; and whether the elements are to be
      zero. */
  datatype Cut = Cut(v1: View, live0: map<nat, nat>, m0: Mem, p0: nat, own: bool, clear: bool, ac: nat, room: nat,
    marray: nat, n: nat)

  ghost predicate Filling(m: Mem, c: Cut, elements: seq<nat>, done: seq<nat>, p: nat, rem: nat) {
    && Stored(m, c.marray, elements)
    && (!c.own ==> KeptBut(c.m0, m, c.ac, c.room, c.marray, c.marray + 4 * c.n))
    && (c.clear ==> PiecesZeroed(m, c.p0, done) && rem >= 4 && Zeroed(m, p + 8, rem - 4))
  }

  /** The array lies in its block, and that apart from [p0, e). */
  ghost predicate ArrayPlaced(c: Cut, e: nat) {
    && c.marray % 4 == 0 && c.ac + 8 <= c.marray && c.marray + 4 * c.n <= c.ac + c.room + 4
    && (e <= c.ac || c.ac + c.room <= c.p0) && c.room > 0 && c.ac !in c.live0
    && (c.own ==> c.ac == e)
  }

  lemma FillingStored(m: Mem, c: Cut, elements: seq<nat>, done: seq<nat>, p: nat, rem: nat, v: nat)
    requires Filling(m, c, elements, done, p, rem) && ArrayPlaced(c, p + rem) && p == c.p0 + Sum(done)
    requires |elements| < c.n
    ensures Filling(SetWord(m, c.marray + 4 * |elements|, v), c, elements + [v], done, p, rem)
  {
    hide SetWord, WordsOutside, Stored, Zeroed, PiecesZeroed, KeptBut, Sum;
    var a := c.marray + 4 * |elements|;
    FourMore(c.marray, |elements|);
    SetWordOutside(m, a, v);
    StoredAppend(m, SetWord(m, a, v), c.marray, elements, v);
    if !c.own { KeptButOutside(c.m0, m, SetWord(m, a, v), c.ac, c.room, c.marray, c.marray + 4 * c.n, a, a + 4); }
    if c.clear {
      ZeroedOutside(m, SetWord(m, a, v), a, a + 4, p + 8, rem - 4);
      PiecesZeroedOutside(m, SetWord(m, a, v), a, a + 4, c.p0, done);
    }
  }

  lemma Quarters(p: nat)
    requires p % 8 == 0
    ensures (p + 4) % 4 == 0 && (p + 8) % 4 == 0
  {
    var k := p / 8;
    Fours(2 * k + 1);
    Fours(2 * k + 2);
  }

  lemma Fours(k: nat)
    ensures 4 * k % 4 == 0
  {
  }

  lemma ClearedHead(m: Mem, m': Mem, p0: nat, done: seq<nat>, p: nat, rem: nat, size: nat, lo: nat, hi: nat)
    requires WordsOutside(m, m', lo, hi) && lo % 4 == 0 && hi % 4 == 0 && lo == p + 4 && hi == p + 8
    requires 16 <= size <= rem && PiecesZeroed(m, p0, done) && Zeroed(m, p + 8, rem - 4) && p == p0 + Sum(done)
    ensures PiecesZeroed(m', p0, done + [size])
    ensures size + 4 <= rem ==> Zeroed(m', p + size + 8, rem - size - 4)
  {
    hide WordsOutside, Zeroed, PiecesZeroed, Sum;
    ZeroedPart(m, p + 8, rem - 4, p + 8, size - 4);
    ZeroedOutside(m, m', lo, hi, p + 8, size - 4);
    PiecesZeroedOutside(m, m', lo, hi, p0, done);
    PiecesZeroedAppend(m', p0, done, size);
    if size + 4 <= rem {
      ZeroedPart(m, p + 8, rem - 4, p + size + 8, rem - size - 4);
      ZeroedOutside(m, m', lo, hi, p + size + 8, rem - size - 4);
    }
  }

  /** Writing the head of the chunk at p: `size` of its bytes are an element now. */
  lemma FillingHead(m: Mem, c: Cut, elements: seq<nat>, done: seq<nat>, p: nat, rem: nat, size: nat, v: nat)
    requires Filling(m, c, elements, done, p, rem) && p % 8 == 0 && p == c.p0 + Sum(done) && 16 <= size <= rem
    requires ArrayPlaced(c, p + rem) && |elements| <= c.n
    ensures Stored(SetHead(m, p, v), c.marray, elements)
    ensures !c.own ==> KeptBut(c.m0, SetHead(m, p, v), c.ac, c.room, c.marray, c.marray + 4 * c.n)
    ensures c.clear ==> PiecesZeroed(SetHead(m, p, v), c.p0, done + [size])
    ensures size + 4 <= rem ==> Filling(SetHead(m, p, v), c, elements, done + [size], p + size, rem - size)
  {
    hide SetHead, WordsOutside, Stored, Zeroed, PiecesZeroed, KeptBut, Sum;
    SetHeadOutside(m, p, v);
    Quarters(p);
    StoredOutside(m, SetHead(m, p, v), p + 4, p + 8, c.marray, elements);
    if !c.own { KeptButOutside(c.m0, m, SetHead(m, p, v), c.ac, c.room, c.marray, c.marray + 4 * c.n, p + 4, p + 8); }
    if c.clear { ClearedHead(m, SetHead(m, p, v), c.p0, done, p, rem, size, p + 4, p + 8); }
  }

  ghost predicate Splitting(m: MallocState, c: Cut, elements: seq<nat>, done: seq<nat>, p: nat, rem: nat)
    reads m
  {
    && Carving(m, c.v1, c.live0, map[c.ac := c.room], c.m0, c.p0, done, p, rem)
    && Filling(m.mem, c, elements, done, p, rem)
    && ArrayPlaced(c, p + rem) && c.ac in Live(m.view.l) && Live(m.view.l)[c.ac] == c.room
  }

  /** Enter the address of the next element in the array. */
  method NotePointer(m: MallocState, marray: nat, elements: seq<nat>, p: nat, ghost c: Cut, ghost done: seq<nat>,
          ghost rem: nat)
        returns (r: seq<nat>)
    requires Splitting(m, c, elements, done, p, rem) && marray == c.marray && |elements| < c.n && rem > 0
    modifies m`mem
    ensures Splitting(m, c, r, done, p, rem) && r == elements + [ChunkToMem(p)] && m.view == old(m.view)
  {
    hide Quiet, Steady, Core, SetWord, Partial, PieceMap, Sum, Filling;
    r := elements + [ChunkToMem(p)];
    ghost var mem0 := m.mem;
    FourMore(marray, |elements|);
    StorePointer(m, marray + 4 * |elements|, ChunkToMem(p), c.ac, p, rem, c.live0, c.m0);
    FillingStored(mem0, c, elements, done, p, rem, ChunkToMem(p));
  }

  /** The rest of one turn of the loop. */
  method SplitElement(m: MallocState, p: nat, size: nat, ghost c: Cut, ghost elements: seq<nat>, ghost done: seq<nat>,
          ghost rem: nat)
    requires Splitting(m, c, elements, done, p, rem) && size >= 16 && size % 8 == 0 && size + 16 <= rem
    requires |elements| <= c.n
    modifies m`mem, m`view
    ensures Splitting(m, c, elements, done + [size], p + size, rem - size)
  {
    hide Quiet, Steady, Core, SetHead, Partial, PieceMap, Sum, Filling;
    ghost var mem0 := m.mem;
    NextPiece(m, p, size, rem, c.v1, c.live0, map[c.ac := c.room], c.m0, c.p0, done);
    FillingHead(mem0, c, elements, done, p, rem, size, size + 3);
  }

  /** All of the chunk is split into the elements ss, as `elements` tells. */
  ghost predicate SplitUp(m: MallocState, c: Cut, elements: seq<nat>, ss: seq<nat>)
    reads m
  {
    && m.Settled() && m.view.l.first == c.v1.l.first && m.view.l.end == c.v1.l.end && SameLists(c.v1, m.view)
    && Live(m.view.l) == c.live0 + map[c.ac := c.room] + PieceMap(c.p0, ss) && StillLive(c.live0, m.view.l)
    && Quiet(c.live0, c.m0, m.mem)
    && Pointers(elements, c.p0, ss)
    && Stored(m.mem, c.marray, elements) && c.ac in Live(m.view.l) && Live(m.view.l)[c.ac] == c.room
    && (!c.own ==> KeptBut(c.m0, m.mem, c.ac, c.room, c.marray, c.marray + 4 * c.n))
    && (c.clear ==> PiecesZeroed(m.mem, c.p0, ss))
  }

  /** The final element absorbs any overallocation slop. */
  method LastElement(m: MallocState, p: nat, rem: nat, ghost c: Cut, ghost elements: seq<nat>, ghost done: seq<nat>)
    requires Splitting(m, c, elements, done, p, rem) && Pointers(elements, c.p0, done + [rem]) && |elements| <= c.n
    modifies m`mem
    ensures SplitUp(m, c, elements, done + [rem])
  {
    hide Quiet, Steady, Core, SetHead, PieceMap, Sum, Filling, Stored, KeptBut;
    ghost var mem0 := m.mem;
    PartialOutside(m, p, rem);
    PieceMapAppend(c.p0, done, rem);
    MergeUpdate(c.live0 + map[c.ac := c.room], PieceMap(c.p0, done), p, rem);
    HeadKeeps(m, p, rem, p, rem + 3, c.live0, c.m0, mem0);
    FillingHead(mem0, c, elements, done, p, rem, rem, rem + 3);
    m.mem := SetHead(m.mem, p, rem + 3);
  }

  ghost predicate Fulfills(ss: seq<nat>, needs: seq<nat>) {
    |ss| == |needs| && forall i {:trigger ss[i]} {:trigger needs[i]} ::
      0 <= i < |ss| ==> needs[i] <= ss[i] && (i + 1 < |ss| ==> ss[i] == needs[i])
  }

  lemma StillRoom(needs: seq<nat>, i: nat, rem: nat)
    requires ChunkSizes(needs) && i + 1 < |needs| && Sum(needs[i..]) <= rem
    ensures needs[i] + 16 <= rem && Sum(needs[i + 1..]) <= rem - needs[i]
  {
    assert needs[i..][1..] == needs[i + 1..] && needs[i..][0] == needs[i];
    assert needs[i + 1..][0] == needs[i + 1];
    assert ChunkSizes(needs[i + 1..]);
    SumAligned(needs[i + 1..]);
  }

  lemma LastRoom(needs: seq<nat>, rem: nat)
    requires |needs| > 0 && Sum(needs[|needs| - 1..]) <= rem
    ensures needs[|needs| - 1] <= rem
  {
    assert needs[|needs| - 1..][0] == needs[|needs| - 1];
  }

  /** The loop that splits out elements. */
  method SplitElements(m: MallocState, p0: nat, room: nat, n: nat, elementSize: nat, same: bool, sizes: seq<nat>,
          marray: nat, ghost c: Cut)
        returns (elements: seq<nat>, ghost ss: seq<nat>)
    requires n > 0
    requires (if same then |sizes| > 0 && elementSize == Request2Size(sizes[0]) else |sizes| == n && elementSize == 0)
    requires Splitting(m, c, [], [], p0, room) && c.p0 == p0 && Sum(Needs(n, same, sizes)) <= room
    requires marray == c.marray && n == c.n
    modifies m`mem, m`view
    ensures SplitUp(m, c, elements, ss) && Fulfills(ss, Needs(n, same, sizes)) && Sum(ss) == room
  {
    hide Request2Size, Splitting, Sum, SplitUp, Pointers;
    ghost var needs := Needs(n, same, sizes);
    NeedsAreSizes(n, same, sizes);
    assert needs[0..] == needs;
    elements, ss := [], [];
    assert Pointers(elements, p0, ss) by { NoPointers(p0); }
    var p: nat, rem: nat, i := p0, room, 0;
    assert Sum(ss) == 0 by { NoSum(); }
    while i != n - 1
      invariant 0 <= i <= n - 1 && |elements| == i && ss == needs[..i]
      invariant Splitting(m, c, elements, ss, p, rem) && Pointers(elements, p0, ss)
      invariant Sum(needs[i..]) <= rem && p == p0 + Sum(ss) && Sum(ss) + rem == room
      decreases n - i
    {
      StillRoom(needs, i, rem);
      elements := NotePointer(m, marray, elements, p, c, ss, rem);
      PointersAppend(elements[..i], p0, ss, needs[i]);
      assert elements == elements[..i] + [ChunkToMem(p)];
      var size := if elementSize != 0 then elementSize else Request2Size(sizes[i]);
      assert size == needs[i] by { RequestPositive(sizes[if same then 0 else i]); }
      SplitElement(m, p, size, c, elements, ss, rem);
      SumAppend(ss, size);
      ss := ss + [size];
      p := p + size;
      rem := rem - size;
      i := i + 1;
    }
    LastRoom(needs, rem);
    elements := NotePointer(m, marray, elements, p, c, ss, rem);
    PointersAppend(elements[..i], p0, ss, rem);
    assert elements == elements[..i] + [ChunkToMem(p)];
    LastElement(m, p, rem, c, elements, ss);
    SumAppend(ss, rem);
    ss := ss + [rem];
  }

  lemma NoPointers(p: nat)
    ensures Pointers([], p, [])
  {
  }

  lemma NoSum()
    ensures Sum([]) == 0
  {
  }

  lemma RequestPositive(bytes: nat)
    ensures Request2Size(bytes) >= 16
  {
  }

  lemma SameHead(l: Layout, m: Mem, p: nat)
    requires Tiled(l) && Tagged(m, l) && p in l.chunks && l.chunks[p].inuse && l.chunks[p].pin
    ensures SetHead(m, p, l.chunks[p].size + 3) == m
  {
    assert TagAt(m, l, p) && FitsAt(l, p);
    assert m.high[p := Hi(m, p)] == m.high;
  }

  /** The chunk just allocated, seen as one whose head is still to be written. */
  lemma StartCarving(m: MallocState, core: LinearMemory, v0: View, m0: Mem, p: nat, nb: nat)
    requires Served(m, core, v0, m0, p, nb)
    ensures p in m.view.l.chunks && Carving(m, m.view, Live(v0.l), map[], m0, p, [], p, m.view.l.chunks[p].size)
    ensures m.view.l.chunks[p].size >= nb && p % 8 == 0
  {
    hide Quiet, Steady, SmallReady, TreeReady, Binned;
    SameHead(m.view.l, m.mem, p);
    assert FitsAt(m.view.l, p);
    assert m.St().(mem := m.mem) == m.St();
    assert Live(v0.l) + map[] + PieceMap(p, []) == Live(v0.l);
  }

  /** If not provided, the pointer array is the final part of the chunk. */
  method SplitArray(m: MallocState, p: nat, size: nat, contentsSize: nat, ghost v1: View, ghost live0: map<nat, nat>,
          ghost m0: Mem)
        returns (marray: nat)
    requires Carving(m, v1, live0, map[], m0, p, [], p, size) && 16 <= contentsSize && contentsSize % 8 == 0
    requires contentsSize + 16 <= size
    modifies m`mem, m`view
    ensures marray == ChunkToMem(p + contentsSize)
    ensures Carving(m, v1, live0, map[p + contentsSize := size - contentsSize], m0, p, [], p, contentsSize)
    ensures p + contentsSize in Live(m.view.l) && Live(m.view.l)[p + contentsSize] == size - contentsSize
    ensures p + contentsSize !in live0
    ensures m.mem == SetHead(old(m.mem), p + contentsSize, size - contentsSize + 3) && (p + contentsSize) % 8 == 0
  {
    hide Quiet, Steady, Core, SetHead, m.TopAndDv, Partial, PieceMap;
    PartialOutside(m, p, size);
    EightMore(p, contentsSize);
    ghost var mem0 := m.mem;
    var arrayChunk := p + contentsSize;
    var arrayChunkSize := size - contentsSize;
    marray := ChunkToMem(arrayChunk);
    TakeLastPiece(m, p, contentsSize, arrayChunkSize, size);
    LivePiece(m.view.l, arrayChunk);
    HeadKeeps(m, p, contentsSize, arrayChunk, arrayChunkSize + 3, live0, m0, mem0);
    ArrayMap(live0, p, size, contentsSize);
  }

  lemma ArrayMap(live0: map<nat, nat>, p: nat, size: nat, contents: nat)
    requires 0 < contents <= size
    ensures (live0 + map[] + PieceMap(p, []))[p := size][p := contents][p + contents := size - contents]
      == (live0 + map[p + contents := size - contents] + PieceMap(p, []))[p := contents]
  {
  }

  /** The caller's array of n pointers, if there is one, lies inside the live block at ac. */
  ghost predicate CallersArray(live: map<nat, nat>, ac: nat, chunks: nat, n: nat) {
    ac in live && live[ac] > 0 && chunks % 4 == 0 && ac + 8 <= chunks && chunks + 4 * n <= ac + live[ac] + 4
  }

  /** None of the pieces, nor the array behind them, was live before. */
  ghost predicate Anew(live: map<nat, nat>, p0: nat, ss: seq<nat>, own: bool) {
    (forall i: nat {:trigger Sum(ss[..i])} :: i < |ss| ==> p0 + Sum(ss[..i]) !in live)
      && (own ==> p0 + Sum(ss) !in live)
  }

  /** What independent_calloc and independent_comalloc deliver: consecutive live chunks of sizes ss from p0 on, each
      large enough, with their addresses in an array: the caller's, in his block at ac, of which nothing else is
      touched, or, if he has none (`own`), one in a live chunk right behind the elements; every other payload, and the
      order within every free list, as it was. */
  ghost predicate Delivered(m: MallocState, core: LinearMemory, v0: View, m0: Mem, needs: seq<nat>, own: bool, ac: nat,
          clear: bool, marray: nat, elements: seq<nat>, p0: nat, ss: seq<nat>)
    reads m, core
  {
    && Valid(m, core) && m.top != 0 && Fulfills(ss, needs) && Pointers(elements, p0, ss)
    && StillLive(Live(v0.l), m.view.l)
    && Stored(m.mem, marray, elements) && SteadySince(v0, m.view) && Anew(Live(v0.l), p0, ss, own)
    && (clear ==> PiecesZeroed(m.mem, p0, ss))
    && (if own then
          && ss == needs && marray == ChunkToMem(p0 + Sum(ss)) && Quiet(Live(v0.l), m0, m.mem)
          && p0 + Sum(ss) in Live(m.view.l) && 4 * |ss| + CHUNK_OVERHEAD <= Live(m.view.l)[p0 + Sum(ss)]
          && Live(m.view.l) == Live(v0.l) + map[p0 + Sum(ss) := Live(m.view.l)[p0 + Sum(ss)]] + PieceMap(p0, ss)
        else
          && Live(m.view.l) == Live(v0.l) + PieceMap(p0, ss) && Quiet(Live(v0.l) - {ac}, m0, m.mem)
          && ac in Live(v0.l) && KeptBut(m0, m.mem, ac, Live(v0.l)[ac], marray, marray + 4 * |ss|))
  }

  /** Set the carving up: zero what is to be zero, and split off the array. */
  method BeginSplit(m: MallocState, core: LinearMemory, p: nat, n: nat, contentsSize: nat, arraySize: nat, clear: bool,
          ghost v0: View, ghost m0: Mem, ghost nb: nat)
        returns (marray: nat, remainder: nat, ghost c: Cut)
    requires Served(m, core, v0, m0, p, nb) && contentsSize + arraySize <= nb && 16 <= contentsSize
    requires contentsSize % 8 == 0
    requires 16 <= arraySize && 4 * n + 4 <= arraySize
    modifies m`mem, m`view
    ensures Splitting(m, c, [], [], p, remainder) && contentsSize <= remainder
    ensures c.p0 == p && c.own && c.clear == clear && c.live0 == Live(v0.l) && c.m0 == m0 && c.n == n
    ensures c.v1.l.first == old(m.view.l.first) && c.v1.l.end == old(m.view.l.end) && SameLists(old(m.view), c.v1)
    ensures marray == c.marray == ChunkToMem(c.ac) && c.ac == p + remainder && c.room >= arraySize
    ensures p in old(m.view.l.chunks) && c.room == old(m.view.l.chunks[p].size) - contentsSize
    ensures p in old(m.view.l.chunks) && remainder == contentsSize < old(m.view.l.chunks[p].size)
  {
    hide Quiet, Steady, Core, SetHead, Partial, PieceMap, GrantGrown, Valid, Zeroed, WordsOutside, Live;
    StartCarving(m, core, v0, m0, p, nb);
    ghost var size := m.view.l.chunks[p].size;
    remainder := ChunkSize(m.mem, p);
    assert remainder == size by { OwnSizeServed(m, core, v0, m0, p, nb); }
    if clear {
      Clear(m, core, p, remainder - 4 - arraySize, v0, m0, nb);
      StartCarving(m, core, v0, m0, p, nb);
    }
    c := Cut(m.view, Live(v0.l), m0, p, true, clear, p + contentsSize, size - contentsSize,
      ChunkToMem(p + contentsSize), n);
    ghost var mem1 := m.mem;
    marray := SplitArray(m, p, remainder, contentsSize, m.view, Live(v0.l), m0);
    remainder := contentsSize;
    SetHeadOutside(mem1, p + contentsSize, size - contentsSize + 3);
    if clear {
      ZeroedPart(mem1, p + 8, size - 4 - arraySize, p + 8, contentsSize - 4);
      Quarters(p + contentsSize);
      ZeroedOutside(mem1, m.mem, p + contentsSize + 4, p + contentsSize + 8, p + 8, contentsSize - 4);
    }
    NothingStored(m.mem, p + contentsSize);
  }

  lemma ApartFromBlock(m: MallocState, core: LinearMemory, v0: View, m0: Mem, p: nat, nb: nat, ac: nat)
    requires Served(m, core, v0, m0, p, nb) && ac in Live(v0.l)
    ensures p in m.view.l.chunks && (p + m.view.l.chunks[p].size <= ac || ac + Live(v0.l)[ac] <= p) && ac != p
    ensures Live(v0.l)[ac] % 8 == 0 && ac % 8 == 0
    ensures KeptBut(m0, m.mem, ac, Live(v0.l)[ac], 0, 0)
  {
    hide Quiet, Steady, Byte;
    assert ac in Live(m.view.l);
    LiveApart(m.St(), m.sb, m.view, m.Resting(), p, ac);
    LiveFacts(m.St(), m.sb, m.view, m.Resting(), ac);
    KeptOf(Live(v0.l), m0, m.mem, ac);
    forall x: nat | ac + 8 <= x < ac + Live(v0.l)[ac] + 4 ensures Byte(m.mem, x) == Byte(m0, x) {
      PayloadByte(m0, m.mem, ac, Live(v0.l)[ac], x);
    }
  }

  lemma KeptButMore(m0: Mem, m: Mem, ac: nat, room: nat, lo: nat, hi: nat)
    requires KeptBut(m0, m, ac, room, 0, 0)
    ensures KeptBut(m0, m, ac, room, lo, hi)
  {
    hide Byte;
  }

  /** The carving of a served chunk, with the caller's array at hand. */
  lemma StartElsewhere(m: MallocState, core: LinearMemory, v0: View, m0: Mem, p: nat, nb: nat, ac: nat, chunks: nat,
          n: nat)
    requires Served(m, core, v0, m0, p, nb) && CallersArray(Live(v0.l), ac, chunks, n)
    ensures p in m.view.l.chunks && m.view.l.chunks[p].size >= nb && p % 8 == 0
    ensures var c := Cut(m.view, Live(v0.l) - {ac}, m0, p, false, false, ac, Live(v0.l)[ac], chunks, n);
      && Splitting(m, c, [], [], p, m.view.l.chunks[p].size)
  {
    hide Quiet, Steady, Core, Partial, SetHead, PieceMap, Valid, KeptBut, Live;
    StartCarving(m, core, v0, m0, p, nb);
    ApartFromBlock(m, core, v0, m0, p, nb, ac);
    KeptButMore(m0, m.mem, ac, Live(v0.l)[ac], chunks, chunks + 4 * n);
    QuietFewer(Live(v0.l), Live(v0.l) - {ac}, m0, m.mem);
    assert Live(v0.l) == Live(v0.l) - {ac} + map[ac := Live(v0.l)[ac]];
    WithoutExtra(Live(v0.l), ac, PieceMap(p, []), p, m.view.l.chunks[p].size);
  }

  lemma WithoutExtra(live: map<nat, nat>, ac: nat, pieces: map<nat, nat>, p: nat, rem: nat)
    requires ac in live && ac != p
    ensures (live + map[] + pieces)[p := rem] == (live - {ac} + map[ac := live[ac]] + pieces)[p := rem]
    ensures ac in (live + map[] + pieces)[p := rem]
  {
    assert live + map[] == live == live - {ac} + map[ac := live[ac]];
  }

  /** Set the carving up for the caller's array. */
  method BeginElsewhere(m: MallocState, core: LinearMemory, p: nat, n: nat, chunks: nat, clear: bool, ghost v0: View,
          ghost m0: Mem, ghost nb: nat, ghost ac: nat)
        returns (remainder: nat, ghost c: Cut)
    requires Served(m, core, v0, m0, p, nb) && 16 <= nb && CallersArray(Live(v0.l), ac, chunks, n)
    modifies m`mem, m`view
    ensures Splitting(m, c, [], [], p, remainder) && nb <= remainder
    ensures p in old(m.view.l.chunks) && remainder == old(m.view.l.chunks[p].size)
    ensures c.p0 == p && !c.own && c.clear == clear && c.live0 == Live(v0.l) - {ac} && c.m0 == m0 && c.n == n
    ensures c.v1 == old(m.view) && c.marray == chunks && c.ac == ac && c.room == Live(v0.l)[ac]
  {
    hide Quiet, Steady, Core, SetHead, PieceMap, GrantGrown, Valid, Zeroed, WordsOutside, Live, Carving, Stored,
      KeptBut;
    StartElsewhere(m, core, v0, m0, p, nb, ac, chunks, n);
    remainder := ChunkSize(m.mem, p);
    assert remainder == m.view.l.chunks[p].size by { OwnSizeServed(m, core, v0, m0, p, nb); }
    if clear {
      Clear(m, core, p, remainder - 4, v0, m0, nb);
      StartElsewhere(m, core, v0, m0, p, nb, ac, chunks, n);
    }
    c := Cut(m.view, Live(v0.l) - {ac}, m0, p, false, clear, ac, Live(v0.l)[ac], chunks, n);
  }

  lemma NothingStored(m: Mem, ac: nat)
    requires ac % 8 == 0
    ensures Stored(m, ChunkToMem(ac), []) && ChunkToMem(ac) % 4 == 0
  {
    WordAligned(ac);
  }

  lemma WordAligned(ac: nat)
    requires ac % 8 == 0
    ensures (ac + 8) % 4 == 0
  {
    assert ac + 8 == 4 * (2 * (ac / 8) + 2);
  }

  lemma OwnSizeServed(m: MallocState, core: LinearMemory, v0: View, m0: Mem, p: nat, nb: nat)
    requires Served(m, core, v0, m0, p, nb)
    ensures p in m.view.l.chunks && ChunkSize(m.mem, p) == m.view.l.chunks[p].size >= nb
  {
    InUseFacts(m.St(), m.sb, m.view, m.Resting(), p);
  }

  /** array_size. */
  function ArraySize(n: nat, own: bool): nat {
    if own then Request2Size(n * 4) else 0
  }

  lemma ArraySizeEnough(n: nat, own: bool)
    ensures ArraySize(n, own) % 8 == 0
    ensures (if own then ArraySize(n, own) >= 16 && 4 * n + 4 <= ArraySize(n, own) else ArraySize(n, own) == 0)
  {
  }

  lemma AggregateSize(size: nat)
    requires size % 8 == 0 && size >= 16
    ensures PaddedSize(size - CHUNK_OVERHEAD) == if size - CHUNK_OVERHEAD < MAX_REQUEST then size else MAX_SIZE
  {
  }

  /** What the elements, and the array if there is to be one, need in all. */
  function Aggregate(n: nat, same: bool, sizes: seq<nat>, own: bool): nat
    requires if same then |sizes| > 0 else |sizes| == n
  {
    Sum(Needs(n, same, sizes)) + ArraySize(n, own)
  }

  /** The chunk size ialloc looks for. */
  function AggregateNeed(n: nat, same: bool, sizes: seq<nat>, own: bool): nat
    requires if same then |sizes| > 0 else |sizes| == n
  {
    if n == 0 then MIN_CHUNK_SIZE
    else if Aggregate(n, same, sizes, own) - CHUNK_OVERHEAD < MAX_REQUEST then Aggregate(n, same, sizes, own)
    else MAX_SIZE
  }

  /** array_size and size as the code computes them, in 32 bits. */
  function ArrayWord(n: nat, own: bool): nat { if own then Request2Word(Mul32(n, 4)) else 0 }

  function AggregateWord(n: nat, same: bool, sizes: seq<nat>, own: bool): nat
    requires if same then |sizes| > 0 else |sizes| == n
  {
    Add32(Sum(Needs(n, same, sizes)) % WORD, ArrayWord(n, own))
  }

  /** The code asks for what is needed exactly when that fits in 32 bits, and otherwise for less. */
  lemma AggregateExact(n: nat, same: bool, sizes: seq<nat>, own: bool)
    requires if same then |sizes| > 0 else |sizes| == n
    ensures AggregateWord(n, same, sizes, own) == Aggregate(n, same, sizes, own) <==>
      Aggregate(n, same, sizes, own) < WORD
    ensures AggregateWord(n, same, sizes, own) <= Aggregate(n, same, sizes, own)
    ensures Aggregate(n, same, sizes, own) < WORD ==>
      Sum(Needs(n, same, sizes)) < WORD && ArrayWord(n, own) == ArraySize(n, own)
  {
    hide Needs, Sum, ArraySize, ArrayWord, Add32;
    ArrayExact(n, own);
    AddExact(Sum(Needs(n, same, sizes)), ArraySize(n, own), ArrayWord(n, own));
  }

  lemma ArrayExact(n: nat, own: bool)
    ensures ArrayWord(n, own) <= ArraySize(n, own)
    ensures ArraySize(n, own) < WORD ==> ArrayWord(n, own) == ArraySize(n, own)
  {
  }

  lemma AddExact(s: nat, a: nat, w: nat)
    requires w <= a && (a < WORD ==> w == a)
    ensures Add32(s % WORD, w) == s + a <==> s + a < WORD
    ensures Add32(s % WORD, w) <= s + a
  {
  }

  /** No sum wraps around. */
  lemma SizesFit(n: nat, same: bool, sizes: seq<nat>, own: bool)
    requires (if same then |sizes| > 0 else |sizes| == n) && n > 0 && Aggregate(n, same, sizes, own) < WORD
    ensures Sum(Needs(n, same, sizes)) % WORD == Sum(Needs(n, same, sizes))
    ensures same ==> Request2Word(sizes[0]) == Request2Size(sizes[0])
    ensures var size := AggregateWord(n, same, sizes, own);
      && size == Aggregate(n, same, sizes, own) >= 16
      && PaddedSize(size - CHUNK_OVERHEAD) == AggregateNeed(n, same, sizes, own)
      && (size - CHUNK_OVERHEAD < MAX_REQUEST ==> PaddedSize(size - CHUNK_OVERHEAD) == size)
  {
    hide Needs, Sum, ArraySize, ArrayWord, Add32, Request2Size, Request2Word, PaddedSize;
    AggregateExact(n, same, sizes, own);
    NeedsAreSizes(n, same, sizes);
    NeedsLength(n, same, sizes);
    ContentsAligned(Needs(n, same, sizes));
    ArraySizeEnough(n, own);
    EightMore(Sum(Needs(n, same, sizes)), ArraySize(n, own));
    AggregateSize(Aggregate(n, same, sizes, own));
    if same { ElementWord(n, same, sizes); }
  }

  /** An aggregate that does not fit: 0x10000001 elements of 12 bytes need 16 bytes each, and 16 are asked for. */
  lemma AggregateWraps()
    ensures AggregateWord(0x1000_0001, true, [12], false) == 16
    ensures Aggregate(0x1000_0001, true, [12], false) == 0x1_0000_0010
  {
    SumSame(Needs(0x1000_0001, true, [12]), 16);
  }

  lemma ElementWord(n: nat, same: bool, sizes: seq<nat>)
    requires if same then |sizes| > 0 else |sizes| == n
    requires n > 0 && same && Sum(Needs(n, same, sizes)) < WORD
    ensures Request2Word(sizes[0]) == Request2Size(sizes[0])
  {
    hide Request2Size;
    SumSame(Needs(n, same, sizes), Request2Size(sizes[0]));
    AtLeastOne(n, Request2Size(sizes[0]));
  }

  lemma AtLeastOne(n: nat, c: nat)
    requires n > 0
    ensures n * c >= c
  {
  }

  lemma ContentsAligned(needs: seq<nat>)
    requires ChunkSizes(needs) && |needs| > 0
    ensures Sum(needs) % 8 == 0 && Sum(needs) >= 16
  {
    SumAligned(needs);
  }

  /** Split the aggregate chunk at p. */
  method SplitAggregate(m: MallocState, core: LinearMemory, p: nat, n: nat, same: bool, sizes: seq<nat>,
          elementSize: nat, contentsSize: nat, chunks: nat, clear: bool, ghost v0: View, ghost m0: Mem, ghost ac: nat)
        returns (marray: nat, elements: seq<nat>, ghost ss: seq<nat>)
    requires n > 0
    requires (if same then |sizes| > 0 && elementSize == Request2Size(sizes[0]) else |sizes| == n && elementSize == 0)
    requires contentsSize == Sum(Needs(n, same, sizes))
    requires Served(m, core, v0, m0, p, contentsSize + ArraySize(n, chunks == NULL))
    requires chunks != NULL ==> CallersArray(Live(v0.l), ac, chunks, n)
    modifies m`mem, m`view
    ensures Delivered(m, core, v0, m0, Needs(n, same, sizes), chunks == NULL, ac, clear, marray, elements, p, ss)
    ensures chunks != NULL ==> marray == chunks
    ensures HeapOf(m) == old(HeapOf(m)).(l := m.view.l)
    ensures m.view.l.first == old(m.view.l.first) && m.view.l.end == old(m.view.l.end)
    ensures p in old(m.view.l.chunks)
    ensures var size := old(m.view.l.chunks[p].size);
      if chunks != NULL then Sum(ss) == size
      else p + contentsSize in Live(m.view.l) && Live(m.view.l)[p + contentsSize] + contentsSize == size
  {
    hide Quiet, Steady, Core, PieceMap, GrantGrown, Sum, Needs, Request2Size, ArraySize, Splitting, Pointers, Fulfills,
      Stored,
      PiecesZeroed, StillLive, KeptBut, Live, Anew;
    NeedsAreSizes(n, same, sizes);
    assert |Needs(n, same, sizes)| == n by { NeedsLength(n, same, sizes); }
    ContentsAligned(Needs(n, same, sizes));
    ArraySizeEnough(n, chunks == NULL);
    ghost var v1 := m.view;
    ghost var c: Cut;
    var remainder;
    InsideFresh(m, core, v0, m0, p, contentsSize + ArraySize(n, chunks == NULL));
    if chunks == NULL {
      marray, remainder, c := BeginSplit(m, core, p, n, contentsSize, ArraySize(n, true), clear, v0, m0,
        contentsSize + ArraySize(n, true));
    } else {
      marray := chunks;
      remainder, c := BeginElsewhere(m, core, p, n, chunks, clear, v0, m0, contentsSize, ac);
    }
    elements, ss := SplitElements(m, p, remainder, n, elementSize, same, sizes, marray, c);
    SegmentHolds(m, core, v1.l);
    if chunks == NULL { ExactlyExhausted(ss, Needs(n, same, sizes)); }
    PiecesAnew(Live(v0.l), p, ss, chunks == NULL, v1.l.chunks[p].size, Needs(n, same, sizes));
    SplitDelivers(m, core, v0, m0, Needs(n, same, sizes), chunks == NULL, ac, clear, marray, elements, p, ss, c);
  }

  /** The chunk just served holds nothing that was live before. */
  lemma InsideFresh(m: MallocState, core: LinearMemory, v0: View, m0: Mem, p: nat, nb: nat)
    requires Served(m, core, v0, m0, p, nb)
    ensures p in m.view.l.chunks
    ensures forall x {:trigger x in Live(v0.l)} :: p <= x < p + m.view.l.chunks[p].size ==> x !in Live(v0.l)
  {
    hide Quiet, Steady, Core;
    forall x | p <= x < p + m.view.l.chunks[p].size ensures x !in Live(v0.l) {
      if x in Live(v0.l) {
        LiveFacts(m.St(), m.sb, m.view, m.Resting(), x);
        LiveApart(m.St(), m.sb, m.view, m.Resting(), p, x);
      }
    }
  }

  lemma {:induction false} PrefixBelow(ss: seq<nat>, i: nat)
    requires i < |ss| && (forall j {:trigger ss[j]} :: 0 <= j < |ss| ==> ss[j] > 0)
    ensures Sum(ss[..i]) < Sum(ss)
  {
    SumSplit(ss, i);
    assert ss[i..][0] == ss[i];
  }

  lemma PiecesAnew(live: map<nat, nat>, p0: nat, ss: seq<nat>, own: bool, size: nat, needs: seq<nat>)
    requires Fulfills(ss, needs) && ChunkSizes(needs) && Sum(ss) <= size && (own ==> Sum(ss) < size)
    requires forall x {:trigger x in live} :: p0 <= x < p0 + size ==> x !in live
    ensures Anew(live, p0, ss, own)
  {
    hide Sum;
    forall i: nat | i < |ss| ensures p0 + Sum(ss[..i]) !in live { PrefixBelow(ss, i); }
  }

  lemma NeedsLength(n: nat, same: bool, sizes: seq<nat>)
    requires if same then |sizes| > 0 else |sizes| == n
    ensures |Needs(n, same, sizes)| == n
  {
  }

  /** With an array of its own the last element exhausts what is left exactly. */
  lemma {:induction false} ExactlyExhausted(ss: seq<nat>, needs: seq<nat>)
    requires Fulfills(ss, needs) && Sum(ss) == Sum(needs) && |needs| > 0
    ensures ss == needs
  {
    hide Sum;
    var i := |ss| - 1;
    SumSplit(ss, i);
    SumSplit(needs, i);
    assert ss[..i] == needs[..i];
    assert ss[i..] == [ss[i]] && needs[i..] == [needs[i]];
    SumOne(ss[i]);
    SumOne(needs[i]);
  }

  lemma SumOne(s: nat)
    ensures Sum([s]) == s
  {
    assert Sum([s]) == s + Sum([]);
  }

  lemma SplitDelivers(m: MallocState, core: LinearMemory, v0: View, m0: Mem, needs: seq<nat>, own: bool, ac: nat,
          clear: bool, marray: nat, elements: seq<nat>, p0: nat, ss: seq<nat>, c: Cut)
    requires Valid(m, core) && m.top != 0 && SplitUp(m, c, elements, ss) && Fulfills(ss, needs)
    requires SteadySince(v0, m.view)
    requires own ==> ss == needs
    requires Anew(Live(v0.l), p0, ss, own)
    requires c.p0 == p0 && c.own == own && c.clear == clear && c.m0 == m0 && marray == c.marray && c.n == |needs|
    requires own ==>
      c.live0 == Live(v0.l) && marray == ChunkToMem(c.ac) && c.ac == p0 + Sum(ss)
        && c.room >= 4 * |needs| + CHUNK_OVERHEAD
    requires !own ==> c.ac == ac && ac in Live(v0.l) && c.room == Live(v0.l)[ac] && c.live0 == Live(v0.l) - {ac}
    ensures Delivered(m, core, v0, m0, needs, own, ac, clear, marray, elements, p0, ss)
  {
    hide Quiet, Steady, Valid, PieceMap, Sum, Pointers, Stored, PiecesZeroed, m.Settled, KeptBut, Live, Anew;
    assert !own ==> Live(v0.l) == Live(v0.l) - {ac} + map[ac := Live(v0.l)[ac]];
  }

  lemma LeastSize()
    ensures PaddedSize(0) == MIN_CHUNK_SIZE
  {
  }

  /** The sizes of the pieces: what each element needs, and what is left for the array, or, if there is none, for the
      last element. */
  ghost function PieceSizes(needs: seq<nat>, own: bool, size: nat): seq<nat> {
    if own then needs + [Gap(Sum(needs), size)]
    else if needs == [] then []
    else needs[..|needs| - 1] + [Gap(Sum(needs[..|needs| - 1]), size)]
  }

  /** h' is h with the in-use chunk at p cut into pieces of sizes ss. */
  ghost predicate CutUp(h: Heap, p: nat, ss: seq<nat>, h': Heap) {
    && h' == h.(l := h'.l) && Tiled(h'.l) && h'.l.first == h.l.first && h'.l.end == h.l.end
    && Live(h'.l) == Live(h.l) - {p} + PieceMap(p, ss)
  }

  /** ialloc: one chunk for everything, cut up. */
  ghost predicate IallocStep(s: Machine, n: nat, same: bool, sizes: seq<nat>, chunks: nat, marray: nat,
          elements: seq<nat>, s': Machine)
    requires if same then |sizes| > 0 else |sizes| == n
  {
    if n == 0 then
      if chunks == NULL then MallocStep(s, MIN_CHUNK_SIZE, marray, s') else marray == chunks && s' == s
    else
      var nb := AggregateNeed(n, same, sizes, chunks == NULL);
      var h, raw := MallocHeap(Primed(s), nb, s'.room), MallocAnswer(Primed(s), nb, s'.room);
      && MallocStep(s, nb, raw, Machine(h, s'.room))
      && (if raw < 8 then marray == NULL && s'.heap == h
          else
            var p, needs := MemToChunk(raw), Needs(n, same, sizes);
            && p in Live(h.l) && CutUp(h, p, PieceSizes(needs, chunks == NULL, Live(h.l)[p]), s'.heap)
            && marray == (if chunks == NULL then ChunkToMem(p + Sum(needs)) else chunks)
            && Pointers(elements, p, needs))
  }

  lemma CutReady(m: MallocState, core: LinearMemory, v0: View, m0: Mem, p: nat, nb: nat)
    requires Served(m, core, v0, m0, p, nb)
    ensures p in m.view.l.chunks && p in Live(m.view.l) && Live(m.view.l)[p] == m.view.l.chunks[p].size
    ensures Live(m.view.l) - {p} == Live(v0.l)
  {
    hide Quiet, Steady, Valid;
  }

  /** The pieces that were delivered are those that are left. */
  lemma PiecesAre(ss: seq<nat>, needs: seq<nat>, size: nat)
    requires Fulfills(ss, needs) && |needs| > 0 && Sum(ss) == size
    ensures ss == PieceSizes(needs, false, size)
  {
    hide Sum;
    var k := |needs| - 1;
    assert ss[..k] == needs[..k];
    assert ss == ss[..k] + [ss[k]];
    SumAppend(ss[..k], ss[k]);
  }

  lemma SamePointers(elements: seq<nat>, p: nat, ss: seq<nat>, needs: seq<nat>)
    requires Pointers(elements, p, ss) && Fulfills(ss, needs)
    ensures Pointers(elements, p, needs)
  {
    hide Sum;
    forall i | 0 <= i < |needs| ensures ss[..i] == needs[..i] { }
  }

  lemma LastKey(live: map<nat, nat>, pieces: map<nat, nat>, k: nat, x: nat, all: map<nat, nat>)
    requires all == live + map[k := x] + pieces && k in all && all[k] == x
    ensures all == live + pieces[k := x]
  {
  }

  lemma CutUpNow(m: MallocState, core: LinearMemory, h: Heap, v0: View, m0: Mem, needs: seq<nat>, own: bool, ac: nat,
          clear: bool, marray: nat, elements: seq<nat>, p: nat, ss: seq<nat>)
    requires Delivered(m, core, v0, m0, needs, own, ac, clear, marray, elements, p, ss) && |needs| > 0
    requires HeapOf(m) == h.(l := m.view.l) && m.view.l.first == h.l.first && m.view.l.end == h.l.end
    requires p in Live(h.l) && Live(h.l) - {p} == Live(v0.l)
    requires if !own then Sum(ss) == Live(h.l)[p]
      else p + Sum(needs) in Live(m.view.l) && Live(m.view.l)[p + Sum(needs)] + Sum(needs) == Live(h.l)[p]
    ensures CutUp(h, p, PieceSizes(needs, own, Live(h.l)[p]), HeapOf(m)) && Pointers(elements, p, needs)
    ensures own ==> marray == ChunkToMem(p + Sum(needs))
  {
    hide Quiet, Steady, ValidUpTo, PieceMap, Sum, Stored, PiecesZeroed, KeptBut, Anew, Live, StillLive, Pointers,
      Fulfills;
    DeliveredTiled(m, core);
    SamePointers(elements, p, ss, needs);
    if own {
      var x := Live(m.view.l)[p + Sum(needs)];
      PieceMapAppend(p, needs, x);
      LastKey(Live(v0.l), PieceMap(p, needs), p + Sum(needs), x, Live(m.view.l));
    } else {
      PiecesAre(ss, needs, Live(h.l)[p]);
    }
  }

  lemma DeliveredTiled(m: MallocState, core: LinearMemory)
    requires Valid(m, core) && m.top != 0
    ensures Tiled(m.view.l)
  {
    CoreTiled(m.St(), m.sb, m.view, m.Resting());
  }

  /** ialloc.  The sums of the sizes must not overflow: nothing in the code checks that, and AggregateExact tells
      that it asks for too little when they do. */
  method Ialloc(m: MallocState, core: LinearMemory, n: nat, same: bool, sizes: seq<nat>, clear: bool, chunks: nat,
          ghost ac: nat)
        returns (marray: nat, elements: seq<nat>, ghost p0: nat, ghost ss: seq<nat>)
    requires Valid(m, core) && (if same then |sizes| > 0 else |sizes| == n)
    requires Aggregate(n, same, sizes, chunks == NULL) < WORD
    requires chunks != NULL && n > 0 ==> CallersArray(Live(m.view.l), ac, chunks, n)
    modifies m, core
    ensures Valid(m, core) && m.footprintLimit == old(m.footprintLimit)
    ensures marray == NULL ==> Unserved(m, old(m.view), old(m.mem))
    ensures marray != NULL && n > 0 ==>
      Delivered(m, core, old(m.view), old(m.mem), Needs(n, same, sizes), chunks == NULL, ac, clear, marray, elements,
        p0, ss)
    ensures marray != NULL && chunks != NULL ==> marray == chunks
    ensures marray != NULL && n == 0 && chunks == NULL ==>
      marray >= 8 && Served(m, core, old(m.view), old(m.mem), MemToChunk(marray), MIN_CHUNK_SIZE)
    ensures n == 0 ==> elements == []
    ensures n == 0 && chunks != NULL ==> marray == chunks && m.view == old(m.view) && m.St() == old(m.St())
    ensures IallocStep(old(MachineOf(m, core)), n, same, sizes, chunks, marray, elements, MachineOf(m, core))
  {
    hide Quiet, Steady, Core, Needs, Request2Size, PaddedSize, ArraySize, Served, Sum, GrantGrown, m.Settled, Add32,
      ArrayWord, Request2Word, MallocStep, MallocHeap, MallocAnswer, Primed, CutUp, PieceSizes, Delivered, Pointers,
      AggregateNeed, Fulfills, CallersArray, Live;
    ghost var s := MachineOf(m, core);
    elements, ss, marray, p0 := [], [], NULL, 0;
    if n == 0 {
      QuietSame(Live(m.view.l), m.mem);
      marray := chunks;
      if chunks == NULL {
        marray := Malloc(m, core, 0);
        LeastSize();
      }
      return;
    }
    var arraySize := ArrayWord(n, chunks == NULL);
    var elementSize, contentsSize := ContentsSize(n, same, sizes);
    var size := Add32(contentsSize, arraySize);
    SizesFit(n, same, sizes, chunks == NULL);
    assert |Needs(n, same, sizes)| == n by { NeedsLength(n, same, sizes); }
    var mem := Malloc(m, core, size - CHUNK_OVERHEAD);
    ghost var s1 := MachineOf(m, core);
    StepParts(s, PaddedSize(size - CHUNK_OVERHEAD), mem, s1);
    if mem != NULL {
      CutReady(m, core, old(m.view), old(m.mem), MemToChunk(mem), Aggregate(n, same, sizes, chunks == NULL));
      p0 := MemToChunk(mem);
      marray, elements, ss :=
        SplitAggregate(m, core, MemToChunk(mem), n, same, sizes, elementSize, contentsSize, chunks, clear, old(m.view),
          old(m.mem), ac);
      DeliveredSomewhere(m, core, old(m.view), old(m.mem), Needs(n, same, sizes), chunks, ac, clear, marray, elements,
        p0, ss);
      CutUpNow(m, core, s1.heap, old(m.view), old(m.mem), Needs(n, same, sizes), chunks == NULL, ac, clear, marray,
        elements, p0, ss);
    }
  }

  lemma DeliveredSomewhere(m: MallocState, core: LinearMemory, v0: View, m0: Mem, needs: seq<nat>, chunks: nat, ac: nat,
          clear: bool, marray: nat, elements: seq<nat>, p0: nat, ss: seq<nat>)
    requires Delivered(m, core, v0, m0, needs, chunks == NULL, ac, clear, marray, elements, p0, ss)
    ensures Valid(m, core) && m.top != 0 && (chunks == NULL ==> marray >= 8)
  {
    hide Quiet, Steady, Valid, PieceMap, Sum, Pointers, Stored, PiecesZeroed, KeptBut, Anew;
  }

  lemma {:induction false} PieceAt(p: nat, ss: seq<nat>, i: nat)
    requires i < |ss| && (forall j {:trigger ss[j]} :: 0 <= j < |ss| ==> ss[j] > 0)
    ensures p + Sum(ss[..i]) in PieceMap(p, ss) && PieceMap(p, ss)[p + Sum(ss[..i])] == ss[i]
    decreases ss
  {
    if i == 0 {
      assert ss[..0] == [];
      PiecesFrom(p + ss[0], ss[1..], p);
    } else {
      assert ss[..i][1..] == ss[1..][..i - 1] && ss[..i][0] == ss[0];
      PieceAt(p + ss[0], ss[1..], i - 1);
    }
  }

  lemma {:induction false} PiecesFrom(p: nat, ss: seq<nat>, x: nat)
    requires x < p
    ensures x !in PieceMap(p, ss)
    decreases ss
  {
    if ss != [] { PiecesFrom(p + ss[0], ss[1..], x); }
  }

  /** Every element can be freed on its own, and has the room it was asked for. */
  lemma ElementFreeable(m: MallocState, core: LinearMemory, v0: View, m0: Mem, needs: seq<nat>, own: bool, ac: nat,
          clear: bool, marray: nat, elements: seq<nat>, p0: nat, ss: seq<nat>, i: nat)
    requires Delivered(m, core, v0, m0, needs, own, ac, clear, marray, elements, p0, ss) && i < |needs|
    requires ChunkSizes(needs)
    ensures elements[i] >= 8 && MemToChunk(elements[i]) in Live(m.view.l)
    ensures needs[i] <= Live(m.view.l)[MemToChunk(elements[i])]
  {
    hide Quiet, Steady, Valid, PieceMap, Sum, Stored, PiecesZeroed, StillLive, KeptBut, Anew;
    PieceAt(p0, ss, i);
  }
}
