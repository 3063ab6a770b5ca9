/** How head and foot words in memory represent a layout. */
module Tags {
  import opened Memory
  import opened Layouts

  function Encode(c: Chunk): nat {
    c.size + (if c.inuse then 2 else 0) + (if c.pin then 1 else 0)
  }

  lemma Decode(c: Chunk)
    requires c.size % 8 == 0
    ensures SizeOf(Encode(c)) == c.size
    ensures CinuseOf(Encode(c)) == c.inuse
    ensures PinuseOf(Encode(c)) == c.pin
  {
    FlagBits(c.size / 8, (if c.inuse then 2 else 0) + (if c.pin then 1 else 0));
  }

  lemma Eighth(k: nat, flags: nat)
    requires flags < 8
    ensures (8 * k + flags) / 8 == k
  {
  }

  lemma EvenPlus(k: nat, bit: nat)
    requires bit < 2
    ensures (2 * k + bit) % 2 == bit && (2 * k + bit) / 2 == k
  {
  }

  /** Bits 0, 1 and from 3 on of 8 * k + 2 * c + p. */
  lemma FlagBits(k: nat, flags: nat)
    requires flags < 4
    ensures (8 * k + flags) / 8 * 8 == 8 * k && (8 * k + flags) / 2 % 2 == flags / 2 && (8 * k + flags) % 2 == flags % 2
  {
    var c, p := flags / 2, flags % 2;
    Eighth(k, flags);
    EvenPlus(4 * k + c, p);
    EvenPlus(2 * k, c);
    assert 8 * k + flags == 2 * (4 * k + c) + p && 4 * k + c == 2 * (2 * k) + c;
  }

  /** The chunk at p carries the right head, and, when free and not top, the right foot. */
  ghost predicate TagAt(m: Mem, l: Layout, p: nat)
    requires p in l.chunks
  {
    && Hi(m, p) == Encode(l.chunks[p])
    && (!l.chunks[p].inuse && Next(l, p) != l.end ==> Lo(m, Next(l, p)) == l.chunks[p].size)
  }

  const TOP_FOOT_SIZE: nat := 40

  ghost predicate Tagged(m: Mem, l: Layout) {
    && (forall p {:trigger TagAt(m, l, p)} :: p in l.chunks ==> TagAt(m, l, p))
    && Hi(m, l.end) == TOP_FOOT_SIZE
  }

  /** What the head of a chunk says. */
  lemma ReadHead(m: Mem, l: Layout, p: nat)
    requires Tiled(l) && Tagged(m, l) && p in l.chunks
    ensures ChunkSize(m, p) == l.chunks[p].size
    ensures Cinuse(m, p) == l.chunks[p].inuse
    ensures Pinuse(m, p) == l.chunks[p].pin
    ensures Head(m, p) == Encode(l.chunks[p])
  {
    assert FitsAt(l, p) && TagAt(m, l, p);
    Decode(l.chunks[p]);
  }

  /** A clear PINUSE bit makes prev_foot the size of the free chunk in front. */
  lemma ReadFoot(m: Mem, l: Layout, q: nat) returns (p: nat)
    requires Tiled(l) && Tagged(m, l) && q in l.chunks && !l.chunks[q].pin
    ensures p in l.chunks && Next(l, p) == q && p < q
    ensures PrevFoot(m, q) == l.chunks[p].size
    ensures !l.chunks[p].inuse
  {
    assert FitsAt(l, q);
    p := Predecessor(l, q);
    assert LinkedAt(l, p) && TagAt(m, l, p);
  }

  /** Only the head words at a, b and e, and the low word at e, may differ. */
  ghost predicate TagWrites(m: Mem, m': Mem, a: nat, b: nat, e: nat) {
    && (forall x {:trigger Hi(m', x)} :: x != a && x != b && x != e ==> Hi(m', x) == Hi(m, x))
    && (forall x {:trigger Lo(m', x)} :: x != e ==> Lo(m', x) == Lo(m, x))
  }

  lemma SpliceTagged(l: Layout, n: Layout, a: nat, b: nat, e: nat, pin: bool, m: Mem, m': Mem)
    requires Tiled(l) && Tiled(n) && Spliced(l, n, a, e, pin) && Tagged(m, l)
    requires TagWrites(m, m', a, b, e) && a <= b < e
    requires forall p {:trigger TagAt(m', n, p)} :: p in n.chunks && a <= p < e ==> TagAt(m', n, p)
    requires Hi(m', e) == if e == l.end then TOP_FOOT_SIZE else Encode(n.chunks[e])
    ensures Tagged(m', n)
  {
    assert e in l.chunks ==> FitsAt(l, e);
    forall p | p in n.chunks ensures TagAt(m', n, p) {
      if !(a <= p < e) {
        SpliceOutside(l, n, a, e, pin, p);
        assert FitsAt(n, p) && TagAt(m, l, p);
      }
    }
  }

  lemma ClearPin(c: Chunk)
    ensures c.size % 8 == 0 ==> Encode(c) - Encode(c) % 2 == Encode(c.(pin := false))
    ensures c.size % 8 == 0 ==> Encode(c) - Encode(c) % 2 + 1 == Encode(c.(pin := true))
  {
    var k := c.size / 8;
    if c.size == 8 * k {
      EvenPlus(4 * k + (if c.inuse then 1 else 0), if c.pin then 1 else 0);
      assert Encode(c) == 2 * (4 * k + (if c.inuse then 1 else 0)) + if c.pin then 1 else 0;
    }
  }

  /** [a, e) becomes one free chunk below top: head, foot, and a cleared PINUSE bit at e. */
  lemma OneFree(l: Layout, a: nat, e: nat, m: Mem, m': Mem)
    requires Tiled(l) && Tagged(m, l) && CanBeOne(l, a, e, false) && e != l.end
    requires
      || m' == SetFreeWithPinuse(m, a, e - a, e)
      || (m' == SetSizeAndPinuseOfFreeChunk(m, a, e - a) && !l.chunks[e].pin)
    ensures Tiled(One(l, a, e, false)) && Tagged(m', One(l, a, e, false))
    ensures TagWrites(m, m', a, a, e)
  {
    var n := One(l, a, e, false);
    OneTiled(l, a, e, false);
    assert FitsAt(l, a) && FitsAt(l, e) && FitsAt(n, e) && TagAt(m, l, e);
    ClearPin(l.chunks[e]);
    SpliceTagged(l, n, a, a, e, false, m, m');
  }

  /** [a, end) becomes the top chunk. */
  lemma OneTop(l: Layout, a: nat, m: Mem, m': Mem)
    requires Tiled(l) && Tagged(m, l) && CanBeOne(l, a, l.end, false)
    requires m' == SetHead(m, a, l.end - a + 1)
    ensures Tiled(One(l, a, l.end, false)) && Tagged(m', One(l, a, l.end, false))
    ensures TagWrites(m, m', a, a, l.end)
  {
    var n := One(l, a, l.end, false);
    OneTiled(l, a, l.end, false);
    assert FitsAt(l, a);
    assert l.end in l.chunks ==> FitsAt(l, l.end);
    SpliceTagged(l, n, a, a, l.end, false, m, m');
  }

  /** [a, e) becomes one in-use chunk. */
  lemma OneInuse(l: Layout, a: nat, e: nat, m: Mem, m': Mem)
    requires Tiled(l) && Tagged(m, l) && CanBeOne(l, a, e, true)
    requires
      || m' == SetInuse(m, a, e - a)
      || (m' == SetInuseAndPinuse(m, a, e - a) && l.chunks[a].pin)
    ensures Tiled(One(l, a, e, true)) && Tagged(m', One(l, a, e, true))
    ensures TagWrites(m, m', a, a, e)
  {
    var n := One(l, a, e, true);
    OneTiled(l, a, e, true);
    assert FitsAt(l, a) && FitsAt(l, e) && FitsAt(n, e) && TagAt(m, l, e) && TagAt(m, l, a);
    Decode(l.chunks[a]);
    ClearPin(l.chunks[e]);
    SpliceTagged(l, n, a, a, e, true, m, m');
  }

  /** [a, e) becomes an in-use chunk and a free remainder below top. */
  lemma TwoFree(l: Layout, a: nat, b: nat, e: nat, m: Mem, m': Mem)
    requires Tiled(l) && Tagged(m, l) && CanBeTwo(l, a, b, e, false) && e != l.end
    requires l.chunks[a].pin && !l.chunks[e].pin
    requires
      || m' == SetSizeAndPinuseOfFreeChunk(SetSizeAndPinuseOfInuseChunk(m, a, b - a), b, e - b)
      || m' == SetSizeAndPinuseOfInuseChunk(SetSizeAndPinuseOfFreeChunk(m, b, e - b), a, b - a)
    ensures Tiled(Two(l, a, b, e, false)) && Tagged(m', Two(l, a, b, e, false))
    ensures TagWrites(m, m', a, b, e)
  {
    var n := Two(l, a, b, e, false);
    TwoTiled(l, a, b, e, false);
    assert FitsAt(l, a) && FitsAt(l, e) && FitsAt(n, e) && TagAt(m, l, e);
    SpliceTagged(l, n, a, b, e, false, m, m');
  }

  /** The in-use chunk at a grows into the free chunk behind it, which keeps the part from b on. */
  lemma TwoFreeGrown(l: Layout, a: nat, b: nat, e: nat, m: Mem, m': Mem)
    requires Tiled(l) && Tagged(m, l) && CanBeTwo(l, a, b, e, false) && e != l.end && !l.chunks[e].pin
    requires m' == ClearPinuse(SetSizeAndPinuseOfFreeChunk(SetInuse(m, a, b - a), b, e - b), e)
    ensures Tiled(Two(l, a, b, e, false)) && Tagged(m', Two(l, a, b, e, false))
    ensures TagWrites(m, m', a, b, e)
  {
    var n := Two(l, a, b, e, false);
    TwoTiled(l, a, b, e, false);
    assert FitsAt(l, a) && FitsAt(l, e) && FitsAt(n, e) && TagAt(m, l, e) && TagAt(m, l, a);
    assert Hi(m, a) % 2 == if l.chunks[a].pin then 1 else 0 by { Decode(l.chunks[a]); }
    assert Hi(m, e) - Hi(m, e) % 2 == Encode(l.chunks[e].(pin := false)) by { ClearPin(l.chunks[e]); }
    SpliceTagged(l, n, a, b, e, false, m, m');
  }

  /** [a, end) becomes an in-use chunk and a smaller top. */
  lemma TwoTop(l: Layout, a: nat, b: nat, m: Mem, m': Mem)
    requires Tiled(l) && Tagged(m, l) && CanBeTwo(l, a, b, l.end, false)
    requires
      || (l.chunks[a].pin && m' == SetSizeAndPinuseOfInuseChunk(SetHead(m, b, l.end - b + 1), a, b - a))
      || m' == SetHead(SetInuse(m, a, b - a), b, l.end - b + 1)
    ensures Tiled(Two(l, a, b, l.end, false)) && Tagged(m', Two(l, a, b, l.end, false))
    ensures TagWrites(m, m', a, b, l.end)
  {
    var n := Two(l, a, b, l.end, false);
    TwoTiled(l, a, b, l.end, false);
    assert FitsAt(l, a) && TagAt(m, l, a);
    Decode(l.chunks[a]);
    assert l.end in l.chunks ==> FitsAt(l, l.end);
    SpliceTagged(l, n, a, b, l.end, false, m, m');
  }

  lemma OddNow(w: nat)
    ensures (w - w % 2 + 1) % 2 == 1
  {
  }

  lemma SameParity(w: nat, k: nat)
    ensures (w % 2 + 8 * k + 2) % 2 == w % 2
  {
    assert w % 2 + 8 * k + 2 == w % 2 + 2 * (4 * k + 1);
  }

  /** Marking two neighbours in use, front first, whatever the words between them held. */
  lemma SetInuseFrontFirst(m: Mem, a: nat, b: nat, e: nat)
    requires a < b < e
    ensures var r := SetInuse(SetInuse(m, a, b - a), b, e - b);
      && Hi(r, a) == Hi(m, a) % 2 + (b - a) + 2 && Hi(r, b) == e - b + 3
      && Hi(r, e) == Hi(m, e) - Hi(m, e) % 2 + 1 && TagWrites(m, r, a, b, e)
  {
    OddNow(Hi(m, b));
  }

  /** The same, back first. */
  lemma SetInuseBackFirst(m: Mem, a: nat, b: nat, e: nat)
    requires a < b < e && (e - b) % 8 == 0
    ensures var r := SetInuse(SetInuse(m, b, e - b), a, b - a);
      && Hi(r, a) == Hi(m, a) % 2 + (b - a) + 2 && Hi(r, b) == e - b + 3
      && Hi(r, e) == Hi(m, e) - Hi(m, e) % 2 + 1 && TagWrites(m, r, a, b, e)
  {
    SameParity(Hi(m, b), (e - b) / 8);
  }

  /** What the flags of a and e are, in numbers. */
  lemma EdgeHeads(l: Layout, a: nat, e: nat, m: Mem)
    requires Tiled(l) && Tagged(m, l) && a in l.chunks && e in l.chunks
    ensures Hi(m, a) % 2 == (if l.chunks[a].pin then 1 else 0)
    ensures Hi(m, e) - Hi(m, e) % 2 + 1 == Encode(l.chunks[e].(pin := true))
    ensures a % 8 == 0 && e % 8 == 0
  {
    assert FitsAt(l, a) && FitsAt(l, e) && TagAt(m, l, e) && TagAt(m, l, a);
    Decode(l.chunks[a]);
    ClearPin(l.chunks[e]);
  }

  lemma TwoInuseHeads(l: Layout, a: nat, b: nat, e: nat, m: Mem, m': Mem)
    requires Tiled(l) && Tagged(m, l) && CanBeTwo(l, a, b, e, true)
    requires
      || m' == SetInuse(SetInuse(m, a, b - a), b, e - b)
      || m' == SetInuse(SetInuse(m, b, e - b), a, b - a)
    ensures TagWrites(m, m', a, b, e)
    ensures Hi(m', a) == Encode(Chunk(b - a, true, l.chunks[a].pin))
    ensures Hi(m', b) == Encode(Chunk(e - b, true, true))
    ensures Hi(m', e) == Encode(l.chunks[e].(pin := true))
  {
    hide SetInuse, TagWrites, Tiled, Tagged;
    EdgeHeads(l, a, e, m);
    EightsApart(b, e);
    if m' == SetInuse(SetInuse(m, a, b - a), b, e - b) { SetInuseFrontFirst(m, a, b, e); }
    else { SetInuseBackFirst(m, a, b, e); }
  }

  lemma EightsApart(b: nat, e: nat)
    requires b <= e && b % 8 == 0 && e % 8 == 0
    ensures (e - b) % 8 == 0
  {
  }

  /** [a, e) becomes two in-use chunks. */
  lemma TwoInuse(l: Layout, a: nat, b: nat, e: nat, m: Mem, m': Mem)
    requires Tiled(l) && Tagged(m, l) && CanBeTwo(l, a, b, e, true)
    requires
      || m' == SetInuse(SetInuse(m, a, b - a), b, e - b)
      || m' == SetInuse(SetInuse(m, b, e - b), a, b - a)
    ensures Tiled(Two(l, a, b, e, true)) && Tagged(m', Two(l, a, b, e, true))
    ensures TagWrites(m, m', a, b, e)
  {
    var n := Two(l, a, b, e, true);
    TwoTiled(l, a, b, e, true);
    TwoInuseHeads(l, a, b, e, m, m');
    SpliceTagged(l, n, a, b, e, true, m, m');
  }
}
