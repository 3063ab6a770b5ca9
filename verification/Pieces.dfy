/** Cutting an in-use chunk into in-use pieces whose heads are written front to back. */
module PieceHeads {
  import opened Memory
  import opened Layouts
  import opened Tags
  import opened Payloads
  import opened Bins
  import opened SmallBins
  import opened TreeBins
  import opened Heaps
  import opened MallocStates
  import opened Reallocating

  lemma OddHead(c: Chunk)
    requires c.pin && c.size % 8 == 0
    ensures Encode(c) % 2 == 1
  {
    hide Encode;
    Decode(c);
  }

  /** When the PINUSE bits of a and e are already set, set_inuse of the two pieces writes just two heads. */
  lemma HeadsSuffice(l: Layout, a: nat, b: nat, e: nat, m: Mem)
    requires Tiled(l) && Tagged(m, l) && a in l.chunks && l.chunks[a].pin && e in l.chunks && l.chunks[e].pin
    requires a < b < e
    requires (b - a) % 8 == 0
    ensures SetInuse(SetInuse(m, a, b - a), b, e - b) == SetHead(SetHead(m, a, b - a + 3), b, e - b + 3)
  {
    assert TagAt(m, l, a) && TagAt(m, l, e) && FitsAt(l, a) && FitsAt(l, e);
    OddHead(l.chunks[a]);
    OddHead(l.chunks[e]);
    assert e in m.high;
    HeadsWritten(m, a, b, e);
  }

  lemma HeadsWritten(m: Mem, a: nat, b: nat, e: nat)
    requires Hi(m, a) % 2 == 1 && Hi(m, e) % 2 == 1 && e in m.high && a < b < e && (b - a) % 8 == 0
    ensures SetInuse(SetInuse(m, a, b - a), b, e - b) == SetHead(SetHead(m, a, b - a + 3), b, e - b + 3)
  {
    var w := Hi(m, b);
    assert (w - w % 2 + 1) % 2 == 1;
    var m1 := SetInuse(m, a, b - a);
    assert Hi(m1, b) % 2 == 1;
    assert m1.high == m.high[a := b - a + 3][b := w - w % 2 + 1];
  }

  /** The heap would be in order if p's head, still to be written, said that it has `rem` bytes. */
  ghost predicate Partial(m: MallocState, p: nat, rem: nat)
    reads m
  {
    && m.top != 0 && m.TopAndDv() && m.leastAddr <= m.view.l.first
    && Core(m.St().(mem := SetHead(m.mem, p, rem + 3)), m.sb, m.view, m.Resting())
    && p in m.view.l.chunks && m.view.l.chunks[p] == Chunk(rem, true, true)
  }

  lemma PartialFacts(st: Store, sb: nat, v: View, loose: set<nat>, p: nat, rem: nat)
    requires Core(st, sb, v, loose) && p in v.l.chunks && v.l.chunks[p] == Chunk(rem, true, true)
    ensures var e := p + rem;
      && e in v.l.chunks && v.l.chunks[e].pin && e != v.l.end && Tiled(v.l) && Tagged(st.mem, v.l)
      && Room(v.l, loose, p, e, {})
      && p % 8 == 0 && rem % 8 == 0 && rem >= 16 && p >= v.l.first > 0
    ensures p in Live(v.l) && Live(v.l)[p] == rem
  {
    hide SmallReady, TreeReady, Binned;
    assert FitsAt(v.l, p) && LinkedAt(v.l, p);
  }

  /** The heap with p split at b, when only p's and b's heads are written. */
  lemma CoreSplitHeads(st: Store, sb: nat, v: View, loose: set<nat>, p: nat, b: nat, rem: nat, m': Mem)
    requires Core(st, sb, v, loose) && p in v.l.chunks && v.l.chunks[p] == Chunk(rem, true, true)
    requires p + 16 <= b && b + 16 <= p + rem && b % 8 == 0
    requires m' == SetHead(SetHead(st.mem, p, b - p + 3), b, p + rem - b + 3)
    ensures Core(st.(mem := m'), sb, v.(l := Two(v.l, p, b, p + rem, true)), loose)
    ensures Live(Two(v.l, p, b, p + rem, true)) == Live(v.l)[p := b - p][b := p + rem - b]
  {
    hide Core, Two, Room, Quiet, Tiled, Tagged, SetHead, SetInuse;
    PartialFacts(st, sb, v, loose, p, rem);
    HeadsSuffice(v.l, p, b, p + rem, st.mem);
    CoreSplitRoom(st, sb, v, loose, p, b, p + rem, {}, m');
    assert loose - {} == loose;
  }

  lemma HeadTwice(m: Mem, p: nat, b: nat, x: nat, y: nat, z: nat)
    requires p != b
    ensures SetHead(SetHead(m, p, y), b, z) == SetHead(SetHead(SetHead(m, p, x), p, y), b, z)
    ensures SetHead(SetHead(m, b, z), p, y) == SetHead(SetHead(SetHead(m, p, x), p, y), b, z)
  {
    assert m.high[p := x][p := y] == m.high[p := y];
    assert m.high[b := z][p := y] == m.high[p := y][b := z];
  }

  lemma HeadQuiet(l: Layout, m: Mem, p: nat, x: nat, live: map<nat, nat>)
    requires Tiled(l) && p in l.chunks
    requires (forall q {:trigger q in live} :: q in live ==> q in l.chunks && q + live[q] <= Next(l, q))
    ensures Quiet(live, m, SetHead(m, p, x))
  {
    forall q | q in live ensures PayloadKept(m, SetHead(m, p, x), q, live[q]) {
      assert ApartAt(l, q, p) && FitsAt(l, p);
    }
  }

  lemma PartialOutside(m: MallocState, p: nat, rem: nat)
    requires Partial(m, p, rem)
    ensures !(p <= m.top < p + rem) && !(p <= m.dv < p + rem) && p > 0 && p % 8 == 0 && rem % 8 == 0 && rem >= 16
    ensures forall b :: p < b < p + rem ==> b !in m.view.l.chunks
  {
    hide Core;
    PartialFacts(m.St().(mem := SetHead(m.mem, p, rem + 3)), m.sb, m.view, m.Resting(), p, rem);
    RoomFacts(m.St().(mem := SetHead(m.mem, p, rem + 3)), m.sb, m.view, m.Resting(), p, p + rem, {});
  }

  /** Write one head: the first `size` bytes of p become a piece, and the rest is
      the chunk whose head is still to be written. */
  method TakePiece(m: MallocState, p: nat, size: nat, ghost rem: nat)
    requires Partial(m, p, rem) && size >= 16 && size % 8 == 0 && size + 16 <= rem
    modifies m`mem, m`view
    ensures Partial(m, p + size, rem - size) && m.view.l.first == old(m.view.l.first)
    ensures m.view.l.end == old(m.view.l.end)
    ensures SameLists(old(m.view), m.view)
    ensures Live(m.view.l) == Live(old(m.view.l))[p := size][p + size := rem - size] && p + size !in Live(old(m.view.l))
    ensures m.mem == SetHead(old(m.mem), p, size + 3)
  {
    hide Core, Two, SetHead;
    PartialOutside(m, p, rem);
    ghost var st, l := m.St().(mem := SetHead(m.mem, p, rem + 3)), m.view.l;
    HeadTwice(m.mem, p, p + size, rem + 3, size + 3, rem - size + 3);
    m.mem := SetHead(m.mem, p, size + 3);
    CoreSplitHeads(st, m.sb, m.view, m.Resting(), p, p + size, rem, SetHead(m.mem, p + size, rem - size + 3));
    TwoKeeps(l, p, p + size, p + rem, true, m.top);
    TwoKeeps(l, p, p + size, p + rem, true, m.dv);
    m.view := m.view.(l := Two(l, p, p + size, p + rem, true));
  }

  /** Write one head: the last rem - size bytes become a piece. */
  method TakeLastPiece(m: MallocState, p: nat, size: nat, last: nat, ghost rem: nat)
    requires Partial(m, p, rem) && size >= 16 && size % 8 == 0 && last >= 16 && size + last == rem
    modifies m`mem, m`view
    ensures Partial(m, p, size) && m.view.l.first == old(m.view.l.first) && m.view.l.end == old(m.view.l.end)
    ensures SameLists(old(m.view), m.view)
    ensures Live(m.view.l) == Live(old(m.view.l))[p := size][p + size := last] && p + size !in Live(old(m.view.l))
    ensures m.mem == SetHead(old(m.mem), p + size, last + 3)
  {
    hide Core, Two, SetHead;
    PartialOutside(m, p, rem);
    ghost var st, l := m.St().(mem := SetHead(m.mem, p, rem + 3)), m.view.l;
    HeadTwice(m.mem, p, p + size, rem + 3, size + 3, last + 3);
    m.mem := SetHead(m.mem, p + size, last + 3);
    CoreSplitHeads(st, m.sb, m.view, m.Resting(), p, p + size, rem, SetHead(m.mem, p, size + 3));
    TwoKeeps(l, p, p + size, p + rem, true, m.top);
    TwoKeeps(l, p, p + size, p + rem, true, m.dv);
    m.view := m.view.(l := Two(l, p, p + size, p + rem, true));
  }
}
