/** struct malloc_state, and the operations on its bins. */
module MallocStates {
  import opened Memory
  import opened Layouts
  import opened Tags
  import opened Rings
  import opened Payloads
  import opened Bins
  import opened Ages
  import opened BinMaps
  import opened SmallBins
  import opened TreeIndices
  import opened Positions
  import opened Tries
  import opened TreeBins
  import opened Heaps
  import opened HeapBins

  const MIN_CHUNK_SIZE: nat := 16

  /** The size of smallbins and treebins within malloc_state. */
  const MALLOC_STATE_BINS: nat := 392

  /** top and dv are free chunks of the recorded sizes; top is the one that touches the segment's end. */
  ghost predicate TopDv(l: Layout, top: nat, topsize: nat, dv: nat, dvsize: nat) {
    && top in l.chunks && Next(l, top) == l.end && l.chunks[top].size == topsize && !l.chunks[top].inuse
    && (dvsize == 0 ==> dv == 0)
    && (dvsize > 0 ==> dv in l.chunks && l.chunks[dv].size == dvsize && !l.chunks[dv].inuse && Next(l, dv) != l.end)
  }

  class MallocState {
    /** The address of gm->smallbins. */
    const sb: nat
    /** The linker's __heap_base and __heap_end: the memory the program starts with. */
    const heapBase: nat
    const heapEndSymbol: nat

    var mem: Mem
    var smallmap: bv32
    var treemap: bv32
    var treebins: seq<nat>
    var dv: nat
    var dvsize: nat
    var top: nat
    var topsize: nat
    var leastAddr: nat
    var segBase: nat
    var segSize: nat
    var footprint: nat
    var maxFootprint: nat
    var footprintLimit: nat
    var noncontiguous: bool

    /** What all of the above represents. */
    ghost var view: View

    constructor (sb: nat, heapBase: nat, heapEndSymbol: nat, mem: Mem)
      requires sb + MALLOC_STATE_BINS <= heapBase <= heapEndSymbol && heapEndSymbol % 8 == 0
      ensures Pristine()
      ensures this.sb == sb && this.heapBase == heapBase && this.heapEndSymbol == heapEndSymbol && this.mem == mem
      ensures segBase == 0 && footprintLimit == 0 && !noncontiguous
    {
      this.sb, this.heapBase, this.heapEndSymbol := sb, heapBase, heapEndSymbol;
      this.mem := mem;
      smallmap, treemap, treebins := 0, 0, seq(32, _ => 0);
      dv, dvsize, top, topsize, leastAddr := 0, 0, 0, 0, 0;
      segBase, segSize, footprint, maxFootprint, footprintLimit, noncontiguous := 0, 0, 0, 0, 0, false;
      view := View(Layout(0, 0, map[]), map[], Trie(map[], map[], map[]), Ages(map[], 0));
    }

    /** The linker puts malloc_state below the heap. */
    predicate Placed() {
      sb + MALLOC_STATE_BINS <= heapBase <= heapEndSymbol && heapEndSymbol % 8 == 0
    }

    /** No top, no bins, nothing live. */
    ghost predicate Blank()
      reads this
    {
      && Placed() && top == 0 && topsize == 0 && dv == 0 && dvsize == 0
      && smallmap == 0 && treemap == 0 && treebins == seq(32, _ => 0)
      && view.l.chunks == map[] && view.l.end == 0 && view.lists == map[] && view.ages == Ages(map[], 0)
    }

    /** Before the first memory is found. */
    ghost predicate Pristine()
      reads this
    {
      Blank() && segSize == 0 && footprint == 0 && maxFootprint == 0
    }

    ghost function St(): Store
      reads this
    {
      Store(mem, smallmap, treemap, treebins)
    }

    ghost predicate Holds(loose: set<nat>)
      reads this
    {
      Core(St(), sb, view, loose) && leastAddr <= view.l.first
    }

    ghost predicate TopAndDv()
      reads this
    {
      TopDv(view.l, top, topsize, dv, dvsize)
    }

    /** Between calls only top and dv are free and in no bin. */
    ghost function Resting(): set<nat>
      reads this
    {
      if dvsize > 0 then {top, dv} else {top}
    }

    /** The invariant of an initialised heap between calls. */
    ghost predicate Settled()
      reads this
    {
      top != 0 && TopAndDv() && Holds(Resting())
    }

    /** RTCHECK(ok_address(M, a)). */
    predicate OkAddress(a: nat)
      reads this
    {
      a >= leastAddr
    }

    // small bins

    method InsertSmallChunk(p: nat, s: nat, ghost loose: set<nat>)
      requires Holds(loose) && Bindable(view.l, loose, p) && s == view.l.chunks[p].size < MIN_LARGE_SIZE
      modifies this`mem, this`smallmap, this`view
      ensures Holds(loose - {p}) && view.l == old(view.l) && view.lists == With(old(view.lists), s, p)
      ensures view.ages == Arrived(old(view.ages), p)
      ensures Quiet(Live(view.l), old(mem), mem)
    {
      hide Marked, Mark, Core, Quiet, Bindable;
      CoreSmallInserted(St(), sb, view, loose, p);
      ghost var st' := SmallInsertedStore(St(), sb, view, p, s);
      BinSize(St(), sb, view, loose, p);
      SmallMarked(St(), sb, view, loose, s);
      var i := SmallIndex(s);
      var b := sb + 8 * i;
      var f := b;
      if !Marked(smallmap, i) {
        smallmap := Mark(smallmap, i);
      } else {
        assert OkAddress(Fd(mem, b));
        f := Fd(mem, b);
      }
      mem := SetFd(mem, b, p);
      mem := SetBk(mem, f, p);
      mem := SetFd(mem, p, f);
      mem := SetBk(mem, p, b);
      view := Enlisted(view, s, p);
      assert St() == st';
    }

    method UnlinkSmallChunk(p: nat, s: nat, ghost loose: set<nat>, ghost k: nat)
      requires Holds(loose) && ListedAs(view, p, k) && s == view.l.chunks[p].size < MIN_LARGE_SIZE
      modifies this`mem, this`smallmap, this`view
      ensures Holds(loose + {p}) && view.l == old(view.l) && view.lists == Without(old(view.lists), s, k)
      ensures view.ages == old(view.ages)
      ensures Quiet(Live(view.l), old(mem), mem)
    {
      hide Marked, BinMaps.Clear, Core, Quiet;
      CoreSmallUnlinked(St(), sb, view, loose, p, k);
      ghost var st' := SmallUnlinkedStore(St(), p, s);
      ListedSize(St(), sb, view, loose, p, k);
      var f := Fd(mem, p);
      var b := Bk(mem, p);
      var i := SmallIndex(s);
      assert f == sb + 8 * i || (OkAddress(f) && Bk(mem, f) == p);
      if b == f {
        smallmap := BinMaps.Clear(smallmap, i);
      } else {
        assert b == sb + 8 * i || (OkAddress(b) && Fd(mem, b) == p);
        mem := SetBk(mem, f, b);
        mem := SetFd(mem, b, f);
      }
      view := Delisted(view, s, k);
      assert St() == st';
    }

    /** P, the first chunk of the marked bin with header b. */
    method UnlinkFirstSmallChunk(b: nat, p: nat, i: nat, ghost loose: set<nat>)
      requires Holds(loose) && i < 32 && 8 * i in view.lists && b == sb + 8 * i && p == Fd(mem, b)
      modifies this`mem, this`smallmap, this`view
      ensures Holds(loose + {p}) && view.l == old(view.l)
      ensures 8 * i in old(view.lists) && |old(view.lists)[8 * i]| > 0
      ensures p == old(view.lists)[8 * i][|old(view.lists)[8 * i]| - 1]
      ensures view.lists == Without(old(view.lists), 8 * i, |old(view.lists)[8 * i]| - 1) && view.ages == old(view.ages)
      ensures p in view.l.chunks && view.l.chunks[p].size == 8 * i && !view.l.chunks[p].inuse && p !in loose
      ensures Quiet(Live(view.l), old(mem), mem)
    {
      hide Marked, BinMaps.Clear, Core, Quiet;
      FirstSmall(St(), sb, view, loose, 8 * i);
      ghost var k := |view.lists[8 * i]| - 1;
      CoreSmallUnlinked(St(), sb, view, loose, p, k);
      ghost var st' := SmallUnlinkedStore(St(), p, 8 * i);
      assert ChunkSize(mem, p) == 8 * i;
      var f := Fd(mem, p);
      if b == f {
        smallmap := BinMaps.Clear(smallmap, i);
      } else {
        assert OkAddress(f) && Bk(mem, f) == p;
        mem := SetBk(mem, f, b);
        mem := SetFd(mem, b, f);
      }
      view := Delisted(view, 8 * i, k);
      assert St() == st';
    }

    // trees

    /** insert_large_chunk. */
    method InsertLargeChunk(x: nat, s: nat, ghost loose: set<nat>)
      requires Holds(loose) && Bindable(view.l, loose, x) && s == view.l.chunks[x].size >= MIN_TREE_SIZE
      modifies this`mem, this`treemap, this`treebins, this`view
      ensures Holds(loose - {x}) && view.l == old(view.l) && view.lists == With(old(view.lists), s, x)
      ensures view.ages == Arrived(old(view.ages), x)
      ensures Quiet(Live(view.l), old(mem), mem)
    {
      hide Marked, Mark, Core, Quiet, NodeFields, SelfRing, RootsWith, Bindable;
      ghost var st0 := St();
      BindableLarge(st0, sb, view, loose, x);
      TreeSizeIndex(s);
      var i := TreeIndex(s);
      ReadRoot(st0, sb, view, loose, i);
      PrepTouches(mem, x, i);
      CoreLooseFields(st0, sb, view, loose, x, NodeFields(mem, x, i));
      mem := NodeFields(mem, x, i);
      if !Marked(treemap, i) {
        ghost var q := PathPos(s, RootBit(i));
        RootNode(st0, sb, view, loose, s, x);
        CoreNodeInserted(st0, sb, view, loose, x, RootBit(i));
        treemap := Mark(treemap, i);
        treebins := treebins[i := x];
        mem := SetParent(mem, x, TreeRef(sb, i));
        mem := SelfRing(mem, x);
        view := Enlisted(view, s, x).(t := AddSize(view.t, s, q, x));
        assert St() == NodeInsertedStore(st0, sb, old(view), q, x) by { RootsWithRoot(st0.roots, q, x); }
      } else {
        InsertBelowRoot(x, s, loose, st0);
      }
    }

    /** x's index and children are written; p is the node the walk for its size stands at. */
    ghost predicate Inserting(x: nat, s: nat, loose: set<nat>, st0: Store)
      reads this
    {
      && Holds(loose) && Bindable(view.l, loose, x) && x in view.l.chunks && s == view.l.chunks[x].size >= MIN_TREE_SIZE
      && TreeSize(s) && TreeIndex(s) < 32
      && Core(st0, sb, view, loose) && St() == st0.(mem := NodeFields(st0.mem, x, TreeIndex(s)))
    }

    /** The loop of insert_large_chunk: follow the bits of s down from the root. */
    method InsertBelowRoot(x: nat, s: nat, ghost loose: set<nat>, ghost st0: Store)
      requires Inserting(x, s, loose, st0) && Root(TreeIndex(s)) in view.t.size
      modifies this`mem, this`view
      ensures Holds(loose - {x}) && view.l == old(view.l) && view.lists == With(old(view.lists), s, x)
      ensures view.ages == Arrived(old(view.ages), x)
      ensures Quiet(Live(view.l), st0.mem, mem)
    {
      hide Core, Quiet, NodeFields, Bindable, Standing, NewNodeAt;
      var i := TreeIndex(s);
      ghost var p := Root(i);
      ReadRoot(St(), sb, view, loose, i);
      var t := treebins[i];
      var k: nat := Shl(s, 31 - RootBit(i));
      StandAtRoot(St(), sb, view, loose, s, t, k);
      while true
        invariant Standing(view, t, s, p, k)
        invariant Inserting(x, s, loose, st0) && view == old(view)
        decreases p.bit
      {
        if ChunkSize(mem, t) != s {
          StandLower(St(), sb, view, loose, x, t, s, p, k);
          var side := k / 0x8000_0000 % 2;
          k := k * 2 % WORD;
          var c := Child(mem, t, side);
          if c != 0 {
            t := c;
            p := Down(p, side);
          } else {
            AttachNode(x, s, t, side, loose, st0, p);
            return;
          }
        } else {
          StandFound(St(), sb, view, loose, t, s, p, k);
          ChainBehind(x, s, t, loose, st0, p);
          return;
        }
      }
    }

    /** Hang x, a ring of its own, into the free child slot of t. */
    method AttachNode(x: nat, s: nat, t: nat, side: nat, ghost loose: set<nat>, ghost st0: Store, ghost p: Pos)
      requires Inserting(x, s, loose, st0) && p in view.t.node && t == view.t.node[p] && p.bit > 0 && side < 2
      requires Down(p, side) == PathPos(s, p.bit - 1) && NewNodeAt(view, x, p.bit - 1) && p.bit <= RootBit(p.bin)
      modifies this`mem, this`view
      ensures Holds(loose - {x}) && view.l == old(view.l) && view.lists == With(old(view.lists), s, x)
      ensures view.ages == Arrived(old(view.ages), x)
      ensures Quiet(Live(view.l), st0.mem, mem)
    {
      hide Marked, Core, Quiet, NodeFields, SelfRing, Bindable, NewNodeAt;
      ghost var q := Down(p, side);
      CoreNodeInserted(st0, sb, view, loose, x, q.bit);
      mem := SetChild(mem, t, side, x);
      mem := SetParent(mem, x, t);
      mem := SelfRing(mem, x);
      view := Enlisted(view, s, x).(t := AddSize(view.t, s, q, x));
      assert Up(q) == p && q.prefix % 2 == side;
      assert St() == NodeInsertedStore(st0, sb, old(view), q, x);
    }

    /** Link x into the ring of t, a node of its size; having no parent tells it from a node. */
    method ChainBehind(x: nat, s: nat, t: nat, ghost loose: set<nat>, ghost st0: Store, ghost p: Pos)
      requires Inserting(x, s, loose, st0) && p in view.t.size && p in view.t.node && t == view.t.node[p]
      requires view.t.size[p] == s
      modifies this`mem, this`view
      ensures Holds(loose - {x}) && view.l == old(view.l) && view.lists == With(old(view.lists), s, x)
      ensures view.ages == Arrived(old(view.ages), x)
      ensures Quiet(Live(view.l), st0.mem, mem)
    {
      hide Marked, Core, Quiet, NodeFields, Bindable;
      ReadNode(St(), sb, view, loose, p);
      CoreChainInserted(st0, sb, view, loose, x);
      ChainFront(St(), sb, view, loose, p);
      assert OkAddress(t) && OkAddress(Fd(mem, t));
      var f := Fd(mem, t);
      mem := SetFd(mem, t, x);
      mem := SetBk(mem, f, x);
      mem := SetFd(mem, x, f);
      mem := SetBk(mem, x, t);
      mem := SetParent(mem, x, 0);
      view := Enlisted(view, s, x);
      assert St() == ChainInsertedStore(st0, old(view), x, s);
    }

    /** unlink_large_chunk. */
    method UnlinkLargeChunk(x: nat, s: nat, ghost loose: set<nat>, ghost k: nat)
      requires Holds(loose) && ListedAs(view, x, k) && s == view.l.chunks[x].size >= MIN_TREE_SIZE
      modifies this`mem, this`treemap, this`treebins, this`view
      ensures Holds(loose + {x}) && view.l == old(view.l) && view.lists == Without(old(view.lists), s, k)
      ensures view.ages == old(view.ages)
      ensures Quiet(Live(view.l), old(mem), mem)
    {
      hide Marked, Core, Quiet, UnlinkBetween, ReplaceWords, SlotWords, RootsWith, BinMaps.Clear, TreeWords, Shaped;
      ghost var st0, p := St(), if s in view.t.pos then view.t.pos[s] else Root(0);
      ReadMember(st0, sb, view, loose, x, k);
      var xp := Parent(mem, x);
      var r := 0;
      if Bk(mem, x) != x {
        r := Bk(mem, x);
        var f := Fd(mem, x);
        assert OkAddress(f) && Bk(mem, f) == x && Fd(mem, r) == x;
        mem := SetBk(mem, f, r);
        mem := SetFd(mem, r, f);
        assert mem == UnlinkBetween(st0.mem, Fd(st0.mem, x), Bk(st0.mem, x)) by { UnlinkWords(st0.mem, f, r); }
        if xp == 0 {
          CoreWaiterUnlinked(st0, sb, view, loose, x, k);
        } else {
          ResidentPosition(st0, sb, view, loose, x);
          CoreHeadUnlinked(st0, sb, view, loose, x, p);
          NodesAfterUnlink(st0, sb, view, loose, x, p);
          ReplaceNode(x, xp, r, view.t.node, p);
          view := view.(t := HeadMoved(view.t, p, r));
        }
        view := Delisted(view, s, k);
      } else {
        ResidentPosition(st0, sb, view, loose, x);
        ghost var q;
        r, q := TakeRightmost(x, loose, p);
        if r == 0 {
          CoreLeafUnlinked(st0, sb, view, loose, x, p);
          NodesReady(st0, sb, view, loose);
          ReplaceNode(x, xp, r, view.t.node, p);
          view := Delisted(view, s, 0).(t := RemoveSize(view.t, p));
        } else {
          CoreInnerUnlinked(st0, sb, view, loose, x, p, q);
          NodesAfterDetach(st0, sb, view, loose, p, q);
          ReplaceNode(x, xp, r, view.t.node - {q}, p);
          view := Delisted(view, s, 0).(t := HoistSize(view.t, p, q));
        }
      }
    }

    /** Take the leaf that the descent to the right, or else to the left, from x ends at out of its slot; 0 when x
        is a leaf itself. */
    method TakeRightmost(x: nat, ghost loose: set<nat>, ghost p: Pos) returns (r: nat, ghost q: Pos)
      requires Holds(loose) && ResidentIn(view, x, p)
      modifies this`mem
      ensures q == RightmostLeaf(view.t.node, p) && (r == 0 <==> q == p)
      ensures r == 0 ==> TrieLeaf(view.t, p) && mem == old(mem)
      ensures r != 0 ==> q in view.t.size && q in view.t.node && Under(p, q) && q.bit > 0 && TrieLeaf(view.t, q)
      ensures r != 0 ==> r == view.t.node[q] && mem == SlotWords(old(mem), view.t.node, q, 0)
    {
      hide Core, Descent, RightmostLeaf;
      NodeChildren(St(), sb, view, loose, p);
      var owner: nat, side: nat := x, 1;
      r := Child(mem, x, 1);
      if r == 0 {
        side := 0;
        r := Child(mem, x, 0);
      }
      q := p;
      RightmostStep(view.t.node, p);
      if r == 0 {
        return;
      }
      q := Down(p, side);
      DescentStart(St(), sb, view, loose, p, r, x, side);
      while Child(mem, r, 1) != 0 || Child(mem, r, 0) != 0
        invariant Descent(view, p, q, r, owner, side)
        invariant mem == old(mem) && owner >= leastAddr
        decreases q.bit
      {
        DescentOn(St(), sb, view, loose, p, q, r, owner, side);
        owner, side := r, if Child(mem, r, 1) != 0 then 1 else 0;
        r := Child(mem, owner, side);
        q := Down(q, side);
      }
      DescentEnd(St(), sb, view, loose, p, q, r, owner, side);
      assert OkAddress(owner);
      mem := SetChild(mem, owner, side, 0);
    }

    /** The second half of unlink_large_chunk: put r, or nothing, in x's place. */
    method ReplaceNode(x: nat, xp: nat, r: nat, ghost nodes: Nodes, ghost p: Pos)
      requires Shaped(nodes) && TreeWords(mem, treebins, sb, nodes) && p in nodes && nodes[p] == x && p.bin < 32
      requires xp == ParentRef(sb, nodes, p) && Index(mem, x) == p.bin
      modifies this`mem, this`treemap, this`treebins
      ensures p.bin < |old(treebins)| && treebins == RootsWith(old(treebins), p, r)
      ensures treemap == if r == 0 && p.bit == RootBit(p.bin) then BinMaps.Clear(old(treemap), p.bin) else old(treemap)
      ensures mem == if r == 0 then SlotWords(old(mem), nodes, p, 0) else ReplaceWords(old(mem), sb, nodes, p, r)
    {
      hide BinMaps.Clear, TreeWords, Shaped;
      SlotSide(mem, treebins, sb, nodes, p);
      var i := Index(mem, x);
      if x == treebins[i] {
        treebins := treebins[i := r];
        if r == 0 {
          treemap := BinMaps.Clear(treemap, i);
        }
      } else if Child(mem, xp, 0) == x {
        mem := SetChild(mem, xp, 0, r);
      } else {
        mem := SetChild(mem, xp, 1, r);
      }
      assert mem == SlotWords(old(mem), nodes, p, r);
      if r != 0 {
        mem := SetParent(mem, r, xp);
        var c0 := Child(mem, x, 0);
        if c0 != 0 {
          mem := SetChild(mem, r, 0, c0);
          mem := SetParent(mem, c0, r);
        }
        var c1 := Child(mem, x, 1);
        if c1 != 0 {
          mem := SetChild(mem, r, 1, c1);
          mem := SetParent(mem, c1, r);
        }
      }
    }

    /** insert_chunk. */
    method InsertChunk(p: nat, s: nat, ghost loose: set<nat>)
      requires Holds(loose) && Bindable(view.l, loose, p) && s == view.l.chunks[p].size
      modifies this`mem, this`smallmap, this`treemap, this`treebins, this`view
      ensures Holds(loose - {p}) && view.l == old(view.l) && view.lists == With(old(view.lists), s, p)
      ensures view.ages == Arrived(old(view.ages), p)
      ensures Quiet(Live(view.l), old(mem), mem)
    {
      hide Core, Quiet, Bindable;
      SmallOrLarge(s);
      if IsSmall(s) {
        InsertSmallChunk(p, s, loose);
      } else {
        InsertLargeChunk(p, s, loose);
      }
    }

    /** unlink_chunk. */
    method UnlinkChunk(p: nat, s: nat, ghost loose: set<nat>, ghost k: nat)
      requires Holds(loose) && ListedAs(view, p, k) && s == view.l.chunks[p].size
      modifies this`mem, this`smallmap, this`treemap, this`treebins, this`view
      ensures Holds(loose + {p}) && view.l == old(view.l) && view.lists == Without(old(view.lists), s, k)
      ensures view.ages == old(view.ages)
      ensures Quiet(Live(view.l), old(mem), mem)
    {
      hide Core, Quiet;
      SmallOrLarge(s);
      if IsSmall(s) {
        UnlinkSmallChunk(p, s, loose, k);
      } else {
        UnlinkLargeChunk(p, s, loose, k);
      }
    }
  }

  lemma SmallOrLarge(s: nat)
    ensures IsSmall(s) <==> s < MIN_LARGE_SIZE
  {
  }

  /** What memory shows of a large listed chunk before it is unlinked. */
  lemma ReadMember(st: Store, sb: nat, v: View, loose: set<nat>, x: nat, k: nat)
    requires Core(st, sb, v, loose) && ListedAs(v, x, k) && v.l.chunks[x].size >= MIN_TREE_SIZE
    ensures Bk(st.mem, x) == x <==> |v.lists[v.l.chunks[x].size]| == 1
    ensures Bk(st.mem, x) != 0 && Bk(st.mem, Fd(st.mem, x)) == x && Fd(st.mem, Bk(st.mem, x)) == x
    ensures Fd(st.mem, x) >= v.l.first
    ensures k > 0 <==> Parent(st.mem, x) == 0
    ensures k == 0 ==> v.l.chunks[x].size in v.t.pos
    ensures k == 0 ==> Parent(st.mem, x) == ParentRef(sb, v.t.node, v.t.pos[v.l.chunks[x].size])
    ensures k == 0 ==> Index(st.mem, x) == v.t.pos[v.l.chunks[x].size].bin
  {
    hide Marked, SmallReady, Tagged, TreeWords;
    var s := v.l.chunks[x].size;
    var r := v.lists[s];
    var a, b := if k == 0 then |r| - 1 else k - 1, if k + 1 == |r| then 0 else k + 1;
    assert LargeRingAt(st.mem, v.lists, s) && RingAt(st.mem, r, k) && RingAt(st.mem, r, a) && RingAt(st.mem, r, b);
    assert ChainAt(st.mem, v.lists, s, k);
    MemberFits(v.l, v.lists, loose, s, a);
    MemberFits(v.l, v.lists, loose, s, b);
    assert k < b ==> r[k] != r[b];
    assert b < k ==> r[b] != r[k];
    if k == 0 {
      ResidentPosition(st, sb, v, loose, x);
      ReadNode(st, sb, v, loose, v.t.pos[s]);
      assert PlacedAt(v.t.node, v.t.pos[s]);
      assert Up(v.t.pos[s]) in v.t.node ==> PlacedAt(v.t.node, Up(v.t.pos[s]));
    }
  }

  lemma UnlinkWords(m: Mem, f: nat, b: nat)
    ensures UnlinkBetween(m, f, b) == SetFd(SetBk(m, f, b), b, f)
  {
  }

  lemma NodesReady(st: Store, sb: nat, v: View, loose: set<nat>)
    requires Core(st, sb, v, loose)
    ensures Shaped(v.t.node) && TreeWords(st.mem, st.roots, sb, v.t.node)
  {
    hide Marked, SmallReady, Tagged;
    NodesShaped(v.l, v.lists, loose, sb, v.t);
  }

  lemma NodesAfterUnlink(st: Store, sb: nat, v: View, loose: set<nat>, x: nat, p: Pos)
    requires Core(st, sb, v, loose) && ResidentIn(v, x, p) && |v.lists[v.l.chunks[x].size]| > 1
    ensures Shaped(v.t.node)
    ensures var m := UnlinkBetween(st.mem, Fd(st.mem, x), Bk(st.mem, x));
      TreeWords(m, st.roots, sb, v.t.node) && Index(m, x) == Index(st.mem, x)
  {
    hide Marked, SmallReady, Tagged, TreeWords, UnlinkBetween;
    var s, f, b := v.l.chunks[x].size, Fd(st.mem, x), Bk(st.mem, x);
    ResidentPosition(st, sb, v, loose, x);
    NodesShaped(v.l, v.lists, loose, sb, v.t);
    RingUnlinked(v.l, v.lists, loose, sb, x, 0, st.mem);
    TreeWordsLinks(v.l, v.lists, loose, sb, v.t, st.roots, st.mem, UnlinkBetween(st.mem, f, b), s, b, f, x);
    LinksApart(v.l, s, b, f, x, x);
    assert SameAt(st.mem, UnlinkBetween(st.mem, f, b), x + 24);
  }

  lemma NodesAfterDetach(st: Store, sb: nat, v: View, loose: set<nat>, p: Pos, q: Pos)
    requires Core(st, sb, v, loose) && p in v.t.size && q in v.t.size && q in v.t.node && q.bit > 0
    requires TrieLeaf(v.t, q) && q != p && Under(p, q)
    ensures Shaped(v.t.node - {q}) && TreeWords(SlotWords(st.mem, v.t.node, q, 0), st.roots, sb, v.t.node - {q})
    ensures p in v.t.node && Index(SlotWords(st.mem, v.t.node, q, 0), v.t.node[p]) == Index(st.mem, v.t.node[p])
    ensures ParentRef(sb, v.t.node - {q}, p) == ParentRef(sb, v.t.node, p)
  {
    hide Marked, SmallReady, Tagged, TreeWords;
    NodesShaped(v.l, v.lists, loose, sb, v.t);
    LeafOfTrie(v.lists, v.t, q);
    PosBits(v.lists, v.t, p);
    PosBits(v.lists, v.t, q);
    SamePosition(p, q);
    TreeWordsSize(st.mem, st.roots, sb, v.t.node);
    Detached(st.mem, st.roots, sb, v.t.node, q);
    NotRootSlot(st.roots, q, 0);
    ShapedWithout(v.t.node, q);
    assert SpreadAt(v.t.node, p, Up(q));
  }

  lemma SlotSide(m: Mem, roots: seq<nat>, sb: nat, nodes: Nodes, p: Pos)
    requires Shaped(nodes) && TreeWords(m, roots, sb, nodes) && p in nodes && p.bin < 32
    ensures |roots| == 32 && (roots[p.bin] == nodes[p] <==> p.bit == RootBit(p.bin))
    ensures p.bit != RootBit(p.bin) ==>
      Up(p) in nodes && ParentRef(sb, nodes, p) == nodes[Up(p)]
        && (Child(m, nodes[Up(p)], 0) == nodes[p] <==> p.prefix % 2 == 0)
  {
    assert PlacedAt(nodes, p) && RootAt(roots, nodes, p.bin);
    if p.bit != RootBit(p.bin) {
      assert Root(p.bin) in nodes ==> SpreadAt(nodes, p, Root(p.bin));
      assert NodeAt(m, sb, nodes, Up(p));
      UpDown(Up(p), p);
      assert Down(Up(p), 0) in nodes ==> SpreadAt(nodes, p, Down(Up(p), 0));
    }
  }

  /** Where the descent from p ends that goes to the right wherever it can. */
  ghost function RightmostLeaf(nodes: Nodes, p: Pos): Pos
    decreases p.bit
  {
    if p.bit == 0 then p
    else if Down(p, 1) in nodes then RightmostLeaf(nodes, Down(p, 1))
    else if Down(p, 0) in nodes then RightmostLeaf(nodes, Down(p, 0))
    else p
  }

  lemma RightmostStep(nodes: Nodes, p: Pos)
    requires p.bit > 0
    ensures RightmostLeaf(nodes, p) ==
      if Down(p, 1) in nodes then RightmostLeaf(nodes, Down(p, 1))
      else if Down(p, 0) in nodes then RightmostLeaf(nodes, Down(p, 0)) else p
  {
  }

  /** The descent from p has come to q, child `side` of owner. */
  ghost predicate Descent(v: View, p: Pos, q: Pos, r: nat, owner: nat, side: nat) {
    && p in v.t.node && q in v.t.node && q in v.t.size && r == v.t.node[q] && r != 0
    && Under(p, q) && q.bit < p.bit <= RootBit(p.bin) && side < 2 && q.bin == p.bin && q.bit > 0
    && Up(q) in v.t.node && v.t.node[Up(q)] == owner && q.prefix % 2 == side
    && RightmostLeaf(v.t.node, p) == RightmostLeaf(v.t.node, q)
  }

  /** What memory shows of the children of the node at q. */
  lemma NodeChildren(st: Store, sb: nat, v: View, loose: set<nat>, q: Pos)
    requires Core(st, sb, v, loose) && q in v.t.node
    ensures q in v.t.size && 2 <= q.bit <= RootBit(q.bin) && v.t.node[q] >= v.l.first && v.t.node[q] > 0
    ensures Child(st.mem, v.t.node[q], 1) == Get(v.t.node, Down(q, 1))
    ensures Child(st.mem, v.t.node[q], 0) == Get(v.t.node, Down(q, 0))
    ensures forall k: nat {:trigger Down(q, k)} ::
      && (Get(v.t.node, Down(q, k)) != 0 <==> Down(q, k) in v.t.node)
      && (Down(q, k) in v.t.size <==> Down(q, k) in v.t.node)
  {
    hide Core;
    NodeSize(st, sb, v, loose, q);
    ReadNode(st, sb, v, loose, q);
    forall k: nat ensures (Get(v.t.node, Down(q, k)) != 0 <==> Down(q, k) in v.t.node)
        && (Down(q, k) in v.t.size <==> Down(q, k) in v.t.node) {
      if Down(q, k) in v.t.node { assert PlacedAt(v.t.node, Down(q, k)); }
      assert Down(q, k) in v.t.size <==> Down(q, k) in v.t.size.Keys;
    }
  }

  lemma DescentStart(st: Store, sb: nat, v: View, loose: set<nat>, p: Pos, r: nat, owner: nat, side: nat)
    requires Core(st, sb, v, loose) && p in v.t.node && p.bit > 0 && side < 2 && r != 0
    requires r == Child(st.mem, v.t.node[p], side) && (side == 0 ==> Child(st.mem, v.t.node[p], 1) == 0)
    requires owner == v.t.node[p]
    ensures Descent(v, p, Down(p, side), r, owner, side) && owner >= v.l.first
  {
    hide Core, RightmostLeaf;
    NodeChildren(st, sb, v, loose, p);
    NodeChildren(st, sb, v, loose, Down(p, side));
    RightmostStep(v.t.node, p);
    UnderRefl(p);
    UpDown(p, Down(p, side));
    SideOf(p, side);
  }

  lemma DescentOn(st: Store, sb: nat, v: View, loose: set<nat>, p: Pos, q: Pos, r: nat, owner: nat, side: nat)
    requires Core(st, sb, v, loose) && Descent(v, p, q, r, owner, side)
    requires (Child(st.mem, r, 1) != 0 || Child(st.mem, r, 0) != 0)
    ensures var side' := if Child(st.mem, r, 1) != 0 then 1 else 0;
      Descent(v, p, Down(q, side'), Child(st.mem, r, side'), r, side') && r >= v.l.first
  {
    hide Core, RightmostLeaf, Under;
    NodeChildren(st, sb, v, loose, q);
    var side' := if Child(st.mem, r, 1) != 0 then 1 else 0;
    NodeChildren(st, sb, v, loose, Down(q, side'));
    RightmostStep(v.t.node, q);
    UnderDown(p, q, side');
    UpDown(q, Down(q, side'));
    SideOf(q, side');
  }

  lemma SideOf(p: Pos, k: nat)
    requires p.bit > 0 && k < 2
    ensures Down(p, k).prefix % 2 == k && Up(Down(p, k)) == p
  {
  }

  lemma DescentEnd(st: Store, sb: nat, v: View, loose: set<nat>, p: Pos, q: Pos, r: nat, owner: nat, side: nat)
    requires Core(st, sb, v, loose) && Descent(v, p, q, r, owner, side) && Child(st.mem, r, 1) == 0
    requires Child(st.mem, r, 0) == 0
    ensures q in v.t.size && q in v.t.node && q != p && Under(p, q) && q.bit > 0 && TrieLeaf(v.t, q)
    ensures r == v.t.node[q] != 0
    ensures SetChild(st.mem, owner, side, 0) == SlotWords(st.mem, v.t.node, q, 0) && q == RightmostLeaf(v.t.node, p)
  {
    hide Core, RightmostLeaf, Under;
    NodeChildren(st, sb, v, loose, q);
    RightmostStep(v.t.node, q);
  }

  lemma NodeSize(st: Store, sb: nat, v: View, loose: set<nat>, q: Pos)
    requires Core(st, sb, v, loose) && q in v.t.node
    ensures q in v.t.size && v.t.node.Keys == v.t.size.Keys
  {
    hide Marked, SmallReady, Tagged, TreeWords;
  }

  lemma UnderRefl(p: Pos)
    requires p.bit > 0
    ensures Under(p, Down(p, 0)) && Under(p, Down(p, 1))
  {
    assert Under(p, p) by { assert Shr(p.prefix, 0) == p.prefix; }
    UnderDown(p, p, 0);
    UnderDown(p, p, 1);
  }

  lemma FirstSmall(st: Store, sb: nat, v: View, loose: set<nat>, s: nat)
    requires Core(st, sb, v, loose) && s in v.lists && s < MIN_LARGE_SIZE
    ensures |v.lists[s]| > 0
    ensures var k := |v.lists[s]| - 1; var p := v.lists[s][k];
      && p == Fd(st.mem, Header(sb, s)) && ListedAs(v, p, k) && v.l.chunks[p].size == s
      && Bk(st.mem, p) == Header(sb, s)
      && ChunkSize(st.mem, p) == s && !v.l.chunks[p].inuse && p !in loose
  {
    hide Marked, TreeReady;
    var k := |v.lists[s]| - 1;
    RingHead(v.l, v.lists, loose, sb, s, st.mem, st.smallmap);
    MemberFits(v.l, v.lists, loose, s, k);
    assert SmallAt(st.mem, sb, v.lists, s) && RingAt(st.mem, SmallRing(sb, v.lists, s), k + 1);
    ReadHead(st.mem, v.l, v.lists[s][k]);
  }

  lemma TreeSizeIndex(s: nat)
    ensures TreeIndex(s) < 32
  {
    IndexBound(s);
  }

  lemma RootNode(st: Store, sb: nat, v: View, loose: set<nat>, s: nat, x: nat)
    requires Core(st, sb, v, loose) && TreeSize(s) && Root(TreeIndex(s)) !in v.t.size
    requires x in v.l.chunks && s == v.l.chunks[x].size
    ensures NewNodeAt(v, x, RootBit(TreeIndex(s))) && PathPos(s, RootBit(TreeIndex(s))) == Root(TreeIndex(s))
  {
    hide Marked;
    PathRoot(s);
    RootFree(v.t, s);
  }

  lemma RootsWithRoot(roots: seq<nat>, q: Pos, x: nat)
    requires q.bin < |roots| && q.bit == RootBit(q.bin)
    ensures RootsWith(roots, q, x) == roots[q.bin := x]
  {
  }

  lemma DescendRoot(st: Store, sb: nat, v: View, loose: set<nat>, s: nat)
    requires Core(st, sb, v, loose) && TreeSize(s) && Root(TreeIndex(s)) in v.t.size
    ensures Descending(v.t, s, Root(TreeIndex(s))) && RootBit(TreeIndex(s)) <= 31
  {
    hide Marked, SmallReady, Tagged;
    DescendStart(v.t, s);
    IndexBound(s);
  }

  lemma DescendOn(st: Store, sb: nat, v: View, loose: set<nat>, s: nat, p: Pos, x: nat)
    requires x in v.l.chunks && v.l.chunks[x].size == s
    requires Core(st, sb, v, loose) && TreeSize(s) && Descending(v.t, s, p) && v.t.size[p] != s
    ensures p.bit >= 3 && p.bit <= RootBit(p.bin) <= 31
    ensures var q := Down(p, Shr(s, p.bit) % 2);
      && q == PathPos(s, p.bit - 1)
      && (q in v.t.size ==> Descending(v.t, s, q))
      && (q in v.t.size <==> q in v.t.node)
      && (q !in v.t.size ==> NewNodeAt(v, x, q.bit))
  {
    hide Marked, SmallReady, Tagged;
    DescendStep(v.t, s, p);
    assert KeyAt(v.t, p);
    IndexBound(v.t.size[p]);
    assert PathPos(s, p.bit - 1) in v.t.size <==> PathPos(s, p.bit - 1) in v.t.size.Keys;
  }

  /** A search for s stands at t, the node at p, its key shifted so that the sign bit tells where to go next. */
  ghost predicate Standing(v: View, t: nat, s: nat, p: Pos, k: nat) {
    && p in v.t.size && p in v.t.node && t == v.t.node[p] && p.bit <= 31
    && Descending(v.t, s, p) && k == Shl(s, 31 - p.bit)
  }

  lemma StandAtRoot(st: Store, sb: nat, v: View, loose: set<nat>, s: nat, t: nat, k: nat)
    requires Core(st, sb, v, loose) && TreeSize(s) && TreeIndex(s) < 32 && Root(TreeIndex(s)) in v.t.size
    requires |st.roots| == 32 && t == st.roots[TreeIndex(s)] && RootBit(TreeIndex(s)) <= 31
    requires k == Shl(s, 31 - RootBit(TreeIndex(s)))
    ensures t != 0 && Standing(v, t, s, Root(TreeIndex(s)), k)
  {
    hide Core, Descending, Shl;
    ReadRoot(st, sb, v, loose, TreeIndex(s));
    DescendRoot(st, sb, v, loose, s);
  }

  /** One level down: the search goes on at the child, or there is none and s is nowhere in the tree. */
  lemma StandLower(st: Store, sb: nat, v: View, loose: set<nat>, x: nat, t: nat, s: nat, p: Pos, k: nat)
    requires Core(st, sb, v, loose) && TreeSize(s) && x in v.l.chunks && v.l.chunks[x].size == s
    requires Standing(v, t, s, p, k) && ChunkSize(st.mem, t) != s
    ensures p in v.t.node && t == v.t.node[p] && 0 < p.bit <= RootBit(p.bin)
    ensures var side := k / 0x8000_0000 % 2;
      var c := Child(st.mem, t, side);
      && Down(p, side) == PathPos(s, p.bit - 1)
      && (c != 0 ==> Standing(v, c, s, Down(p, side), k * 2 % WORD))
      && (c == 0 ==> NewNodeAt(v, x, p.bit - 1) && s !in v.t.pos)
  {
    hide Core, Descending, Shr, Shl, Child, Shaped, RootBit, PathPos;
    ReadNode(st, sb, v, loose, p);
    DescendOn(st, sb, v, loose, s, p, x);
    SideTaken(s, p.bit, k);
    var q := Down(p, Shr(s, p.bit) % 2);
    NodeOccupied(v.t.node, q);
  }

  lemma NodeOccupied(nodes: Nodes, q: Pos)
    requires Shaped(nodes)
    ensures q in nodes <==> Get(nodes, q) != 0
  {
    assert q in nodes ==> PlacedAt(nodes, q);
  }

  /** The sign bit of the key tells the side to take at bit b; the key for the next bit. */
  lemma SideTaken(s: nat, b: nat, k: nat)
    requires s < WORD && 0 < b <= 31 && k == Shl(s, 31 - b)
    ensures k / 0x8000_0000 % 2 == Shr(s, b) % 2 < 2
    ensures k * 2 % WORD == Shl(s, 31 - (b - 1))
  {
    hide Shl, Shr;
    KeyBit(s, 31 - b);
    ShlNext(s, 31 - b);
    BelowTwo(Shr(s, 31 - (31 - b)) % 2);
  }

  lemma ShlNext(x: nat, n: nat)
    ensures Shl(x, n) * 2 % WORD == Shl(x, n + 1)
  {
  }

  lemma BelowTwo(b: nat)
    requires b < 2
    ensures b % 2 == b
  {
  }

  lemma StandFound(st: Store, sb: nat, v: View, loose: set<nat>, t: nat, s: nat, p: Pos, k: nat)
    requires Core(st, sb, v, loose) && Standing(v, t, s, p, k) && ChunkSize(st.mem, t) == s
    ensures p in v.t.size && p in v.t.node && t == v.t.node[p] && v.t.size[p] == s
    ensures s in v.lists && |v.lists[s]| > 0 && t == v.lists[s][0]
  {
    hide Core, Descending, Shr, Shl;
    ReadNode(st, sb, v, loose, p);
  }

  lemma ChainFront(st: Store, sb: nat, v: View, loose: set<nat>, p: Pos)
    requires Core(st, sb, v, loose) && p in v.t.size && p in v.t.node && v.t.size[p] in v.lists
    requires |v.lists[v.t.size[p]]| > 0
    requires v.t.node[p] == v.lists[v.t.size[p]][0] && v.t.size[p] >= MIN_TREE_SIZE
    ensures Fd(st.mem, v.t.node[p]) >= v.l.first && v.t.node[p] >= v.l.first
  {
    hide Marked, SmallReady, Tagged, TreeWords;
    var s := v.t.size[p];
    assert LargeRingAt(st.mem, v.lists, s) && RingAt(st.mem, v.lists[s], 0);
    MemberFits(v.l, v.lists, loose, s, 0);
    MemberFits(v.l, v.lists, loose, s, |v.lists[s]| - 1);
  }

  lemma BinSize(st: Store, sb: nat, v: View, loose: set<nat>, p: nat)
    requires Core(st, sb, v, loose) && Bindable(v.l, loose, p)
    ensures v.l.chunks[p].size % 8 == 0 && v.l.chunks[p].size >= 16 && p >= v.l.first > 0
  {
    hide SmallReady, TreeReady, Tagged;
    assert FitsAt(v.l, p);
  }

  lemma ListedSize(st: Store, sb: nat, v: View, loose: set<nat>, p: nat, k: nat)
    requires Core(st, sb, v, loose) && ListedAs(v, p, k)
    ensures v.l.chunks[p].size % 8 == 0 && v.l.chunks[p].size >= 16 && p >= v.l.first > 0 && !v.l.chunks[p].inuse
    ensures p !in loose
  {
    hide SmallReady, TreeReady, Tagged;
    MemberFits(v.l, v.lists, loose, v.l.chunks[p].size, k);
  }
}
