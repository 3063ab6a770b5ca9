/** Positions in the tries, and the child and parent words that link the nodes occupying them. */
module Positions {
  import opened Memory
  import opened TreeIndices

  /** The subtree of sizes in `bin` whose bits above `bit` spell `prefix`. */
  datatype Pos = Pos(bin: nat, bit: nat, prefix: nat)

  function Up(p: Pos): Pos {
    Pos(p.bin, p.bit + 1, p.prefix / 2)
  }

  function Down(p: Pos, k: nat): Pos
    requires p.bit > 0
  {
    Pos(p.bin, p.bit - 1, 2 * p.prefix + k)
  }

  function Root(i: nat): Pos {
    Pos(i, RootBit(i), RootPrefix(i))
  }

  /** Which position holds which tree-resident chunk. */
  type Nodes = map<Pos, nat>

  function Get(nodes: Nodes, p: Pos): nat {
    if p in nodes then nodes[p] else 0
  }

  /** The address of treebins[i]; the array follows smallbins in malloc_state. */
  function TreeRef(sb: nat, i: nat): nat { sb + 264 + 4 * i }

  function ParentRef(sb: nat, nodes: Nodes, p: Pos): nat {
    if p.bit == RootBit(p.bin) then TreeRef(sb, p.bin) else Get(nodes, Up(p))
  }

  ghost predicate PlacedAt(nodes: Nodes, p: Pos)
    requires p in nodes
  {
    && p.bin < NTREEBINS && 2 <= p.bit <= RootBit(p.bin)
    && (p.bit == RootBit(p.bin) ==> p == Root(p.bin))
    && (p.bit < RootBit(p.bin) ==> Up(p) in nodes)
    && nodes[p] > 0
  }

  /** Nodes are tree chunks: 32 bytes of fields that overlap no other node's. */
  ghost predicate SpreadAt(nodes: Nodes, p: Pos, q: Pos)
    requires p in nodes && q in nodes
  {
    p != q ==> nodes[p] + 32 <= nodes[q] || nodes[q] + 32 <= nodes[p]
  }

  ghost predicate Shaped(nodes: Nodes) {
    && (forall p {:trigger PlacedAt(nodes, p)} :: p in nodes ==> PlacedAt(nodes, p))
    && (forall p, q {:trigger SpreadAt(nodes, p, q)} :: p in nodes && q in nodes ==> SpreadAt(nodes, p, q))
  }

  ghost predicate NodeAt(m: Mem, sb: nat, nodes: Nodes, p: Pos)
    requires p in nodes && p.bit > 0
  {
    && Child(m, nodes[p], 0) == Get(nodes, Down(p, 0))
    && Child(m, nodes[p], 1) == Get(nodes, Down(p, 1))
    && Parent(m, nodes[p]) == ParentRef(sb, nodes, p)
  }

  ghost predicate RootAt(roots: seq<nat>, nodes: Nodes, i: nat)
    requires i < |roots|
  {
    roots[i] == Get(nodes, Root(i))
  }

  ghost predicate TreeWords(m: Mem, roots: seq<nat>, sb: nat, nodes: Nodes) {
    && |roots| == NTREEBINS
    && (forall i: nat {:trigger RootAt(roots, nodes, i)} :: i < NTREEBINS ==> RootAt(roots, nodes, i))
    && (forall p {:trigger NodeAt(m, sb, nodes, p)} :: p in nodes && p.bit > 0 ==> NodeAt(m, sb, nodes, p))
  }

  lemma NodeFrame(m: Mem, m': Mem, sb: nat, nodes: Nodes, nodes': Nodes, p: Pos)
    requires p in nodes && p in nodes' && p.bit > 0 && NodeAt(m, sb, nodes, p)
    requires nodes'[p] == nodes[p] && ParentRef(sb, nodes', p) == ParentRef(sb, nodes, p)
    requires Get(nodes', Down(p, 0)) == Get(nodes, Down(p, 0)) && Get(nodes', Down(p, 1)) == Get(nodes, Down(p, 1))
    requires SameAt(m, m', nodes[p] + 16) && SameAt(m, m', nodes[p] + 24)
    ensures NodeAt(m', sb, nodes', p)
  {
  }

  ghost predicate Apart32(x: nat, y: nat) {
    x + 32 <= y || y + 32 <= x
  }

  /** Hang the childless chunk x at the free position q: its slot, its parent word, no children. */
  function AttachWords(m: Mem, sb: nat, nodes: Nodes, q: Pos, x: nat): Mem {
    if q.bit == RootBit(q.bin) then SetParent(m, x, TreeRef(sb, q.bin))
    else SetParent(SetChild(m, Get(nodes, Up(q)), q.prefix % 2, x), x, Get(nodes, Up(q)))
  }

  lemma ShapedWith(nodes: Nodes, q: Pos, x: nat)
    requires Shaped(nodes) && q !in nodes
    requires q.bin < NTREEBINS && 2 <= q.bit <= RootBit(q.bin) && x > 0
    requires if q.bit == RootBit(q.bin) then q == Root(q.bin) else Up(q) in nodes
    requires forall p {:trigger nodes[p]} :: p in nodes ==> nodes[p] + 32 <= x || x + 32 <= nodes[p]
    ensures Shaped(nodes[q := x])
  {
    var n := nodes[q := x];
    forall p | p in n ensures PlacedAt(n, p) {
      if p != q { assert PlacedAt(nodes, p); }
    }
    forall p, r | p in n && r in n ensures SpreadAt(n, p, r) {
      if p != q && r != q { assert SpreadAt(nodes, p, r); }
    }
  }

  lemma UpDown(p: Pos, q: Pos)
    requires p.bit > 0
    ensures Down(p, 0) == q <==> p == Up(q) && q.prefix % 2 == 0
    ensures Down(p, 1) == q <==> p == Up(q) && q.prefix % 2 == 1
  {
  }

  lemma AttachedAt(m: Mem, roots: seq<nat>, sb: nat, nodes: Nodes, q: Pos, x: nat, p: Pos)
    requires Shaped(nodes) && TreeWords(m, roots, sb, nodes) && q !in nodes && q.bit > 0
    requires Shaped(nodes[q := x])
    requires p in nodes && p.bit > 0
    ensures NodeAt(AttachWords(m, sb, nodes, q, x), sb, nodes[q := x], p)
  {
    if p == Up(q) {
      AttachedParent(m, roots, sb, nodes, q, x, p);
    } else {
      AttachedElsewhere(m, roots, sb, nodes, q, x, p);
    }
  }

  lemma AttachedParent(m: Mem, roots: seq<nat>, sb: nat, nodes: Nodes, q: Pos, x: nat, p: Pos)
    requires Shaped(nodes) && TreeWords(m, roots, sb, nodes) && q !in nodes && q.bit > 0
    requires Shaped(nodes[q := x])
    requires p in nodes && p.bit > 0 && p == Up(q)
    ensures NodeAt(AttachWords(m, sb, nodes, q, x), sb, nodes[q := x], p)
  {
    hide Child, Parent, SetChild, SetParent, RootBit, RootPrefix;
    var n, k := nodes[q := x], q.prefix % 2;
    assert PlacedAt(n, q) && PlacedAt(nodes, p) && NodeAt(m, sb, nodes, p) && SpreadAt(n, p, q);
    UpDown(p, q);
    assert Down(p, k) == q && Down(p, 1 - k) != q;
    assert ParentRef(sb, n, p) == ParentRef(sb, nodes, p);
    HungBelow(m, nodes[p], k, x);
  }

  /** Hanging x below u as child k leaves u's other words. */
  lemma HungBelow(m: Mem, u: nat, k: nat, x: nat)
    requires k < 2 && Apart32(u, x)
    ensures var m' := SetParent(SetChild(m, u, k, x), x, u);
      Child(m', u, k) == x && Child(m', u, 1 - k) == Child(m, u, 1 - k) && Parent(m', u) == Parent(m, u)
  {
  }

  lemma AttachedElsewhere(m: Mem, roots: seq<nat>, sb: nat, nodes: Nodes, q: Pos, x: nat, p: Pos)
    requires Shaped(nodes) && TreeWords(m, roots, sb, nodes) && q !in nodes && q.bit > 0
    requires Shaped(nodes[q := x])
    requires p in nodes && p.bit > 0 && p != Up(q)
    ensures NodeAt(AttachWords(m, sb, nodes, q, x), sb, nodes[q := x], p)
  {
    var n, m' := nodes[q := x], AttachWords(m, sb, nodes, q, x);
    assert PlacedAt(n, q) && PlacedAt(nodes, p) && NodeAt(m, sb, nodes, p) && SpreadAt(n, p, q);
    UpDown(p, q);
    if Up(q) in nodes { assert SpreadAt(nodes, p, Up(q)); }
    NodeFrame(m, m', sb, nodes, n, p);
  }

  ghost function RootsWith(roots: seq<nat>, q: Pos, x: nat): seq<nat>
    requires q.bin < |roots|
  {
    if q.bit == RootBit(q.bin) then roots[q.bin := x] else roots
  }

  lemma Attached(m: Mem, roots: seq<nat>, sb: nat, nodes: Nodes, q: Pos, x: nat)
    requires Shaped(nodes) && TreeWords(m, roots, sb, nodes) && q !in nodes
    requires Shaped(nodes[q := x]) && q.bin < |roots|
    requires Child(m, x, 0) == 0 && Child(m, x, 1) == 0
    ensures TreeWords(AttachWords(m, sb, nodes, q, x), RootsWith(roots, q, x), sb, nodes[q := x])
  {
    var n, m' := nodes[q := x], AttachWords(m, sb, nodes, q, x);
    assert PlacedAt(n, q);
    forall i: nat | i < NTREEBINS ensures RootAt(RootsWith(roots, q, x), n, i) { assert RootAt(roots, nodes, i); }
    NoChildren(nodes, q);
    if Up(q) in nodes { assert SpreadAt(n, Up(q), q); }
    forall p | p in n && p.bit > 0 ensures NodeAt(m', sb, n, p) {
      if p != q { AttachedAt(m, roots, sb, nodes, q, x, p); }
    }
  }

  /** Positions below a free one are free. */
  lemma NoChildren(nodes: Nodes, q: Pos)
    requires Shaped(nodes) && q !in nodes && q.bit > 0
    requires q.bin < NTREEBINS && q.bit <= RootBit(q.bin)
    ensures Down(q, 0) !in nodes && Down(q, 1) !in nodes
  {
    assert Down(q, 0) in nodes ==> PlacedAt(nodes, Down(q, 0));
    assert Down(q, 1) in nodes ==> PlacedAt(nodes, Down(q, 1));
    assert Up(Down(q, 0)) == q && Up(Down(q, 1)) == q;
  }

  ghost predicate Leaf(nodes: Nodes, q: Pos)
    requires q.bit > 0
  {
    Down(q, 0) !in nodes && Down(q, 1) !in nodes
  }

  /** Store r in the slot that holds the node at q. */
  function SlotWords(m: Mem, nodes: Nodes, q: Pos, r: nat): Mem {
    if q.bit == RootBit(q.bin) then m else SetChild(m, Get(nodes, Up(q)), q.prefix % 2, r)
  }

  lemma ShapedWithout(nodes: Nodes, q: Pos)
    requires Shaped(nodes) && q in nodes && q.bit > 0 && Leaf(nodes, q)
    ensures Shaped(nodes - {q})
  {
    var n := nodes - {q};
    forall p | p in n ensures PlacedAt(n, p) {
      assert PlacedAt(nodes, p);
      UpDown(q, p);
    }
    forall p, r | p in n && r in n ensures SpreadAt(n, p, r) { assert SpreadAt(nodes, p, r); }
  }

  lemma DetachedAt(m: Mem, roots: seq<nat>, sb: nat, nodes: Nodes, q: Pos, p: Pos)
    requires Shaped(nodes) && TreeWords(m, roots, sb, nodes) && q in nodes && q.bit > 0 && Leaf(nodes, q)
    requires p in nodes && p != q && p.bit > 0
    ensures NodeAt(SlotWords(m, nodes, q, 0), sb, nodes - {q}, p)
  {
    var n, m' := nodes - {q}, SlotWords(m, nodes, q, 0);
    assert PlacedAt(nodes, q) && PlacedAt(nodes, p) && NodeAt(m, sb, nodes, p);
    UpDown(p, q);
    UpDown(q, p);
    if Up(q) in nodes { assert SpreadAt(nodes, p, Up(q)); }
    if p != Up(q) {
      NodeFrame(m, m', sb, nodes, n, p);
    }
  }

  /** Clearing the slot of a leaf removes exactly that node. */
  lemma Detached(m: Mem, roots: seq<nat>, sb: nat, nodes: Nodes, q: Pos)
    requires Shaped(nodes) && TreeWords(m, roots, sb, nodes) && q in nodes && q.bit > 0 && Leaf(nodes, q)
    requires q.bin < |roots|
    ensures TreeWords(SlotWords(m, nodes, q, 0), RootsWith(roots, q, 0), sb, nodes - {q})
  {
    var n, m' := nodes - {q}, SlotWords(m, nodes, q, 0);
    assert PlacedAt(nodes, q);
    forall i: nat | i < NTREEBINS ensures RootAt(RootsWith(roots, q, 0), n, i) { assert RootAt(roots, nodes, i); }
    forall p | p in n && p.bit > 0 ensures NodeAt(m', sb, n, p) { DetachedAt(m, roots, sb, nodes, q, p); }
  }

  /** Hand x's k-th child, if it has one, over to r. */
  function AdoptWords(m: Mem, x: nat, k: nat, r: nat): Mem {
    var c := Child(m, x, k);
    if c != 0 then SetParent(SetChild(m, r, k, c), c, r) else m
  }

  /** Put the childless chunk r in place of the node at p: slot, parent word, and both children. */
  function ReplaceWords(m: Mem, sb: nat, nodes: Nodes, p: Pos, r: nat): Mem {
    var m1 := SetParent(SlotWords(m, nodes, p, r), r, ParentRef(sb, nodes, p));
    AdoptWords(AdoptWords(m1, Get(nodes, p), 0, r), Get(nodes, p), 1, r)
  }

  lemma Replaced(m: Mem, roots: seq<nat>, sb: nat, nodes: Nodes, p: Pos, r: nat)
    requires Shaped(nodes) && TreeWords(m, roots, sb, nodes) && p in nodes && r > 0
    requires forall q {:trigger nodes[q]} :: q in nodes ==> nodes[q] + 32 <= r || r + 32 <= nodes[q]
    requires Child(m, r, 0) == 0 && Child(m, r, 1) == 0 && p.bin < |roots|
    ensures TreeWords(ReplaceWords(m, sb, nodes, p, r), RootsWith(roots, p, r), sb, nodes[p := r])
  {
    var n, m' := nodes[p := r], ReplaceWords(m, sb, nodes, p, r);
    assert PlacedAt(nodes, p);
    forall i: nat | i < NTREEBINS ensures RootAt(RootsWith(roots, p, r), n, i) { assert RootAt(roots, nodes, i); }
    forall q | q in n && q.bit > 0 ensures NodeAt(m', sb, n, q) {
      if q == p { ReplacedSelf(m, roots, sb, nodes, p, r); }
      else { ReplacedAt(m, roots, sb, nodes, p, r, q); }
    }
  }

  lemma ReplacedSelf(m: Mem, roots: seq<nat>, sb: nat, nodes: Nodes, p: Pos, r: nat)
    requires Shaped(nodes) && TreeWords(m, roots, sb, nodes) && p in nodes && r > 0
    requires forall q {:trigger nodes[q]} :: q in nodes ==> nodes[q] + 32 <= r || r + 32 <= nodes[q]
    requires Child(m, r, 0) == 0 && Child(m, r, 1) == 0
    ensures p.bit > 0 && NodeAt(ReplaceWords(m, sb, nodes, p, r), sb, nodes[p := r], p)
  {
    hide SlotWords, AdoptWords, RootAt, Child, Parent, SetChild, SetParent, RootBit, RootPrefix;
    var n, x := nodes[p := r], nodes[p];
    assert PlacedAt(nodes, p) && NodeAt(m, sb, nodes, p);
    var m0 := SlotWords(m, nodes, p, r);
    SlotEffect(m, roots, sb, nodes, p, r, p);
    SlotBeside(m, nodes, p, r);
    var m1 := SetParent(m0, r, ParentRef(sb, nodes, p));
    var m2 := AdoptWords(m1, x, 0, r);
    if Down(p, 0) in nodes { assert SpreadAt(nodes, p, Down(p, 0)) && PlacedAt(nodes, Down(p, 0)); }
    if Down(p, 1) in nodes { assert SpreadAt(nodes, p, Down(p, 1)) && PlacedAt(nodes, Down(p, 1)); }
    ParentEffect(m0, r, ParentRef(sb, nodes, p), x);
    ParentSelf(m0, r, ParentRef(sb, nodes, p));
    AdoptEffect(m1, x, 0, r, x);
    AdoptSelf(m1, x, 0, r);
    AdoptSelf(m2, x, 1, r);
  }

  /** The slot lies in a node, hence not in r. */
  lemma SlotBeside(m: Mem, nodes: Nodes, p: Pos, r: nat)
    requires Shaped(nodes) && p in nodes
    requires forall q {:trigger nodes[q]} :: q in nodes ==> nodes[q] + 32 <= r || r + 32 <= nodes[q]
    ensures Child(SlotWords(m, nodes, p, r), r, 0) == Child(m, r, 0)
    ensures Child(SlotWords(m, nodes, p, r), r, 1) == Child(m, r, 1)
  {
    assert PlacedAt(nodes, p);
  }

  lemma ParentSelf(m: Mem, r: nat, u: nat)
    ensures Child(SetParent(m, r, u), r, 0) == Child(m, r, 0) && Child(SetParent(m, r, u), r, 1) == Child(m, r, 1)
    ensures Parent(SetParent(m, r, u), r) == u
  {
  }

  lemma AdoptSelf(m: Mem, x: nat, k: nat, r: nat)
    requires k < 2 && (Child(m, x, k) == 0 || Apart32(Child(m, x, k), r))
    ensures var c, m' := Child(m, x, k), AdoptWords(m, x, k, r);
      && Child(m', r, k) == (if c != 0 then c else Child(m, r, k))
      && Child(m', r, 1 - k) == Child(m, r, 1 - k) && Parent(m', r) == Parent(m, r)
  {
  }

  lemma AdoptEffect(m: Mem, x: nat, k: nat, r: nat, y: nat)
    requires k < 2 && Apart32(y, r)
    requires Child(m, x, k) == 0 || Child(m, x, k) == y || Apart32(Child(m, x, k), y)
    ensures Child(AdoptWords(m, x, k, r), y, 0) == Child(m, y, 0)
    ensures Child(AdoptWords(m, x, k, r), y, 1) == Child(m, y, 1)
    ensures Parent(AdoptWords(m, x, k, r), y) == if Child(m, x, k) != 0 && y == Child(m, x, k) then r else Parent(m, y)
  {
  }

  lemma ParentEffect(m: Mem, r: nat, u: nat, y: nat)
    requires Apart32(y, r)
    ensures Child(SetParent(m, r, u), y, 0) == Child(m, y, 0) && Child(SetParent(m, r, u), y, 1) == Child(m, y, 1)
    ensures Parent(SetParent(m, r, u), y) == Parent(m, y)
  {
  }

  lemma ReplacedAt(m: Mem, roots: seq<nat>, sb: nat, nodes: Nodes, p: Pos, r: nat, q: Pos)
    requires Shaped(nodes) && TreeWords(m, roots, sb, nodes) && p in nodes && r > 0
    requires forall q {:trigger nodes[q]} :: q in nodes ==> nodes[q] + 32 <= r || r + 32 <= nodes[q]
    requires q in nodes && q != p && q.bit > 0
    ensures NodeAt(ReplaceWords(m, sb, nodes, p, r), sb, nodes[p := r], q)
  {
    hide SlotWords, AdoptWords, RootAt, Child, Parent, SetChild, SetParent, RootBit, RootPrefix;
    var n, x, y := nodes[p := r], nodes[p], nodes[q];
    assert PlacedAt(nodes, p) && NodeAt(m, sb, nodes, p) && PlacedAt(nodes, q) && NodeAt(m, sb, nodes, q);
    assert SpreadAt(nodes, p, q);
    var m0 := SlotWords(m, nodes, p, r);
    SlotEffect(m, roots, sb, nodes, p, r, q);
    SlotEffect(m, roots, sb, nodes, p, r, p);
    var m1 := SetParent(m0, r, ParentRef(sb, nodes, p));
    var m2 := AdoptWords(m1, x, 0, r);
    if Down(p, 0) in nodes {
      assert SpreadAt(nodes, q, Down(p, 0)) && SpreadAt(nodes, p, Down(p, 0)) && PlacedAt(nodes, Down(p, 0));
    }
    if Down(p, 1) in nodes {
      assert SpreadAt(nodes, q, Down(p, 1)) && SpreadAt(nodes, p, Down(p, 1)) && PlacedAt(nodes, Down(p, 1));
    }
    ParentEffect(m0, r, ParentRef(sb, nodes, p), x);
    ParentEffect(m0, r, ParentRef(sb, nodes, p), y);
    AdoptEffect(m1, x, 0, r, y);
    AdoptEffect(m1, x, 0, r, x);
    AdoptEffect(m2, x, 1, r, y);
    UpDown(q, p);
    UpDown(p, q);
  }

  lemma SlotEffect(m: Mem, roots: seq<nat>, sb: nat, nodes: Nodes, p: Pos, r: nat, q: Pos)
    requires Shaped(nodes) && TreeWords(m, roots, sb, nodes) && p in nodes && q in nodes
    ensures var m' := SlotWords(m, nodes, p, r);
      && Child(m', nodes[q], 0) == (if q == Up(p) && p.bit < RootBit(p.bin) && p.prefix % 2 == 0 then r
          else Child(m, nodes[q], 0))
      && Child(m', nodes[q], 1) == (if q == Up(p) && p.bit < RootBit(p.bin) && p.prefix % 2 == 1 then r
          else Child(m, nodes[q], 1))
      && Parent(m', nodes[q]) == Parent(m, nodes[q])
  {
    assert PlacedAt(nodes, p);
    if Up(p) in nodes { assert SpreadAt(nodes, q, Up(p)); }
  }
}
