/** Chunks of one large size form a queue, and its tree-resident member is always the oldest. */
module Fifo {
  import opened Bins
  import opened Ages
  import opened SmallBins
  import opened Tries
  import opened TreeBins
  import opened Heaps
  import opened MallocStates
  import opened Memory
  import opened Payloads
  import opened Freeing
  import opened Morecores
  import opened SysAllocs

  /** The node that the size s has in its tree is the chunk of that size that was listed first. */
  ghost predicate OldestAt(v: View, s: nat) {
    && s in v.t.pos && v.t.pos[s] in v.t.node
    && var x := v.t.node[v.t.pos[s]];
      && Queued(v.lists, s, x) && x in v.ages.born
      && forall y {:trigger Queued(v.lists, s, y)} :: Queued(v.lists, s, y) && y != x ==>
          y in v.ages.born && v.ages.born[x] < v.ages.born[y]
  }

  ghost predicate OldestFirst(v: View) {
    forall s {:trigger OldestAt(v, s)} :: s in v.lists && s >= MIN_TREE_SIZE ==> OldestAt(v, s)
  }

  lemma HeadIsOldest(lists: Lists, ages: Ages, s: nat, y: nat)
    requires ByAge(lists, ages) && Queued(lists, s, y) && y != lists[s][0]
    ensures lists[s][0] in ages.born && y in ages.born && ages.born[lists[s][0]] < ages.born[y]
  {
    var k: nat :| k < |lists[s]| && lists[s][k] == y;
    ElderFirst(lists, ages, s, 0, k);
  }

  lemma ResidentIsOldest(st: Store, sb: nat, v: View, loose: set<nat>, s: nat)
    requires Core(st, sb, v, loose) && s in v.lists && s >= MIN_TREE_SIZE
    ensures OldestAt(v, s)
  {
    hide SmallReady, ByAge;
    assert LargeAt(v.lists, v.t, s);
    assert SizeAt(v.t, s) && KeyAt(v.t, v.t.pos[s]) && ResidentAt(v.lists, v.t, v.t.pos[s]);
    DatedHead(v, s);
    forall y | Queued(v.lists, s, y) && y != v.lists[s][0]
      ensures y in v.ages.born && v.ages.born[v.lists[s][0]] < v.ages.born[y]
    {
      HeadIsOldest(v.lists, v.ages, s, y);
    }
  }

  lemma DatedHead(v: View, s: nat)
    requires ByAge(v.lists, v.ages) && s in v.lists && |v.lists[s]| > 0
    ensures v.lists[s][0] in v.ages.born
  {
    assert DatedAt(v.lists, v.ages, s, 0);
  }

  /** In every state between calls, in every tree, the resident chunk is the oldest of its size. */
  lemma AlwaysOldestFirst(m: MallocState, core: LinearMemory)
    requires Valid(m, core)
    ensures OldestFirst(m.view) && ByAge(m.view.lists, m.view.ages)
  {
    if m.top != 0 {
      assert ByAge(m.view.lists, m.view.ages) by { CoreByAge(m.St(), m.sb, m.view, m.Resting()); }
      hide Core, OldestAt, ByAge;
      forall s | s in m.view.lists && s >= MIN_TREE_SIZE ensures OldestAt(m.view, s) {
        ResidentIsOldest(m.St(), m.sb, m.view, m.Resting(), s);
      }
    }
  }

  lemma CoreByAge(st: Store, sb: nat, v: View, loose: set<nat>)
    requires Core(st, sb, v, loose)
    ensures ByAge(v.lists, v.ages)
  {
    hide SmallReady, TreeReady;
  }

  /** Over any number of calls, whatever else enters and leaves, the head of a queue is not overtaken: as long as
      it has not been taken out, it is the head. */
  lemma HeadStays(v0: View, v: View, s: nat)
    requires ByAge(v0.lists, v0.ages) && ByAge(v.lists, v.ages) && AgingSince(v0, v) && s in v0.lists
    requires |v0.lists[s]| > 0
    requires var x := v0.lists[s][0];
      Queued(v.lists, s, x) && x in v.ages.born && x in v0.ages.born && v.ages.born[x] == v0.ages.born[x]
    ensures v.lists[s][0] == v0.lists[s][0]
  {
    hide ByAge;
    var x, y := v0.lists[s][0], v.lists[s][0];
    if y != x {
      HeadIsOldest(v.lists, v.ages, s, x);
      assert AgingAt(v0.lists, v0.ages, v.lists, v.ages, s, 0);
      assert v0.ages.born[x] < v0.ages.clock by { BornBefore(v0, s); }
      HeadIsOldest(v0.lists, v0.ages, s, y);
    }
  }

  lemma BornBefore(v: View, s: nat)
    requires ByAge(v.lists, v.ages) && s in v.lists && |v.lists[s]| > 0
    ensures v.lists[s][0] in v.ages.born && v.ages.born[v.lists[s][0]] < v.ages.clock
  {
    assert DatedAt(v.lists, v.ages, s, 0);
  }

  /** Two listed chunks that both stay listed when a third chunk is freed stay in their order. */
  lemma FreeingKeepsOrder(st: Store, sb: nat, v0: View, loose: set<nat>, m: MallocState, m0: Mem, p: nat, s: nat,
          i: nat, j: nat, i': nat, j': nat)
    requires Core(st, sb, v0, loose) && Freed(m, v0, m0, p)
    requires s in v0.lists && s in m.view.lists && i < j < |v0.lists[s]| && i' < |m.view.lists[s]|
    requires j' < |m.view.lists[s]|
    requires v0.lists[s][i] == m.view.lists[s][i'] && v0.lists[s][j] == m.view.lists[s][j']
    ensures i' < j'
  {
    hide ByAge, Steady, Quiet;
    CoreByAge(st, sb, v0, loose);
    CoreByAge(m.St(), m.sb, m.view, m.Resting());
    OrderKept(v0.lists, v0.ages, m.view.lists, m.view.ages, s, i, j, i', j');
  }

  // whole runs

  ghost predicate Aged(views: seq<View>, i: nat)
    requires i < |views|
  {
    OldestFirst(views[i]) && ByAge(views[i].lists, views[i].ages) && (i > 0 ==> SteadySince(views[i - 1], views[i]))
  }

  /** Every state has the oldest chunk of each large size in its tree, and no step changes the order of the chunks that
      stay listed. */
  ghost predicate Queues(views: seq<View>) {
    forall i: nat {:trigger Aged(views, i)} :: i < |views| ==> Aged(views, i)
  }

  lemma QueuesGrow(views: seq<View>, v: View)
    requires Queues(views) && OldestFirst(v) && ByAge(v.lists, v.ages)
    requires |views| > 0 ==> SteadySince(views[|views| - 1], v)
    ensures Queues(views + [v])
  {
    hide OldestFirst, ByAge, Steady;
    forall i: nat | i < |views + [v]| ensures Aged(views + [v], i) {
      if i < |views| { assert Aged(views, i); }
    }
  }

  lemma {:induction false} AgingAlong(views: seq<View>, i: nat, j: nat)
    requires Queues(views) && i < j < |views|
    ensures AgingSince(views[i], views[j])
    decreases j
  {
    hide OldestFirst, ByAge, Aging, Steady;
    assert Aged(views, j);
    SteadyIsAging(views[j - 1].lists, views[j - 1].ages, views[j].lists, views[j].ages);
    if i < j - 1 {
      AgingAlong(views, i, j - 1);
      AgingTransitive(views[i].lists, views[i].ages, views[j - 1].lists, views[j - 1].ages, views[j].lists,
        views[j].ages);
    }
  }

  /** Two chunks listed under one size before and after a call, whatever the call, are in the same order. */
  lemma CallsKeepOrder(views: seq<View>, n: nat, s: nat, i: nat, j: nat, i': nat, j': nat)
    requires Queues(views) && n + 1 < |views| && s in views[n].lists && s in views[n + 1].lists
    requires i < j < |views[n].lists[s]| && i' < |views[n + 1].lists[s]| && j' < |views[n + 1].lists[s]|
    requires views[n].lists[s][i] == views[n + 1].lists[s][i'] && views[n].lists[s][j] == views[n + 1].lists[s][j']
    ensures i' < j'
  {
    assert Aged(views, n) && Aged(views, n + 1);
    hide OldestFirst, ByAge, Steady;
    OrderKept(views[n].lists, views[n].ages, views[n + 1].lists, views[n + 1].ages, s, i, j, i', j');
  }

  /** First in, first out: between any two states of a run the resident chunk of a size changes only by being
      taken out. */
  lemma FirstInFirstOut(views: seq<View>, i: nat, j: nat, s: nat)
    requires Queues(views) && i < j < |views| && s in views[i].lists && s in views[j].lists && s >= MIN_TREE_SIZE
    ensures s in views[i].t.pos && views[i].t.pos[s] in views[i].t.node && s in views[j].t.pos
    ensures views[j].t.pos[s] in views[j].t.node
    ensures var x := views[i].t.node[views[i].t.pos[s]];
      && x in views[i].ages.born
      && (Queued(views[j].lists, s, x) && x in views[j].ages.born && views[j].ages.born[x] == views[i].ages.born[x] ==>
            views[j].t.node[views[j].t.pos[s]] == x)
  {
    assert Aged(views, i) && Aged(views, j);
    assert OldestAt(views[i], s) && OldestAt(views[j], s);
    hide OldestFirst, ByAge, Aging, OldestAt;
    ResidentHead(views[i], s);
    ResidentHead(views[j], s);
    AgingAlong(views, i, j);
    var x := views[i].t.node[views[i].t.pos[s]];
    if Queued(views[j].lists, s, x) && x in views[j].ages.born && views[j].ages.born[x] == views[i].ages.born[x] {
      HeadStays(views[i], views[j], s);
    }
  }

  lemma ResidentHead(v: View, s: nat)
    requires OldestAt(v, s) && ByAge(v.lists, v.ages) && s in v.lists
    ensures |v.lists[s]| > 0 && v.lists[s][0] in v.ages.born
    ensures s in v.t.pos && v.t.pos[s] in v.t.node && v.t.node[v.t.pos[s]] == v.lists[s][0]
  {
    hide ByAge;
    var x := v.t.node[v.t.pos[s]];
    assert Queued(v.lists, s, v.lists[s][0]);
    if x != v.lists[s][0] { HeadIsOldest(v.lists, v.ages, s, x); }
  }
}
