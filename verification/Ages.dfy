/** How long the chunks in the free lists have been there. */
module Ages {
  import opened Bins

  /** When each chunk was last listed, on a clock that ticks once per chunk listed. */
  datatype Ages = Ages(born: map<nat, nat>, clock: nat)

  ghost function Arrived(ages: Ages, x: nat): Ages {
    Ages(ages.born[x := ages.clock], ages.clock + 1)
  }

  ghost predicate Queued(lists: Lists, s: nat, x: nat) {
    s in lists && x in lists[s]
  }

  ghost predicate DatedAt(lists: Lists, ages: Ages, s: nat, k: nat)
    requires s in lists && k < |lists[s]|
  {
    && lists[s][k] in ages.born && ages.born[lists[s][k]] < ages.clock
    && (k + 1 < |lists[s]| ==> lists[s][k + 1] in ages.born && ages.born[lists[s][k]] < ages.born[lists[s][k + 1]])
  }

  /** Every list is in order of age, the oldest chunk first. */
  ghost predicate ByAge(lists: Lists, ages: Ages) {
    forall s, k: nat {:trigger DatedAt(lists, ages, s, k)} ::
      s in lists && k < |lists[s]| ==> DatedAt(lists, ages, s, k)
  }

  lemma {:induction false} ElderFirst(lists: Lists, ages: Ages, s: nat, i: nat, j: nat)
    requires ByAge(lists, ages) && s in lists && i < j < |lists[s]|
    ensures lists[s][i] in ages.born && lists[s][j] in ages.born && ages.born[lists[s][i]] < ages.born[lists[s][j]]
    decreases j
  {
    assert DatedAt(lists, ages, s, j - 1);
    if i < j - 1 { ElderFirst(lists, ages, s, i, j - 1); }
  }

  /** A chunk that enters a list is the youngest. */
  lemma ByAgeWith(lists: Lists, ages: Ages, s: nat, x: nat)
    requires ByAge(lists, ages) && forall u: nat {:trigger Queued(lists, u, x)} :: !Queued(lists, u, x)
    ensures ByAge(With(lists, s, x), Arrived(ages, x))
  {
    var n, a := With(lists, s, x), Arrived(ages, x);
    forall u, k: nat | u in n && k < |n[u]| ensures DatedAt(n, a, u, k) {
      assert !Queued(lists, u, x);
      if u in lists && k < |lists[u]| { assert DatedAt(lists, ages, u, k); }
    }
  }

  /** A chunk that leaves a list, from anywhere in it, leaves the others in order. */
  lemma ByAgeWithout(lists: Lists, ages: Ages, s: nat, k: nat)
    requires ByAge(lists, ages) && s in lists && k < |lists[s]|
    ensures ByAge(Without(lists, s, k), ages)
  {
    var n := Without(lists, s, k);
    forall u, j: nat | u in n && j < |n[u]| ensures DatedAt(n, ages, u, j) {
      if u == s {
        var i := if j < k then j else j + 1;
        assert DatedAt(lists, ages, s, i);
        if i + 1 == k && k + 1 < |lists[s]| { assert DatedAt(lists, ages, s, k); }
      } else {
        assert DatedAt(lists, ages, u, j);
      }
    }
  }

  // what an operation may do to the lists

  ghost predicate SteadyAt(lists: Lists, ages: Ages, lists': Lists, ages': Ages, s: nat, k: nat)
    requires s in lists' && k < |lists'[s]|
  {
    var x := lists'[s][k];
    && x in ages'.born
    && (if Queued(lists, s, x) then x in ages.born && ages'.born[x] == ages.born[x] else ages'.born[x] >= ages.clock)
  }

  /** Chunks listed under the same size before and after kept their date, so their order; the others arrived since. */
  ghost predicate Steady(lists: Lists, ages: Ages, lists': Lists, ages': Ages) {
    && ages.clock <= ages'.clock
    && forall s, k: nat {:trigger SteadyAt(lists, ages, lists', ages', s, k)} :: s in lists' && k < |lists'[s]| ==>
          SteadyAt(lists, ages, lists', ages', s, k)
  }

  lemma SteadySame(lists: Lists, ages: Ages)
    requires ByAge(lists, ages)
    ensures Steady(lists, ages, lists, ages)
  {
    forall s, k: nat | s in lists && k < |lists[s]| ensures SteadyAt(lists, ages, lists, ages, s, k) {
      assert DatedAt(lists, ages, s, k);
    }
  }

  lemma SteadyWithout(lists: Lists, ages: Ages, lists': Lists, ages': Ages, s: nat, k: nat)
    requires Steady(lists, ages, lists', ages') && s in lists' && k < |lists'[s]|
    ensures Steady(lists, ages, Without(lists', s, k), ages')
  {
    var n := Without(lists', s, k);
    forall u, j: nat | u in n && j < |n[u]| ensures SteadyAt(lists, ages, n, ages', u, j) {
      assert SteadyAt(lists, ages, lists', ages', u, if u == s && j >= k then j + 1 else j);
    }
  }

  lemma SteadyWith(lists: Lists, ages: Ages, lists': Lists, ages': Ages, s: nat, x: nat)
    requires Steady(lists, ages, lists', ages') && !Queued(lists, s, x)
    requires forall u: nat {:trigger Queued(lists', u, x)} :: !Queued(lists', u, x)
    ensures Steady(lists, ages, With(lists', s, x), Arrived(ages', x))
  {
    var n, a := With(lists', s, x), Arrived(ages', x);
    forall u, j: nat | u in n && j < |n[u]| ensures SteadyAt(lists, ages, n, a, u, j) {
      assert !Queued(lists', u, x);
      if u in lists' && j < |lists'[u]| { assert SteadyAt(lists, ages, lists', ages', u, j); }
    }
  }

  /** The chunks that stay keep their order. */
  lemma OrderKept(lists: Lists, ages: Ages, lists': Lists, ages': Ages, s: nat, i: nat, j: nat, i': nat, j': nat)
    requires ByAge(lists, ages) && ByAge(lists', ages') && Steady(lists, ages, lists', ages')
    requires s in lists && s in lists' && i < |lists[s]| && j < |lists[s]| && i' < |lists'[s]| && j' < |lists'[s]|
    requires lists[s][i] == lists'[s][i'] && lists[s][j] == lists'[s][j'] && i < j
    ensures i' < j'
  {
    ElderFirst(lists, ages, s, i, j);
    assert SteadyAt(lists, ages, lists', ages', s, i') && SteadyAt(lists, ages, lists', ages', s, j');
    assert i' != j';
    if j' < i' { ElderFirst(lists', ages', s, j', i'); }
  }

  ghost predicate AgingAt(lists: Lists, ages: Ages, lists': Lists, ages': Ages, s: nat, k: nat)
    requires s in lists' && k < |lists'[s]|
  {
    var x := lists'[s][k];
    && x in ages'.born
    && (ages'.born[x] >= ages.clock || (Queued(lists, s, x) && x in ages.born && ages'.born[x] == ages.born[x]))
  }

  /** Over any number of steps: a listed chunk has been there all along, with its date, or was listed, perhaps
      again, since. */
  ghost predicate Aging(lists: Lists, ages: Ages, lists': Lists, ages': Ages) {
    && ages.clock <= ages'.clock
    && forall s, k: nat {:trigger AgingAt(lists, ages, lists', ages', s, k)} :: s in lists' && k < |lists'[s]| ==>
          AgingAt(lists, ages, lists', ages', s, k)
  }

  lemma SteadyIsAging(lists: Lists, ages: Ages, lists': Lists, ages': Ages)
    requires Steady(lists, ages, lists', ages')
    ensures Aging(lists, ages, lists', ages')
  {
    forall s, k: nat | s in lists' && k < |lists'[s]| ensures AgingAt(lists, ages, lists', ages', s, k) {
      assert SteadyAt(lists, ages, lists', ages', s, k);
    }
  }

  lemma AgingTransitive(l0: Lists, a0: Ages, l1: Lists, a1: Ages, l2: Lists, a2: Ages)
    requires Aging(l0, a0, l1, a1) && Aging(l1, a1, l2, a2)
    ensures Aging(l0, a0, l2, a2)
  {
    forall s, k: nat | s in l2 && k < |l2[s]| ensures AgingAt(l0, a0, l2, a2, s, k) {
      assert AgingAt(l1, a1, l2, a2, s, k);
      if a2.born[l2[s][k]] < a1.clock {
        var j: nat :| j < |l1[s]| && l1[s][j] == l2[s][k];
        assert AgingAt(l0, a0, l1, a1, s, j);
      }
    }
  }
}
