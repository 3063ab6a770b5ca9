/** Circular doubly-linked lists threaded through the fd and bk words of chunks (and bin headers). */
module Rings {
  import opened Memory

  // A ring is listed in bk order: r[k].bk is r[k + 1], and the last element's bk is r[0].

  function After(r: seq<nat>, k: nat): nat
    requires k < |r|
  {
    r[if k + 1 == |r| then 0 else k + 1]
  }

  function Before(r: seq<nat>, k: nat): nat
    requires k < |r|
  {
    r[if k == 0 then |r| - 1 else k - 1]
  }

  ghost predicate RingAt(m: Mem, r: seq<nat>, k: nat)
    requires k < |r|
  {
    Bk(m, r[k]) == After(r, k) && Fd(m, r[k]) == Before(r, k)
  }

  ghost predicate Ring(m: Mem, r: seq<nat>) {
    forall k: nat {:trigger RingAt(m, r, k)} :: k < |r| ==> RingAt(m, r, k)
  }

  ghost predicate Distinct(r: seq<nat>) {
    forall i: nat, j: nat {:trigger r[i], r[j]} :: i < j < |r| ==> r[i] != r[j]
  }

  function Drop(r: seq<nat>, k: nat): seq<nat>
    requires k < |r|
  {
    r[..k] + r[k + 1..]
  }

  lemma RingFrame(m: Mem, m': Mem, r: seq<nat>)
    requires Ring(m, r)
    requires forall k: nat {:trigger r[k]} :: k < |r| ==> SameAt(m, m', r[k] + 8)
    ensures Ring(m', r)
  {
    forall k: nat | k < |r| ensures RingAt(m', r, k) {
      assert RingAt(m, r, k);
    }
  }

  /** Link x in between b and f, both ways. */
  function LinkBetween(m: Mem, f: nat, b: nat, x: nat): Mem {
    SetBk(SetFd(SetBk(SetFd(m, b, x), f, x), x, f), x, b)
  }

  /** Let f and b point to each other, past whatever was between them. */
  function UnlinkBetween(m: Mem, f: nat, b: nat): Mem {
    SetFd(SetBk(m, f, b), b, f)
  }

  /** Linking x between the first element and the last one puts x last. */
  lemma RingAppend(m: Mem, r: seq<nat>, x: nat)
    requires |r| > 0 && Distinct(r) && x !in r
    requires |r| == 1 || Ring(m, r)
    ensures Distinct(r + [x])
    ensures Ring(LinkBetween(m, r[|r| - 1], r[0], x), r + [x])
  {
    var m', n := LinkBetween(m, r[|r| - 1], r[0], x), r + [x];
    forall k: nat | k < |n| ensures RingAt(m', n, k) {
      if k < |r| {
        assert |r| == 1 || RingAt(m, r, k);
      }
    }
  }

  lemma RingUnlink(m: Mem, r: seq<nat>, k: nat)
    requires 1 < |r| && k < |r| && Distinct(r) && Ring(m, r)
    ensures Distinct(Drop(r, k))
    ensures Ring(UnlinkBetween(m, Before(r, k), After(r, k)), Drop(r, k))
  {
    forall j: nat | j < |Drop(r, k)| ensures RingAt(UnlinkBetween(m, Before(r, k), After(r, k)), Drop(r, k), j) {
      UnlinkedAt(m, r, k, j);
    }
  }

  lemma UnlinkedAt(m: Mem, r: seq<nat>, k: nat, j: nat)
    requires 1 < |r| && k < |r| && Distinct(r) && Ring(m, r) && j < |Drop(r, k)|
    ensures RingAt(UnlinkBetween(m, Before(r, k), After(r, k)), Drop(r, k), j)
  {
    assert RingAt(m, r, if j < k then j else j + 1);
  }
}
