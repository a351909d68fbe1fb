/** A pool of workers that claim indices below n from one shared counter. Both the copy pool
    and the verification pool of the migrator are instances of it. */
module WorkerPool {
  import opened Prelude

  datatype Slot =
    | Free                // about to run `index = nextIndex++`
    | Busy(index: nat)    // working on the document it claimed
    | Finished            // claimed an index past the end and returned

  /** `settled` holds the indices whose document has been dealt with. */
  datatype Pool = Pool(nextIndex: nat, slots: seq<Slot>, settled: set<nat>)

  predicate Holds(p: Pool, w: nat, i: nat) {
    w < |p.slots| && p.slots[w] == Busy(i)
  }

  function CountFinished(slots: seq<Slot>): nat {
    if slots == [] then 0
    else CountFinished(slots[..|slots| - 1]) + if slots[|slots| - 1].Finished? then 1 else 0
  }

  /** Every claimed index is settled or held, by exactly one worker, and never both. */
  ghost predicate PoolInv(n: nat, p: Pool) {
    var claimed := Min(p.nextIndex, n);
    && (forall w: nat, i: nat :: Holds(p, w, i) ==> i < claimed && i !in p.settled)
    && (forall v: nat, w: nat, i: nat :: Holds(p, v, i) && Holds(p, w, i) ==> v == w)
    && (forall i :: i in p.settled ==> i < claimed)
    && (forall i: nat :: i < claimed ==> i in p.settled || exists w :: Holds(p, w, i))
    && p.nextIndex == claimed + CountFinished(p.slots)
  }

  function InitPool(workers: nat): (p: Pool) {
    Pool(0, seq(workers, _ => Free), {})
  }

  /** What `index = nextIndex++` does to the pool. */
  function AfterClaim(n: nat, p: Pool, w: nat): Pool
    requires w < |p.slots|
  {
    Pool(p.nextIndex + 1, p.slots[w := if p.nextIndex < n then Busy(p.nextIndex) else Finished], p.settled)
  }

  /** What it does to the pool that worker w is done with the document it holds. */
  function AfterSettle(p: Pool, w: nat): Pool
    requires w < |p.slots| && p.slots[w].Busy?
  {
    Pool(p.nextIndex, p.slots[w := Free], p.settled + {p.slots[w].index})
  }

  lemma {:induction false} CountFinishedUpdate(slots: seq<Slot>, w: nat, x: Slot)
    requires w < |slots|
    ensures CountFinished(slots[w := x])
         == CountFinished(slots) - (if slots[w].Finished? then 1 else 0) + if x.Finished? then 1 else 0
  {
    var n := |slots| - 1;
    if w == n {
      assert slots[w := x][..n] == slots[..n];
    } else {
      assert slots[w := x][..n] == slots[..n][w := x];
      CountFinishedUpdate(slots[..n], w, x);
    }
  }

  lemma {:induction false} CountFinishedNone(slots: seq<Slot>)
    ensures CountFinished(slots) <= |slots|
    ensures CountFinished(slots) == |slots| <==> forall w :: 0 <= w < |slots| ==> slots[w].Finished?
    ensures CountFinished(slots) == 0 <==> forall w :: 0 <= w < |slots| ==> !slots[w].Finished?
  {
    if slots == [] {
    } else {
      var front := slots[..|slots| - 1];
      CountFinishedNone(front);
      assert forall w :: 0 <= w < |front| ==> slots[w] == front[w];
      assert forall w :: 0 <= w < |slots| ==> w < |front| || slots[w] == slots[|slots| - 1];
    }
  }

  lemma InitPoolInv(n: nat, workers: nat)
    ensures PoolInv(n, InitPool(workers))
  {
    CountFinishedNone(InitPool(workers).slots);
  }

  lemma ClaimKeepsPool(n: nat, p: Pool, w: nat)
    requires PoolInv(n, p) && w < |p.slots| && p.slots[w].Free?
    ensures PoolInv(n, AfterClaim(n, p, w))
  {
    var q := AfterClaim(n, p, w);
    CountFinishedUpdate(p.slots, w, q.slots[w]);
    CountFinishedNone(p.slots);
    assert forall v: nat, i: nat :: Holds(q, v, i) ==> Holds(p, v, i) || (v == w && i == p.nextIndex);
    forall i: nat | i < Min(q.nextIndex, n)
      ensures i in q.settled || exists v :: Holds(q, v, i)
    {
      if i == p.nextIndex {
        assert Holds(q, w, i);
      } else if i !in p.settled {
        var v :| Holds(p, v, i);
        assert Holds(q, v, i);
      }
    }
  }

  lemma SettleKeepsPool(n: nat, p: Pool, w: nat)
    requires PoolInv(n, p) && w < |p.slots| && p.slots[w].Busy?
    ensures p.slots[w].index < n && p.slots[w].index !in p.settled
    ensures PoolInv(n, AfterSettle(p, w))
  {
    var k := p.slots[w].index;
    assert Holds(p, w, k);
    var q := AfterSettle(p, w);
    CountFinishedUpdate(p.slots, w, Free);
    assert forall v: nat, i: nat :: Holds(q, v, i) ==> Holds(p, v, i) && v != w;
    forall i: nat | i < Min(q.nextIndex, n)
      ensures i in q.settled || exists v :: Holds(q, v, i)
    {
      if i !in q.settled {
        var v :| Holds(p, v, i);
        assert Holds(q, v, i);
      }
    }
  }

  /** Exactly-once claiming: when every worker has returned, every index below n has been dealt
      with, no other index has, and the counter stands at n plus the number of workers. */
  lemma FinishedPool(n: nat, p: Pool)
    requires PoolInv(n, p) && p.slots != []
    requires forall w :: 0 <= w < |p.slots| ==> p.slots[w].Finished?
    ensures p.nextIndex == n + |p.slots|
    ensures forall i: nat :: i in p.settled <==> i < n
  {
    CountFinishedNone(p.slots);
    assert forall w: nat, i: nat :: !Holds(p, w, i);
  }
}
