/**
  What the two dining-philosopher protocols of kern/sync/check_sync.c share: the ring of seats, the
  test whether a philosopher may eat, and the two properties of the seat states that both protocols
  are there to maintain.  All of it is for any number of philosophers n >= 2 (the kernel uses 5).
*/
module Dining {

  datatype Phil = Thinking | Hungry | Eating

  /** LEFT */
  function Left(i: nat, n: nat): (r: nat)
    requires i < n
    ensures r < n && r == (i - 1 + n) % n
  {
    if i == 0 then n - 1 else (ModOne(i - 1, n); i - 1)
  }

  /** RIGHT */
  function Right(i: nat, n: nat): (r: nat)
    requires i < n
    ensures r < n && r == (i + 1) % n
  {
    if i == n - 1 then (ModOne(0, n); 0) else (ModOne(i + 1, n); i + 1)
  }

  lemma ModOne(x: nat, n: nat)
    requires x < n
    ensures (x + n) % n == x == x % n
  {
  }

  lemma Neighbours(i: nat, n: nat)
    requires i < n && n >= 2
    ensures Left(Right(i, n), n) == i && Right(Left(i, n), n) == i
    ensures Left(i, n) != i && Right(i, n) != i
  {
  }

  /** The condition of phi_test_sema and phi_test_condvar. */
  predicate CanEat(phil: seq<Phil>, k: nat)
    requires k < |phil|
  {
    phil[k] == Hungry && phil[Left(k, |phil|)] != Eating && phil[Right(k, |phil|)] != Eating
  }

  /** What a test does to the seat states. */
  function Tested(phil: seq<Phil>, k: nat): seq<Phil>
    requires k < |phil|
  {
    if CanEat(phil, k) then phil[k := Eating] else phil
  }

  /** Mutual exclusion on every fork. */
  ghost predicate NoNeighboursEat(phil: seq<Phil>) {
    forall i :: 0 <= i < |phil| ==> !(phil[i] == Eating && phil[Right(i, |phil|)] == Eating)
  }

  ghost predicate NeighbourEats(phil: seq<Phil>, h: nat)
    requires h < |phil|
  {
    phil[Left(h, |phil|)] == Eating || phil[Right(h, |phil|)] == Eating
  }

  /**
    A hungry philosopher is held back by an eating neighbour, except that philosopher `h` may also
    be about to be tested: `untested[i]` says that i has put down its forks and still has to test its right neighbour.
  */
  ghost predicate HeldBack(phil: seq<Phil>, untested: seq<bool>) {
    && |untested| == |phil|
    && forall h :: 0 <= h < |phil| && phil[h] == Hungry ==> NeighbourEats(phil, h) || untested[Left(h, |phil|)]
  }

  /** Becoming hungry, then testing oneself. */
  lemma TakeTest(phil: seq<Phil>, untested: seq<bool>, i: nat)
    requires |phil| >= 2 && i < |phil| && phil[i] == Thinking && NoNeighboursEat(phil) && HeldBack(phil, untested)
    ensures var phil' := Tested(phil[i := Hungry], i);
      NoNeighboursEat(phil') && HeldBack(phil', untested) && phil'[i] != Thinking
  {
    var n := |phil|;
    var hungry := phil[i := Hungry];
    Neighbours(i, n);
    forall h | 0 <= h < n ensures Left(Right(h, n), n) == h && Right(Left(h, n), n) == h {
      Neighbours(h, n);
    }
    var phil' := Tested(hungry, i);
    forall h | 0 <= h < n ensures !(phil'[h] == Eating && phil'[Right(h, n)] == Eating) {
      assert !(phil[h] == Eating && phil[Right(h, n)] == Eating);
    }
    forall h | 0 <= h < n && phil'[h] == Hungry ensures NeighbourEats(phil', h) || untested[Left(h, n)] {
      assert h != i ==> NeighbourEats(phil, h) || untested[Left(h, n)];
    }
  }

  /** Putting down the forks and testing the left neighbour leaves at most the right neighbour to be tested. */
  lemma PutTestLeft(phil: seq<Phil>, untested: seq<bool>, i: nat)
    requires |phil| >= 2 && i < |phil| && NoNeighboursEat(phil) && HeldBack(phil, untested)
    ensures var phil' := Tested(phil[i := Thinking], Left(i, |phil|));
      NoNeighboursEat(phil') && HeldBack(phil', untested[i := true])
  {
    var n := |phil|;
    var k := Left(i, n);
    var down := phil[i := Thinking];
    forall h | 0 <= h < n ensures Left(Right(h, n), n) == h && Right(Left(h, n), n) == h && Left(h, n) != h {
      Neighbours(h, n);
    }
    var phil' := Tested(down, k);
    forall h | 0 <= h < n ensures !(phil'[h] == Eating && phil'[Right(h, n)] == Eating) {
      assert !(phil[h] == Eating && phil[Right(h, n)] == Eating);
    }
    forall h | 0 <= h < n && phil'[h] == Hungry ensures NeighbourEats(phil', h) || untested[i := true][Left(h, n)] {
      assert NeighbourEats(phil, h) || untested[Left(h, n)];
    }
  }

  /** Testing the right neighbour settles it. */
  lemma PutTestRight(phil: seq<Phil>, untested: seq<bool>, i: nat)
    requires |phil| >= 2 && i < |phil| && NoNeighboursEat(phil) && HeldBack(phil, untested)
    ensures var phil' := Tested(phil, Right(i, |phil|));
      NoNeighboursEat(phil') && HeldBack(phil', untested[i := false])
  {
    var n := |phil|;
    var k := Right(i, n);
    forall h | 0 <= h < n ensures Left(Right(h, n), n) == h && Right(Left(h, n), n) == h && Left(h, n) != h {
      Neighbours(h, n);
    }
    var phil' := Tested(phil, k);
    forall h | 0 <= h < n ensures !(phil'[h] == Eating && phil'[Right(h, n)] == Eating) {
      assert !(phil[h] == Eating && phil[Right(h, n)] == Eating);
    }
    forall h | 0 <= h < n && phil'[h] == Hungry ensures NeighbourEats(phil', h) || untested[i := false][Left(h, n)] {
      assert NeighbourEats(phil, h) || untested[Left(h, n)];
    }
  }

  /** They cannot all be hungry at once. */
  lemma SomebodyNotHungry(phil: seq<Phil>, untested: seq<bool>) returns (i: nat)
    requires |phil| >= 2 && HeldBack(phil, untested) && forall k :: 0 <= k < |untested| ==> !untested[k]
    ensures i < |phil| && phil[i] != Hungry
  {
    i := if phil[0] != Hungry then 0 else if phil[Left(0, |phil|)] == Eating then Left(0, |phil|) else Right(0, |phil|);
  }

  /**
    How the turn is passed on when philosopher `i` puts down its forks: `i` thinks, its left neighbour, if hungry, eats
    unless its other neighbour did and still does, its right neighbour, if hungry, eats unless a neighbour of it does
    by now, and nobody else is affected.
  */
  ghost predicate TurnPassed(phil: seq<Phil>, phil': seq<Phil>, i: nat)
    requires i < |phil| == |phil'|
  {
    var n := |phil|;
    var l, r := Left(i, n), Right(i, n);
    && phil'[i] == Thinking
    && (forall h :: 0 <= h < n && h != i && (phil[h] != Hungry || (h != l && h != r)) ==> phil'[h] == phil[h])
    && (phil[l] == Hungry ==>
          phil'[l] == if Left(l, n) != i && phil[Left(l, n)] == Eating then Hungry else Eating)
    && (r != l && phil[r] == Hungry ==>
          phil'[r] == if phil'[Right(r, n)] == Eating then Hungry else Eating)
  }

  lemma PutPasses(phil: seq<Phil>, i: nat)
    requires |phil| >= 2 && i < |phil| && phil[i] == Eating && NoNeighboursEat(phil)
    ensures var n := |phil|;
      TurnPassed(phil, Tested(Tested(phil[i := Thinking], Left(i, n)), Right(i, n)), i)
  {
    var n := |phil|;
    Neighbours(i, n);
    Neighbours(Left(i, n), n);
    Neighbours(Right(i, n), n);
  }
}
