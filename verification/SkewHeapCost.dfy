/**
  What skew_heap_merge does to the shape of a heap, and why libs/skew_heap.h needs no balancing: it swaps the children
  of every node on its way down, and so the comparisons of any sequence of insertions and removals of the root are
  few, at most three times the logarithm of the size on the average.

  Which heap's root goes on top is of no account here.  `Merges` allows any decision at every step, so the results
  hold for every comparison and for keys that change between the operations.
*/
module SkewHeapCost {
  import opened Bits
  import opened SkewHeap

  /** How many comparisons skew_heap_merge makes. */
  ghost function Comparisons(comp: Compare, a: Tree, b: Tree): nat
    reads Nodes(a)`key, Nodes(b)`key
    decreases Size(a) + Size(b)
  {
    if a.Nil? || b.Nil? then 0
    else if comp(a.e.key, b.e.key) == -1 then 1 + Comparisons(comp, a.r, b)
    else 1 + Comparisons(comp, a, b.r)
  }

  /**
    `m` is a merge of `a` and `b` with `c` comparisons: with one of the heaps empty it is the other, otherwise one of
    the two roots is on top, its left child has become its right one, and its right child merged with the other heap
    its left one.
  */
  ghost predicate Merges(a: Tree, b: Tree, m: Tree, c: nat)
    decreases Size(a) + Size(b)
  {
    if a.Nil? then m == b && c == 0
    else if b.Nil? then m == a && c == 0
    else
      && m.T? && c > 0
      && (|| (m.e == a.e && m.r == a.l && Merges(a.r, b, m.l, c - 1))
          || (m.e == b.e && m.r == b.l && Merges(a, b.r, m.l, c - 1)))
  }

  lemma {:induction false} MergedMerges(comp: Compare, a: Tree, b: Tree)
    ensures Merges(a, b, Merged(comp, a, b), Comparisons(comp, a, b))
    decreases Size(a) + Size(b)
  {
    if a.T? && b.T? {
      if comp(a.e.key, b.e.key) == -1 { MergedMerges(comp, a.r, b); } else { MergedMerges(comp, a, b.r); }
    }
  }

  // ---------------------------------------------------------------- heavy right children

  /** Whether the right child is the larger one. */
  ghost function Heavy(t: Tree): nat
    requires t.T?
  {
    if Size(t.l) < Size(t.r) then 1 else 0
  }

  /** How many nodes have the larger child on the right, where a merge will walk. */
  ghost function Potential(t: Tree): nat {
    if t.Nil? then 0 else Potential(t.l) + Potential(t.r) + Heavy(t)
  }

  /** Such nodes down the left spine, and the other nodes down the right spine. */
  ghost function LeftHeavy(t: Tree): nat {
    if t.Nil? then 0 else Heavy(t) + LeftHeavy(t.l)
  }

  ghost function RightLight(t: Tree): nat {
    if t.Nil? then 0 else 1 - Heavy(t) + RightLight(t.r)
  }

  /** Each step down such a spine halves the size. */
  lemma {:induction false} SpinesAreShort(t: Tree)
    ensures Pow2(LeftHeavy(t)) <= Size(t) + 1 && Pow2(RightLight(t)) <= Size(t) + 1
  {
    if t.T? {
      SpinesAreShort(t.l);
      SpinesAreShort(t.r);
    }
  }

  lemma {:induction false} MergeSize(a: Tree, b: Tree, m: Tree, c: nat)
    requires Merges(a, b, m, c)
    ensures Size(m) == Size(a) + Size(b)
    decreases Size(a) + Size(b)
  {
    if a.T? && b.T? {
      if m.e == a.e && m.r == a.l && Merges(a.r, b, m.l, c - 1) {
        MergeSize(a.r, b, m.l, c - 1);
      } else {
        MergeSize(a, b.r, m.l, c - 1);
      }
    }
  }

  /** A long walk pays for itself: what is heavy on the right before it is on the left after it. */
  lemma {:induction false} WalkPays(a: Tree, b: Tree, m: Tree, c: nat)
    requires Merges(a, b, m, c)
    ensures c + Potential(m) <= Potential(a) + Potential(b) + LeftHeavy(m) + RightLight(a) + RightLight(b)
    decreases Size(a) + Size(b)
  {
    if a.T? && b.T? {
      if m.e == a.e && m.r == a.l && Merges(a.r, b, m.l, c - 1) {
        WalkPays(a.r, b, m.l, c - 1);
      } else {
        WalkPays(a, b.r, m.l, c - 1);
      }
    }
  }

  lemma LogBound(x: nat, n: nat, k: nat)
    requires Pow2(x) <= n + 1 && n + 1 < Pow2(k + 1)
    ensures x <= k
  {
    if x > k { PowerMonotone(k + 1, x); }
  }

  /** One merge into a heap of fewer than 2^(k+1) - 1 entries costs at most 3k comparisons and the fall in potential. */
  lemma MergeCost(a: Tree, b: Tree, m: Tree, c: nat, k: nat)
    requires Merges(a, b, m, c) && Size(m) + 1 < Pow2(k + 1)
    ensures c + Potential(m) <= Potential(a) + Potential(b) + 3 * k
  {
    WalkPays(a, b, m, c);
    MergeSize(a, b, m, c);
    SpinesAreShort(m);
    SpinesAreShort(a);
    SpinesAreShort(b);
    LogBound(LeftHeavy(m), Size(m), k);
    LogBound(RightLight(a), Size(a), k);
    LogBound(RightLight(b), Size(b), k);
  }

  // ---------------------------------------------------------------- sequences of operations

  /** skew_heap_insert of some entry, or skew_heap_remove of the root, with `c` comparisons. */
  ghost predicate Operation(t: Tree, t': Tree, c: nat) {
    || (exists e: Entry :: e in Nodes(t') && Merges(t, T(e, Nil, Nil), t', c))
    || (t.T? && Merges(t.l, t.r, t', c))
  }

  /** The two operations of the run queue are such. */
  lemma QueueOperations(comp: Compare, t: Tree, e: Entry)
    ensures Operation(t, Merged(comp, t, T(e, Nil, Nil)), Comparisons(comp, t, T(e, Nil, Nil)))
    ensures t.T? ==> Operation(t, Without(comp, t, t.e), Comparisons(comp, t.l, t.r))
  {
    var one := T(e, Nil, Nil);
    MergedNodes(comp, t, one);
    MergedMerges(comp, t, one);
    if t.T? { MergedMerges(comp, t.l, t.r); }
  }

  ghost function Sum(cs: seq<nat>): nat {
    if cs == [] then 0 else Sum(cs[..|cs| - 1]) + cs[|cs| - 1]
  }

  /** The heaps a sequence of operations goes through, and the comparisons of each. */
  ghost predicate IsHistory(ts: seq<Tree>, cs: seq<nat>) {
    |ts| == |cs| + 1 && ts[0] == Nil && forall i :: 0 <= i < |cs| ==> Operation(ts[i], ts[i + 1], cs[i])
  }

  lemma OperationCost(t: Tree, t': Tree, c: nat, k: nat)
    requires Operation(t, t', c) && Size(t) + 1 < Pow2(k + 1) && Size(t') + 1 < Pow2(k + 1)
    ensures c + Potential(t') <= Potential(t) + 3 * k
  {
    if e: Entry :| e in Nodes(t') && Merges(t, T(e, Nil, Nil), t', c) {
      var one := T(e, Nil, Nil);
      assert Potential(one) == 0;
      MergeCost(t, one, t', c, k);
    } else {
      MergeCost(t.l, t.r, t', c, k);
    }
  }

  /** Any sequence of n operations on heaps of fewer than 2^(k+1) - 1 entries makes at most 3kn comparisons in all. */
  lemma {:induction false} HistoryCost(ts: seq<Tree>, cs: seq<nat>, k: nat)
    requires IsHistory(ts, cs) && forall i :: 0 <= i < |ts| ==> Size(ts[i]) + 1 < Pow2(k + 1)
    ensures Sum(cs) + Potential(ts[|cs|]) <= 3 * k * |cs|
    decreases |cs|
  {
    hide Operation, Potential, Pow2;
    if cs == [] {
      NoPotential();
    } else {
      var n := |cs| - 1;
      HistoryCost(ts[..n + 1], cs[..n], k);
      OperationCost(ts[n], ts[n + 1], cs[n], k);
      assert 3 * k * |cs| == 3 * k * n + 3 * k;
    }
  }

  lemma NoPotential()
    ensures Potential(Nil) == 0
  {
  }
}
