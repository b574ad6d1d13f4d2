/**
  The skew heap of libs/skew_heap.h, with parent pointers, updated in place.

  The ghost `Tree` is the shape of the pointer structure.  `Merged` and `Without` say what merging and
  removing do to shapes; the methods are proved to do just that to the pointers.
*/
module SkewHeap {

  class Entry {
    var left: Entry?
    var right: Entry?
    var parent: Entry?
    var key: int

    /** skew_heap_init */
    constructor (key: int)
      ensures left == null && right == null && parent == null && this.key == key
    {
      left, right, parent := null, null, null;
      this.key := key;
    }
  }

  datatype Tree = Nil | T(e: Entry, l: Tree, r: Tree)

  ghost function Nodes(t: Tree): set<Entry> {
    match t
    case Nil => {}
    case T(e, l, r) => {e} + Nodes(l) + Nodes(r)
  }

  ghost function Size(t: Tree): nat {
    if t.Nil? then 0 else 1 + Size(t.l) + Size(t.r)
  }

  /** No entry occurs twice. */
  ghost predicate Proper(t: Tree) {
    t.T? ==> t.e !in Nodes(t.l) && t.e !in Nodes(t.r) && Nodes(t.l) !! Nodes(t.r) && Proper(t.l) && Proper(t.r)
  }

  ghost function Root(t: Tree): Entry? {
    if t.Nil? then null else t.e
  }

  /** The pointers below `n` form the tree `t`, and every child points back to its parent. */
  ghost predicate Rep(n: Entry?, t: Tree)
    reads Nodes(t)`left, Nodes(t)`right, Nodes(t)`parent
  {
    n == Root(t) &&
    (t.T? ==>
      && Rep(t.e.left, t.l) && Rep(t.e.right, t.r)
      && (t.l.T? ==> t.l.e.parent == t.e) && (t.r.T? ==> t.r.e.parent == t.e))
  }

  // ---------------------------------------------------------------- order

  type Compare = (int, int) -> int

  /** A position for entries; what the keys are meant to say. */
  type Rank = map<Entry, int>

  ghost function Pos(rank: Rank, e: Entry): int {
    if e in rank then rank[e] else 0
  }

  function Sign(d: int): int {
    if d > 0 then 1 else if d == 0 then 0 else -1
  }

  /** On the entries `s` comparing keys is comparing ranks, so it is a total preorder there. */
  ghost predicate Reflects(comp: Compare, rank: Rank, s: set<Entry>)
    reads s`key
  {
    forall x, y :: x in s && y in s ==> comp(x.key, y.key) == Sign(Pos(rank, x) - Pos(rank, y))
  }

  ghost predicate NotAbove(rank: Rank, e: Entry, s: set<Entry>) {
    forall x :: x in s ==> Pos(rank, e) <= Pos(rank, x)
  }

  /** Heap order: no child ranks below its parent. */
  ghost predicate Ordered(rank: Rank, t: Tree) {
    t.T? ==>
      && (t.l.T? ==> Pos(rank, t.e) <= Pos(rank, t.l.e)) && (t.r.T? ==> Pos(rank, t.e) <= Pos(rank, t.r.e))
      && Ordered(rank, t.l) && Ordered(rank, t.r)
  }

  /** Heap order among all entries other than `b`, wherever `b` is. */
  ghost predicate OrderedBut(rank: Rank, t: Tree, b: Entry) {
    t.T? ==>
      && (t.e != b ==> NotAbove(rank, t.e, Nodes(t.l) - {b}) && NotAbove(rank, t.e, Nodes(t.r) - {b}))
      && OrderedBut(rank, t.l, b) && OrderedBut(rank, t.r, b)
  }

  /** What is not above the root is not above anything in the heap. */
  lemma {:induction false} BelowRoot(rank: Rank, e: Entry, t: Tree)
    requires Ordered(rank, t) && (t.T? ==> Pos(rank, e) <= Pos(rank, t.e))
    ensures NotAbove(rank, e, Nodes(t))
  {
    if t.T? {
      BelowRoot(rank, e, t.l);
      BelowRoot(rank, e, t.r);
    }
  }

  /** The root of a heap is a minimum. */
  lemma MinimumAtRoot(rank: Rank, t: Tree, x: Entry)
    requires t.T? && Ordered(rank, t) && x in Nodes(t)
    ensures Pos(rank, t.e) <= Pos(rank, x)
  {
    BelowRoot(rank, t.e, t);
  }

  lemma {:induction false} OrderedButAbsent(rank: Rank, t: Tree, b: Entry)
    requires OrderedBut(rank, t, b) && b !in Nodes(t)
    ensures Ordered(rank, t)
  {
    if t.T? {
      assert t.l.T? ==> t.l.e in Nodes(t.l) - {b};
      assert t.r.T? ==> t.r.e in Nodes(t.r) - {b};
      OrderedButAbsent(rank, t.l, b);
      OrderedButAbsent(rank, t.r, b);
    }
  }

  /** Giving one entry a new rank spoils the order only around that entry. */
  lemma {:induction false} RankChanged(rank: Rank, rank': Rank, t: Tree, b: Entry)
    requires Ordered(rank, t) && forall x :: x in Nodes(t) && x != b ==> Pos(rank', x) == Pos(rank, x)
    ensures OrderedBut(rank', t, b)
  {
    if t.T? {
      BelowRoot(rank, t.e, t.l);
      BelowRoot(rank, t.e, t.r);
      RankChanged(rank, rank', t.l, b);
      RankChanged(rank, rank', t.r, b);
    }
  }

  // ---------------------------------------------------------------- merge, on shapes

  ghost function Merged(comp: Compare, a: Tree, b: Tree): Tree
    reads Nodes(a)`key, Nodes(b)`key
    decreases Size(a) + Size(b)
  {
    if a.Nil? then b
    else if b.Nil? then a
    else if comp(a.e.key, b.e.key) == -1 then T(a.e, Merged(comp, a.r, b), a.l)
    else T(b.e, Merged(comp, a, b.r), b.l)
  }

  /** Merging neither loses nor duplicates entries. */
  lemma {:induction false} MergedNodes(comp: Compare, a: Tree, b: Tree)
    ensures Nodes(Merged(comp, a, b)) == Nodes(a) + Nodes(b)
    ensures Proper(a) && Proper(b) && Nodes(a) !! Nodes(b) ==> Proper(Merged(comp, a, b))
    ensures Size(Merged(comp, a, b)) == Size(a) + Size(b)
    decreases Size(a) + Size(b)
  {
    if a.T? && b.T? {
      if comp(a.e.key, b.e.key) == -1 {
        MergedNodes(comp, a.r, b);
      } else {
        MergedNodes(comp, a, b.r);
      }
    }
  }

  /** `e` may stand above the heap `t`. */
  ghost predicate Above(rank: Rank, e: Entry, t: Tree) {
    Ordered(rank, t) && (t.T? ==> Pos(rank, e) <= Pos(rank, t.e))
  }

  lemma OnTop(rank: Rank, e: Entry, l: Tree, r: Tree)
    ensures Ordered(rank, T(e, l, r)) <==> Above(rank, e, l) && Above(rank, e, r)
  {
  }

  /** Merging two heaps gives a heap. */
  lemma {:induction false} MergedOrdered(comp: Compare, rank: Rank, a: Tree, b: Tree)
    requires Reflects(comp, rank, Nodes(a) + Nodes(b)) && Ordered(rank, a) && Ordered(rank, b)
    ensures Ordered(rank, Merged(comp, a, b))
    decreases Size(a) + Size(b)
  {
    hide Ordered;
    if a.T? && b.T? {
      OnTop(rank, a.e, a.l, a.r);
      OnTop(rank, b.e, b.l, b.r);
      assert comp(a.e.key, b.e.key) == Sign(Pos(rank, a.e) - Pos(rank, b.e));
      if comp(a.e.key, b.e.key) == -1 {
        MergedOrdered(comp, rank, a.r, b);
        OnTop(rank, a.e, Merged(comp, a.r, b), a.l);
      } else {
        MergedOrdered(comp, rank, a, b.r);
        OnTop(rank, b.e, Merged(comp, a, b.r), b.l);
      }
    }
  }

  /** `x` stands somewhere above `y`. */
  ghost predicate Over(t: Tree, x: Entry, y: Entry) {
    t.T? && ((t.e == x && y in Nodes(t.l) + Nodes(t.r)) || Over(t.l, x, y) || Over(t.r, x, y))
  }

  lemma {:induction false} OverNodes(t: Tree, x: Entry, y: Entry)
    requires Over(t, x, y)
    ensures x in Nodes(t) && y in Nodes(t)
  {
    if !(t.e == x && y in Nodes(t.l) + Nodes(t.r)) {
      if Over(t.l, x, y) { OverNodes(t.l, x, y); } else { OverNodes(t.r, x, y); }
    }
  }

  /** Among equals the second heap goes first: what stands above one of its entries and is not of it is smaller. */
  lemma {:induction false} SecondFirst(comp: Compare, rank: Rank, a: Tree, b: Tree, x: Entry, y: Entry)
    requires Reflects(comp, rank, Nodes(a) + Nodes(b)) && Ordered(rank, a) && Ordered(rank, b) && Nodes(a) !! Nodes(b)
    requires x in Nodes(a) && y in Nodes(b) && Over(Merged(comp, a, b), x, y)
    ensures Pos(rank, x) < Pos(rank, y)
    decreases Size(a) + Size(b)
  {
    hide Reflects;
    var m := Merged(comp, a, b);
    if a.T? && b.T? {
      RootsReflect(comp, rank, a, b);
      MinimumAtRoot(rank, b, y);
      if Over(m.r, x, y) { OverNodes(m.r, x, y); }
      if Over(m.l, x, y) { OverNodes(m.l, x, y); }
      if comp(a.e.key, b.e.key) == -1 {
        MergedNodes(comp, a.r, b);
        if x != a.e { SecondFirst(comp, rank, a.r, b, x, y); }
      } else {
        MergedNodes(comp, a, b.r);
        SecondFirst(comp, rank, a, b.r, x, y);
      }
    }
  }

  lemma RootsReflect(comp: Compare, rank: Rank, a: Tree, b: Tree)
    requires Reflects(comp, rank, Nodes(a) + Nodes(b)) && a.T? && b.T?
    ensures comp(a.e.key, b.e.key) == Sign(Pos(rank, a.e) - Pos(rank, b.e))
    ensures Reflects(comp, rank, Nodes(a.r) + Nodes(b)) && Reflects(comp, rank, Nodes(a) + Nodes(b.r))
  {
    hide Reflects;
    var s := Nodes(a) + Nodes(b);
    Narrower(comp, rank, s, Nodes(a.r) + Nodes(b), a.e, b.e);
    Narrower(comp, rank, s, Nodes(a) + Nodes(b.r), a.e, b.e);
  }

  lemma Narrower(comp: Compare, rank: Rank, s: set<Entry>, s': set<Entry>, x: Entry, y: Entry)
    requires Reflects(comp, rank, s) && s' <= s && x in s && y in s
    ensures Reflects(comp, rank, s') && comp(x.key, y.key) == Sign(Pos(rank, x) - Pos(rank, y))
  {
  }

  /** A new entry comes out on top exactly if none is smaller. */
  lemma InsertedOnTop(comp: Compare, rank: Rank, t: Tree, e: Entry)
    requires Reflects(comp, rank, Nodes(t) + {e}) && Ordered(rank, t) && e !in Nodes(t)
    ensures var m := Merged(comp, t, T(e, Nil, Nil));
      m.T? && (m.e == e <==> forall x :: x in Nodes(t) ==> Pos(rank, e) <= Pos(rank, x))
  {
    hide Merged, Reflects;
    var one := T(e, Nil, Nil);
    assert Nodes(one) == {e};
    EmptyOrdered(rank);
    OnTop(rank, e, Nil, Nil);
    var m := Merged(comp, t, one);
    MergedNodes(comp, t, one);
    MergedOrdered(comp, rank, t, one);
    if m.e == e {
      forall x | x in Nodes(t) ensures Pos(rank, e) <= Pos(rank, x) {
        MinimumAtRoot(rank, m, x);
      }
    } else {
      SecondFirst(comp, rank, t, one, m.e, e);
    }
  }

  // ---------------------------------------------------------------- merge, on pointers

  /** Redirecting the parent pointer of a root leaves the tree below it alone. */
  method SetParent(n: Entry?, p: Entry?, ghost t: Tree)
    requires Rep(n, t) && Proper(t)
    modifies if n == null then {} else {n}`parent
    ensures Rep(n, t)
    ensures n != null ==> n.parent == p
  {
    if n != null {
      assert Rep(n.left, t.l) && Rep(n.right, t.r);
      n.parent := p;
      assert Rep(n.left, t.l) && Rep(n.right, t.r);
    }
  }

  /** Hang the trees `l` and `r` below `e`; `r` was below it before. */
  method Hang(e: Entry, l: Entry?, r: Entry?, ghost tl: Tree, ghost tr: Tree, ghost all: set<Entry>)
    requires Nodes(tl) + Nodes(tr) <= all
    requires Rep(l, tl) && Rep(r, tr) && Proper(T(e, tl, tr)) && (r != null ==> r.parent == e)
    modifies e`left, e`right, (if l == null then {} else {l})`parent
    ensures Rep(e, T(e, tl, tr))
  {
    assert l != null ==> l in Nodes(tl) && l !in Nodes(tr);
    SetParent(l, e, tl);
    assert Rep(r, tr);
    e.left := l;
    e.right := r;
    assert Rep(l, tl) && Rep(r, tr);
  }

  ghost predicate Mergeable(a: Entry?, b: Entry?, ta: Tree, tb: Tree)
    reads Nodes(ta) + Nodes(tb)
  {
    Rep(a, ta) && Rep(b, tb) && Proper(ta) && Proper(tb) && Nodes(ta) !! Nodes(tb)
  }

  /** skew_heap_merge; `all` is any set of existing entries that contains those of both heaps. */
  method Merge(a: Entry?, b: Entry?, comp: Compare, ghost ta: Tree, ghost tb: Tree, ghost all: set<Entry>)
    returns (m: Entry?)
    requires Mergeable(a, b, ta, tb) && Nodes(ta) + Nodes(tb) <= all
    modifies (Nodes(ta) + Nodes(tb))`left, (Nodes(ta) + Nodes(tb))`right, (Nodes(ta) + Nodes(tb))`parent
    ensures Rep(m, Merged(comp, ta, tb))
    ensures m == a || m == b
    ensures m != null ==> m.parent == old(if m == a then a.parent else b.parent)
    decreases Size(ta) + Size(tb), 1
  {
    if a == null {
      m := b;
    } else if b == null {
      m := a;
    } else if comp(a.key, b.key) == -1 {
      MergeBelowFirst(a, b, comp, ta, tb, all);
      m := a;
    } else {
      MergeBelowSecond(a, b, comp, ta, tb, all);
      m := b;
    }
  }

  /** What a heap with root `n` says about its two subtrees. */
  lemma Opened(n: Entry, t: Tree)
    requires Rep(n, t)
    ensures t.T? && t.e == n && Rep(n.left, t.l) && Rep(n.right, t.r)
    ensures n.left != null ==> n.left in Nodes(t.l) && n.left.parent == n
  {
  }

  lemma RootIn(n: Entry?, t: Tree)
    requires Rep(n, t)
    ensures n != null ==> n in Nodes(t)
  {
  }

  lemma ProperNode(e: Entry, l: Tree, r: Tree)
    requires Proper(l) && Proper(r) && e !in Nodes(l) && e !in Nodes(r) && Nodes(l) !! Nodes(r)
    ensures Proper(T(e, l, r))
  {
  }

  lemma Parted(t: Tree)
    requires t.T? && Proper(t)
    ensures Proper(t.l) && Proper(t.r) && t.e in Nodes(t) && Nodes(t.l) <= Nodes(t) && Nodes(t.r) <= Nodes(t)
    ensures t.e !in Nodes(t.l) && t.e !in Nodes(t.r) && Nodes(t.l) !! Nodes(t.r)
    ensures Size(t.r) < Size(t)
  {
  }

  /** The branch of skew_heap_merge in which `a` stays on top. */
  method MergeBelowFirst(a: Entry, b: Entry, comp: Compare, ghost ta: Tree, ghost tb: Tree, ghost all: set<Entry>)
    requires Mergeable(a, b, ta, tb) && Nodes(ta) + Nodes(tb) <= all
    modifies (Nodes(ta) + Nodes(tb))`left, (Nodes(ta) + Nodes(tb))`right, (Nodes(ta) + Nodes(tb))`parent
    ensures Rep(a, T(a, Merged(comp, ta.r, tb), ta.l))
    ensures a.parent == old(a.parent)
    decreases Size(ta) + Size(tb), 0
  {
    hide Merged, Rep, Nodes, Proper, Size;
    Opened(a, ta);
    Parted(ta);
    var r := a.left;
    var l := Merge(a.right, b, comp, ta.r, tb, all);
    assert Rep(r, ta.l) && (r != null ==> r.parent == a);
    MergedNodes(comp, ta.r, tb);
    RootIn(l, Merged(comp, ta.r, tb));
    ProperNode(a, Merged(comp, ta.r, tb), ta.l);
    Hang(a, l, r, Merged(comp, ta.r, tb), ta.l, all);
  }

  /** The branch of skew_heap_merge in which `b` stays on top. */
  method MergeBelowSecond(a: Entry, b: Entry, comp: Compare, ghost ta: Tree, ghost tb: Tree, ghost all: set<Entry>)
    requires Mergeable(a, b, ta, tb) && Nodes(ta) + Nodes(tb) <= all
    modifies (Nodes(ta) + Nodes(tb))`left, (Nodes(ta) + Nodes(tb))`right, (Nodes(ta) + Nodes(tb))`parent
    ensures Rep(b, T(b, Merged(comp, ta, tb.r), tb.l))
    ensures b.parent == old(b.parent)
    decreases Size(ta) + Size(tb), 0
  {
    hide Merged, Rep, Nodes, Proper, Size;
    Opened(b, tb);
    Parted(tb);
    var r := b.left;
    var l := Merge(a, b.right, comp, ta, tb.r, all);
    assert Rep(r, tb.l) && (r != null ==> r.parent == b);
    MergedNodes(comp, ta, tb.r);
    RootIn(l, Merged(comp, ta, tb.r));
    ProperNode(b, Merged(comp, ta, tb.r), tb.l);
    Hang(b, l, r, Merged(comp, ta, tb.r), tb.l, all);
  }

  /** skew_heap_insert */
  method Insert(a: Entry?, b: Entry, comp: Compare, ghost ta: Tree, ghost all: set<Entry>) returns (m: Entry)
    requires Rep(a, ta) && Proper(ta) && (a != null ==> a.parent == null) && b !in Nodes(ta) && Nodes(ta) + {b} <= all
    modifies (Nodes(ta) + {b})`left, (Nodes(ta) + {b})`right, (Nodes(ta) + {b})`parent
    ensures Rep(m, Merged(comp, ta, T(b, Nil, Nil))) && m.parent == null
  {
    b.left, b.right, b.parent := null, null, null;
    ghost var tb := T(b, Nil, Nil);
    assert Nodes(tb) == {b};
    MergedNodes(comp, ta, tb);
    m := Merge(a, b, comp, ta, tb, all);
  }

  // ---------------------------------------------------------------- removal, on shapes

  /** The subtree at entry `b`. */
  ghost function At(t: Tree, b: Entry): Tree {
    if t.Nil? || t.e == b then t
    else if b in Nodes(t.l) then At(t.l, b)
    else At(t.r, b)
  }

  /** The tree in which the subtree at `b` has been replaced by its merged children. */
  ghost function Without(comp: Compare, t: Tree, b: Entry): Tree
    reads Nodes(t)`key
  {
    if t.Nil? then Nil
    else if t.e == b then Merged(comp, t.l, t.r)
    else T(t.e, Without(comp, t.l, b), Without(comp, t.r, b))
  }

  lemma {:induction false} AtNodes(t: Tree, b: Entry)
    requires b in Nodes(t) && Proper(t)
    ensures At(t, b).T? && At(t, b).e == b && Nodes(At(t, b)) <= Nodes(t) && Proper(At(t, b))
    ensures t.e != b ==> t.e !in Nodes(At(t, b))
  {
    if t.e != b {
      if b in Nodes(t.l) { AtNodes(t.l, b); } else { AtNodes(t.r, b); }
    }
  }

  /** Removing an entry removes that entry and nothing else. */
  lemma {:induction false} WithoutNodes(comp: Compare, t: Tree, b: Entry)
    requires Proper(t)
    ensures Nodes(Without(comp, t, b)) == Nodes(t) - {b} && Proper(Without(comp, t, b))
    ensures b !in Nodes(t) ==> Without(comp, t, b) == t
  {
    if t.T? {
      if t.e == b {
        MergedNodes(comp, t.l, t.r);
      } else {
        WithoutNodes(comp, t.l, b);
        WithoutNodes(comp, t.r, b);
      }
    }
  }

  /** The new root of a subtree was in it before. */
  lemma WithoutRoot(comp: Compare, rank: Rank, t: Tree, b: Entry, e: Entry)
    requires Proper(t) && NotAbove(rank, e, Nodes(t) - {b})
    ensures Without(comp, t, b).T? ==> Pos(rank, e) <= Pos(rank, Without(comp, t, b).e)
  {
    hide NotAbove;
    WithoutNodes(comp, t, b);
    var t' := Without(comp, t, b);
    if t'.T? {
      assert t'.e in Nodes(t');
      Least(rank, e, Nodes(t) - {b}, t'.e);
    }
  }

  lemma Least(rank: Rank, e: Entry, s: set<Entry>, x: Entry)
    requires NotAbove(rank, e, s) && x in s
    ensures Pos(rank, e) <= Pos(rank, x)
  {
  }

  /** Removing an entry leaves a heap, even if that entry's key had just been changed. */
  lemma {:induction false} WithoutOrdered(comp: Compare, rank: Rank, t: Tree, b: Entry)
    requires Proper(t) && OrderedBut(rank, t, b) && Reflects(comp, rank, Nodes(t) - {b})
    ensures Ordered(rank, Without(comp, t, b))
  {
    hide NotAbove, Merged, Reflects, Ordered;
    if t.T? {
      if t.e == b {
        PartsReflect(comp, rank, t, b);
        OrderedButAbsent(rank, t.l, b);
        OrderedButAbsent(rank, t.r, b);
        MergedOrdered(comp, rank, t.l, t.r);
      } else {
        PartsReflect(comp, rank, t, b);
        WithoutRoot(comp, rank, t.l, b, t.e);
        WithoutRoot(comp, rank, t.r, b, t.e);
        WithoutOrdered(comp, rank, t.l, b);
        WithoutOrdered(comp, rank, t.r, b);
        OnTop(rank, t.e, Without(comp, t.l, b), Without(comp, t.r, b));
      }
    } else {
      EmptyOrdered(rank);
    }
  }

  /** When the root goes, of equal entries the one from its right subtree comes out above. */
  lemma RightFirst(comp: Compare, rank: Rank, t: Tree, x: Entry, y: Entry)
    requires t.T? && Proper(t) && Ordered(rank, t.l) && Ordered(rank, t.r)
    requires Reflects(comp, rank, Nodes(t.l) + Nodes(t.r)) && x in Nodes(t.l) && y in Nodes(t.r)
    requires Over(Without(comp, t, t.e), x, y)
    ensures Pos(rank, x) < Pos(rank, y)
  {
    SecondFirst(comp, rank, t.l, t.r, x, y);
  }

  lemma EmptyOrdered(rank: Rank)
    ensures Ordered(rank, Nil)
  {
  }

  lemma PartsReflect(comp: Compare, rank: Rank, t: Tree, b: Entry)
    requires t.T? && Reflects(comp, rank, Nodes(t) - {b})
    ensures Reflects(comp, rank, Nodes(t.l) - {b}) && Reflects(comp, rank, Nodes(t.r) - {b})
    ensures t.e == b && b !in Nodes(t.l) && b !in Nodes(t.r) ==> Reflects(comp, rank, Nodes(t.l) + Nodes(t.r))
  {
  }

  // ---------------------------------------------------------------- removal, on pointers

  /** The pointers of a set of entries at one moment. */
  datatype Links = Links(left: map<Entry, Entry?>, right: map<Entry, Entry?>, parent: map<Entry, Entry?>)

  ghost function Snapshot(s: set<Entry>): Links
    reads s
  {
    Links(map x | x in s :: x.left, map x | x in s :: x.right, map x | x in s :: x.parent)
  }

  ghost predicate Covers(k: Links, s: set<Entry>) {
    s <= k.left.Keys && s <= k.right.Keys && s <= k.parent.Keys
  }

  /** `Rep`, for remembered pointers. */
  ghost predicate RepIn(k: Links, n: Entry?, t: Tree)
    requires Covers(k, Nodes(t))
  {
    n == Root(t) &&
    (t.T? ==>
      && RepIn(k, k.left[t.e], t.l) && RepIn(k, k.right[t.e], t.r)
      && (t.l.T? ==> k.parent[t.l.e] == t.e) && (t.r.T? ==> k.parent[t.r.e] == t.e))
  }

  lemma {:induction false} Remember(n: Entry?, t: Tree, s: set<Entry>)
    requires Nodes(t) <= s
    ensures Rep(n, t) <==> RepIn(Snapshot(s), n, t)
    decreases t
  {
    if t.T? {
      Remember(t.e.left, t.l, s);
      Remember(t.e.right, t.r, s);
    }
  }

  /** Entries `s` keep their pointers from `k` to `k'`, except that `rep` takes the place of `b`. */
  ghost predicate Relinked(k: Links, k': Links, s: set<Entry>, b: Entry, rep: Entry?)
    requires Covers(k, s) && Covers(k', s)
  {
    forall x {:trigger k'.left[x]} {:trigger k'.right[x]} {:trigger k'.parent[x]} :: x in s ==>
      && k'.parent[x] == k.parent[x]
      && k'.left[x] == (if k.left[x] == b then rep else k.left[x])
      && k'.right[x] == (if k.right[x] == b then rep else k.right[x])
  }

  /** A subtree without `b` is not touched. */
  lemma {:induction false} Untouched(k: Links, k': Links, t: Tree, b: Entry, rep: Entry?)
    requires Covers(k, Nodes(t)) && Covers(k', Nodes(t)) && b !in Nodes(t)
    requires RepIn(k, Root(t), t) && Relinked(k, k', Nodes(t), b, rep)
    ensures RepIn(k', Root(t), t)
  {
    if t.T? {
      assert t.l.T? ==> t.l.e in Nodes(t);
      assert t.r.T? ==> t.r.e in Nodes(t);
      Untouched(k, k', t.l, b, rep);
      Untouched(k, k', t.r, b, rep);
    }
  }

  /** Replacing the subtree at `b` by its merged children turns `t` into `Without(comp, t, b)`. */
  lemma {:induction false} Replaced(comp: Compare, k: Links, k': Links, t: Tree, b: Entry, rep: Entry?)
    requires Proper(t) && b in Nodes(t) && Covers(k, Nodes(t)) && Covers(k', Nodes(t))
    requires RepIn(k, Root(t), t) && Relinked(k, k', Nodes(t) - Nodes(At(t, b)), b, rep)
    requires At(t, b).T? && Nodes(Merged(comp, At(t, b).l, At(t, b).r)) <= Nodes(t)
    requires RepIn(k', rep, Merged(comp, At(t, b).l, At(t, b).r))
    requires rep != null ==> k'.parent[rep] == k.parent[b]
    ensures Nodes(Without(comp, t, b)) <= Nodes(t)
    ensures RepIn(k', if t.e == b then rep else t.e, Without(comp, t, b))
    decreases t
  {
    AtNodes(t, b);
    WithoutNodes(comp, t, b);
    if t.e != b {
      var c, o := if b in Nodes(t.l) then t.l else t.r, if b in Nodes(t.l) then t.r else t.l;
      AtNodes(c, b);
      MergedNodes(comp, At(t, b).l, At(t, b).r);
      assert t.e in Nodes(t) - Nodes(At(t, b));
      Replaced(comp, k, k', c, b, rep);
      Untouched(k, k', o, b, rep);
      WithoutNodes(comp, o, b);
      assert c.e != b ==> c.e in Nodes(t) - Nodes(At(t, b));
      assert o.T? ==> o.e in Nodes(t) - Nodes(At(t, b));
    }
  }

  /** Parent pointers are exact: an entry is somebody's child only if it points back to it. */
  lemma {:induction false} OnlyParent(k: Links, t: Tree, b: Entry, x: Entry)
    requires Covers(k, Nodes(t)) && RepIn(k, Root(t), t) && x in Nodes(t) && (k.left[x] == b || k.right[x] == b)
    ensures b in Nodes(t) && k.parent[b] == x
  {
    if x == t.e {
      assert t.l.T? ==> t.l.e in Nodes(t);
      assert t.r.T? ==> t.r.e in Nodes(t);
    } else if x in Nodes(t.l) {
      OnlyParent(k, t.l, b, x);
    } else {
      OnlyParent(k, t.r, b, x);
    }
  }

  /** Every entry but the root has its parent in the tree, outside its own subtree. */
  lemma {:induction false} HasParent(k: Links, t: Tree, b: Entry)
    requires Proper(t) && Covers(k, Nodes(t)) && RepIn(k, Root(t), t) && b in Nodes(t) && b != t.e
    ensures k.parent[b] != null && k.parent[b] in Nodes(t) - Nodes(At(t, b))
    ensures k.left[k.parent[b]] == b || k.right[k.parent[b]] == b
    decreases t
  {
    var c := if b in Nodes(t.l) then t.l else t.r;
    AtNodes(c, b);
    if c.e != b {
      HasParent(k, c, b);
    }
  }

  /** The two children of an entry are different. */
  lemma {:induction false} ChildrenDiffer(k: Links, t: Tree, x: Entry)
    requires Proper(t) && Covers(k, Nodes(t)) && RepIn(k, Root(t), t) && x in Nodes(t) && k.left[x] != null
    ensures k.left[x] != k.right[x]
    decreases t
  {
    if x != t.e {
      ChildrenDiffer(k, if x in Nodes(t.l) then t.l else t.r, x);
    }
  }

  lemma {:induction false} RepAt(t: Tree, b: Entry)
    requires Rep(Root(t), t) && Proper(t) && b in Nodes(t)
    ensures Rep(b, At(t, b))
  {
    if t.e != b {
      RepAt(if b in Nodes(t.l) then t.l else t.r, b);
    }
  }

  /** The one pointer skew_heap_remove changes outside the subtree at `b` is the right one. */
  ghost predicate ParentRelinked(k: Links, k': Links, s: set<Entry>, b: Entry, rep: Entry?, p: Entry?)
    requires Covers(k, s) && Covers(k', s)
  {
    forall x {:trigger k'.left[x]} {:trigger k'.right[x]} {:trigger k'.parent[x]} :: x in s ==>
      && k'.parent[x] == k.parent[x]
      && k'.left[x] == (if x == p && k.left[x] == b then rep else k.left[x])
      && k'.right[x] == (if x == p && k.left[x] != b then rep else k.right[x])
  }

  lemma ParentIsEnough(k: Links, k': Links, t: Tree, b: Entry, rep: Entry?)
    requires Proper(t) && Covers(k, Nodes(t)) && Covers(k', Nodes(t)) && RepIn(k, Root(t), t) && b in Nodes(t)
    requires b == t.e ==> k.parent[b] == null
    requires ParentRelinked(k, k', Nodes(t) - Nodes(At(t, b)), b, rep, k.parent[b])
    ensures Relinked(k, k', Nodes(t) - Nodes(At(t, b)), b, rep)
  {
    var s := Nodes(t) - Nodes(At(t, b));
    if b != t.e { HasParent(k, t, b); }
    forall x | x in s
      ensures k'.left[x] == (if k.left[x] == b then rep else k.left[x])
      ensures k'.right[x] == (if k.right[x] == b then rep else k.right[x])
    {
      if k.left[x] == b || k.right[x] == b { OnlyParent(k, t, b, x); }
      if k.left[x] == b { ChildrenDiffer(k, t, x); }
    }
  }

  /** The pointer work of skew_heap_remove. */
  method ReplaceSubtree(p: Entry?, b: Entry, comp: Compare, ghost sub: Tree, ghost s: set<Entry>) returns (rep: Entry?)
    requires Rep(b, sub) && Proper(sub) && sub.T? && Nodes(sub) <= s && p == b.parent
    requires p != null ==> p in s - Nodes(sub)
    modifies Nodes(sub)`left, Nodes(sub)`right, Nodes(sub)`parent
    modifies (if p == null then {} else {p})`left, (if p == null then {} else {p})`right
    ensures Rep(rep, Merged(comp, sub.l, sub.r))
    ensures rep != null ==> rep in Nodes(sub) && rep.parent == p
    ensures p != null ==> p.left == (if old(p.left) == b then rep else old(p.left))
    ensures p != null ==> p.right == (if old(p.left) == b then old(p.right) else rep)
  {
    MergedNodes(comp, sub.l, sub.r);
    ghost var m := Merged(comp, sub.l, sub.r);
    rep := Merge(b.left, b.right, comp, sub.l, sub.r, s);
    RepointParent(p, b, rep, m, s);
  }

  /** The same, seen from the entries outside the subtree. */
  method ReplaceAndRemember(p: Entry?, b: Entry, comp: Compare, ghost sub: Tree, ghost s: set<Entry>)
    returns (rep: Entry?)
    requires Rep(b, sub) && Proper(sub) && sub.T? && Nodes(sub) <= s && p == b.parent
    requires p != null ==> p in s - Nodes(sub)
    modifies s`left, s`right, s`parent
    ensures Nodes(Merged(comp, sub.l, sub.r)) <= s && Rep(rep, Merged(comp, sub.l, sub.r))
    ensures rep != null ==> rep in s && rep.parent == p
    ensures ParentRelinked(old(Snapshot(s)), Snapshot(s), s - Nodes(sub), b, rep, p)
  {
    hide Merged, Rep, Nodes, Proper;
    Parted(sub);
    MergedNodes(comp, sub.l, sub.r);
    rep := ReplaceSubtree(p, b, comp, sub, s);
  }

  /** `rep` gets parent `p`, and `p` points to `rep` instead of `b`. */
  method RepointParent(p: Entry?, b: Entry, rep: Entry?, ghost m: Tree, ghost s: set<Entry>)
    requires Rep(rep, m) && Proper(m) && Nodes(m) <= s && (p != null ==> p in s && p !in Nodes(m))
    modifies (if rep == null then {}
      else {rep})`parent, (if p == null then {} else {p})`left, (if p == null then {} else {p})`right
    ensures Rep(rep, m) && (rep != null ==> rep in Nodes(m) && rep.parent == p)
    ensures p != null ==> p.left == (if old(p.left) == b then rep else old(p.left))
    ensures p != null ==> p.right == (if old(p.left) == b then old(p.right) else rep)
  {
    SetParent(rep, p, m);
    assert rep != null ==> rep in Nodes(m);
    Repoint(p, b, rep);
    assert Rep(rep, m);
  }

  /** What the pointer work amounts to. */
  lemma Removed(comp: Compare, k: Links, k': Links, t: Tree, b: Entry, rep: Entry?)
    requires Proper(t) && b in Nodes(t) && Covers(k, Nodes(t)) && Covers(k', Nodes(t)) && RepIn(k, Root(t), t)
    requires b == t.e ==> k.parent[b] == null
    requires ParentRelinked(k, k', Nodes(t) - Nodes(At(t, b)), b, rep, k.parent[b])
    requires At(t, b).T? && Nodes(Merged(comp, At(t, b).l, At(t, b).r)) <= Nodes(t)
    requires RepIn(k', rep, Merged(comp, At(t, b).l, At(t, b).r))
    requires rep != null ==> k'.parent[rep] == k.parent[b]
    ensures Nodes(Without(comp, t, b)) <= Nodes(t)
    ensures RepIn(k', if t.e == b then rep else t.e, Without(comp, t, b))
    ensures t.e != b ==> k.parent[b] != null && k'.parent[t.e] == k.parent[t.e]
  {
    AtNodes(t, b);
    ParentIsEnough(k, k', t, b, rep);
    Replaced(comp, k, k', t, b, rep);
    if t.e != b { HasParent(k, t, b); }
  }

  lemma ParentOutside(t: Tree, b: Entry)
    requires Rep(Root(t), t) && Proper(t) && b in Nodes(t) && (t.T? ==> t.e.parent == null)
    ensures b.parent != null ==> b.parent in Nodes(t) - Nodes(At(t, b))
  {
    Remember(Root(t), t, Nodes(t));
    if b != t.e { HasParent(Snapshot(Nodes(t)), t, b); }
  }

  /** skew_heap_remove: take entry `b` out of the heap with root `a`. */
  method RemoveEntry(a: Entry, b: Entry, comp: Compare, ghost t: Tree) returns (m: Entry?)
    requires Rep(a, t) && Proper(t) && b in Nodes(t) && a.parent == null
    requires forall e :: e in Nodes(t) ==> allocated(e)
    modifies Nodes(t)`left, Nodes(t)`right, Nodes(t)`parent
    ensures Rep(m, Without(comp, t, b))
    ensures m != null ==> m.parent == null
  {
    ghost var s, sub := Nodes(t), At(t, b);
    ghost var k := Snapshot(s);
    AtNodes(t, b);
    RepAt(t, b);
    ParentOutside(t, b);
    Remember(a, t, s);
    var p := b.parent;
    var rep := ReplaceAndRemember(p, b, comp, sub, s);
    Remember(rep, Merged(comp, sub.l, sub.r), s);
    Removed(comp, k, Snapshot(s), t, b, rep);
    m := if p != null then a else rep;
    Remember(m, Without(comp, t, b), s);
  }

  /** Make the parent point to `rep` instead of `b`. */
  method Repoint(p: Entry?, b: Entry, rep: Entry?)
    modifies (if p == null then {} else {p})`left, (if p == null then {} else {p})`right
    ensures p != null ==> p.left == (if old(p.left) == b then rep else old(p.left))
    ensures p != null ==> p.right == (if old(p.left) == b then old(p.right) else rep)
  {
    if p != null {
      if p.left == b {
        p.left := rep;
      } else {
        p.right := rep;
      }
    }
  }
}
