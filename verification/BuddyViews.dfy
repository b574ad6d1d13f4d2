/** The buddy allocator's whole state as a value, and its four steps on it. */
module BuddyViews {
  import opened Bits
  import opened BuddyArithmetic
  import opened Lists
  import opened BuddyTree
  import opened BuddySteps

  /** `seg` is buddy_segment, `prop` the property field of buddy_alloc[..], `list` the free list, `nr` is nr_free. */
  datatype View = View(st: Tree, seg: seq<nat>, prop: seq<nat>, list: seq<nat>, nr: nat)

  /** What holds at every moment, also in the middle of an operation. */
  ghost predicate Core(h: nat, size: nat, v: View) {
    && size <= Pow2(h)
    && Shape(h, v.st)
    && Within(h, v.st, size)
    && |v.seg| >= 2 * Pow2(h)
    && |v.prop| == size
    && FreeList(h, v.st, v.list, v.prop)
    && v.nr == Total(v.list, v.prop)
  }

  /** What holds between operations. */
  ghost predicate Valid(h: nat, size: nat, v: View) {
    && Core(h, size, v)
    && Words(h, v.st, v.seg, 1)
    && MergedExcept(v.st, 0)
    && Conserved(h, size, v)
  }

  /** Free pages and handed-out pages together are all the pages managed. */
  ghost predicate Conserved(h: nat, size: nat, v: View)
    requires Shape(h, v.st)
  {
    HandedNodes(h, v.st);
    v.nr + SumLen(h, HandedSet(v.st)) == size
  }

  ghost function SplitView(h: nat, v: View, b: nat): View
    requires IsNode(h, b) && Level(b) < h && 2 * b + 1 < |v.seg|
    requires Begin(h, b) + Len(h, b) <= |v.prop|
  {
    Children(h, b);
    var l, begin, mid := Len(h, 2 * b), Begin(h, b), Begin(h, b) + Len(h, 2 * b);
    View(SplitTree(v.st, b), v.seg[2 * b := l][2 * b + 1 := l], v.prop[begin := l][mid := l],
         [mid] + ([begin] + Remove(v.list, begin)), v.nr)
  }

  ghost function HandOutView(h: nat, v: View, b: nat): View
    requires IsNode(h, b) && b < |v.seg| && v.nr >= Len(h, b)
  {
    View(v.st[b := Handed], v.seg[b := 0], v.prop, Remove(v.list, Begin(h, b)), v.nr - Len(h, b))
  }

  ghost function ReleaseView(h: nat, v: View, b: nat): View
    requires IsNode(h, b) && b < |v.seg| && Begin(h, b) < |v.prop|
  {
    View(v.st[b := Free], v.seg[b := Len(h, b)], v.prop[Begin(h, b) := Len(h, b)], [Begin(h, b)] + v.list,
         v.nr + Len(h, b))
  }

  ghost function MergeView(h: nat, v: View, b: nat): View
    requires IsNode(h, b) && Level(b) < h && b < |v.seg| && Begin(h, b) < |v.prop|
  {
    Children(h, b);
    View(MergeTree(v.st, b), v.seg[b := Len(h, b)], v.prop[Begin(h, b) := Len(h, b)],
         [Begin(h, b)] + Remove(Remove(v.list, Begin(h, 2 * b)), Begin(h, 2 * b + 1)), v.nr)
  }

  /** A free block lies inside memory and its word has room for children if it is longer than a page. */
  lemma FreeRange(h: nat, size: nat, v: View, b: nat)
    requires Core(h, size, v) && FreeNode(h, v.st, b)
    ensures Begin(h, b) + Len(h, b) <= size && b < |v.seg|
    ensures Level(b) < h ==> 2 * b + 1 < |v.seg|
    ensures v.nr >= Len(h, b)
  {
    assert NodeShape(h, v.st, b);
    NodeBound(h, b);
    TotalRemove(v.list, v.prop, Begin(h, b));
  }

  // ---------------------------------------------------------------- split

  lemma SplitList(h: nat, size: nat, v: View, b: nat)
    requires Core(h, size, v) && FreeNode(h, v.st, b) && Level(b) < h
    requires 2 * b + 1 < |v.seg| && Begin(h, b) + Len(h, b) <= size
    ensures var v' := SplitView(h, v, b); FreeList(h, v'.st, v'.list, v'.prop) && v'.nr == Total(v'.list, v'.prop)
  {
    hide Begin, Level, Pow2, FreeList, Within;
    var l, r, begin := 2 * b, 2 * b + 1, Begin(h, b);
    Children(h, b);
    NoChildren(h, v.st, b);
    var mid := Begin(h, r);
    var st1 := v.st[b := Split];
    var list1 := Remove(v.list, begin);
    UnlistBlock(h, v.st, b, v.list, v.prop, st1);
    var st2 := st1[l := Free];
    ListBlock(h, st1, l, list1, v.prop, st2);
    assert mid !in [begin] + list1 by {
      if mid in list1 {
        assert StartsFree(h, st1, mid);
        var x :| FreeNode(h, st1, x) && Begin(h, x) == mid;
        assert FreeNode(h, v.st, x) && x != b;
        SameStart(h, v.st, x, b);
      }
    }
    ListBlock(h, st2, r, [begin] + list1, v.prop[begin := Len(h, l)], SplitTree(v.st, b));
  }

  lemma SplitCore(h: nat, size: nat, v: View, b: nat)
    requires Core(h, size, v) && FreeNode(h, v.st, b) && Level(b) < h
    requires 2 * b + 1 < |v.seg| && Begin(h, b) + Len(h, b) <= size
    ensures Core(h, size, SplitView(h, v, b))
  {
    hide Begin, Level, Pow2, FreeList, Total, Within;
    Children(h, b);
    SplitShape(h, v.st, b, size);
    SplitList(h, size, v, b);
  }

  lemma SplitHanded(h: nat, st: Tree, b: nat)
    requires Shape(h, st) && FreeNode(h, st, b)
    ensures HandedSet(SplitTree(st, b)) == HandedSet(st)
    ensures SameTaken(st, SplitTree(st, b))
  {
    NoChildren(h, st, b);
    var st' := SplitTree(st, b);
    assert forall x :: x in st && st[x] == Handed ==> x in st' && st'[x] == Handed;
  }

  // ---------------------------------------------------------------- hand out and release

  lemma HandOutCore(h: nat, size: nat, v: View, b: nat)
    requires Core(h, size, v) && FreeNode(h, v.st, b) && b < |v.seg| && v.nr >= Len(h, b)
    ensures Core(h, size, HandOutView(h, v, b))
    ensures HandedSet(HandOutView(h, v, b).st) == HandedSet(v.st) + {b}
  {
    RestatusShape(h, v.st, b, Handed, size);
    UnlistBlock(h, v.st, b, v.list, v.prop, v.st[b := Handed]);
  }

  lemma ReleaseCore(h: nat, size: nat, v: View, b: nat)
    requires Core(h, size, v) && IsNode(h, b) && b in v.st && v.st[b] == Handed && b < |v.seg|
    ensures Begin(h, b) + Len(h, b) <= size
    ensures Core(h, size, ReleaseView(h, v, b))
    ensures HandedSet(ReleaseView(h, v, b).st) == HandedSet(v.st) - {b}
  {
    assert NodeShape(h, v.st, b);
    RestatusShape(h, v.st, b, Free, size);
    var begin := Begin(h, b);
    assert begin !in v.list by {
      if begin in v.list {
        assert StartsFree(h, v.st, begin);
        var x :| FreeNode(h, v.st, x) && Begin(h, x) == begin;
        SameStart(h, v.st, b, x);
      }
    }
    ListBlock(h, v.st, b, v.list, v.prop, v.st[b := Free]);
  }

  // ---------------------------------------------------------------- merge

  lemma MergeList(h: nat, size: nat, v: View, b: nat)
    requires Core(h, size, v) && b in v.st && v.st[b] == Split && IsNode(h, b) && Level(b) < h
    requires FreeNode(h, v.st, 2 * b) && FreeNode(h, v.st, 2 * b + 1) && b < |v.seg| && Begin(h, b) < size
    ensures var v' := MergeView(h, v, b); FreeList(h, v'.st, v'.list, v'.prop) && v'.nr == Total(v'.list, v'.prop)
  {
    var l, r, begin := 2 * b, 2 * b + 1, Begin(h, b);
    Children(h, b);
    var st1 := v.st - {l};
    var list1 := Remove(v.list, begin);
    UnlistBlock(h, v.st, l, v.list, v.prop, st1);
    var st2 := v.st - {l, r};
    UnlistTwo(h, v.st, l, r, list1, v.prop);
    ListBlock(h, st2, b, Remove(list1, Begin(h, r)), v.prop, MergeTree(v.st, b));
  }

  /** The second list_del of a merge. */
  lemma UnlistTwo(h: nat, st: Tree, l: nat, r: nat, list: seq<nat>, prop: seq<nat>)
    requires Shape(h, st) && FreeNode(h, st, l) && FreeNode(h, st, r) && l != r && FreeList(h, st - {l}, list, prop)
    ensures FreeList(h, st - {l, r}, Remove(list, Begin(h, r)), prop)
    ensures Begin(h, r) < |prop| && Total(list, prop) == Len(h, r) + Total(Remove(list, Begin(h, r)), prop)
  {
    var q := Begin(h, r);
    var st1, st2 := st - {l}, st - {l, r};
    assert FreeNode(h, st1, r);
    RemoveDistinct(list, q);
    TotalRemove(list, prop, q);
    forall p | p in Remove(list, q) ensures p < |prop| && StartsFree(h, st2, p) {
      assert p in list;
      var x :| FreeNode(h, st1, x) && Begin(h, x) == p;
      assert FreeNode(h, st2, x);
    }
    forall x | FreeNode(h, st2, x) ensures Begin(h, x) in Remove(list, q) && Begin(h, x) < |prop|
      && prop[Begin(h, x)] == Len(h, x) {
      assert FreeNode(h, st1, x) && FreeNode(h, st, x);
      if Begin(h, x) == q { SameStart(h, st, x, r); }
    }
  }

  lemma MergeCore(h: nat, size: nat, v: View, b: nat)
    requires Core(h, size, v) && b in v.st && v.st[b] == Split && IsNode(h, b) && Level(b) < h
    requires FreeNode(h, v.st, 2 * b) && FreeNode(h, v.st, 2 * b + 1) && b < |v.seg| && Begin(h, b) < size
    ensures Core(h, size, MergeView(h, v, b)) && FreeNode(h, MergeView(h, v, b).st, b)
    ensures HandedSet(MergeView(h, v, b).st) == HandedSet(v.st)
  {
    MergeShape(h, v.st, b, size);
    MergeList(h, size, v, b);
  }

  // ---------------------------------------------------------------- conservation

  lemma HandOutConserves(h: nat, size: nat, v: View, v': View, b: nat)
    requires Shape(h, v.st) && Shape(h, v'.st) && Conserved(h, size, v) && IsNode(h, b) && b !in HandedSet(v.st)
    requires HandedSet(v'.st) == HandedSet(v.st) + {b} && v'.nr + Len(h, b) == v.nr
    ensures Conserved(h, size, v')
  {
    HandedNodes(h, v'.st);
    SumLenRemove(h, HandedSet(v'.st), b);
    assert HandedSet(v'.st) - {b} == HandedSet(v.st);
  }

  lemma ReleaseConserves(h: nat, size: nat, v: View, v': View, b: nat)
    requires Shape(h, v.st) && Shape(h, v'.st) && Conserved(h, size, v) && IsNode(h, b) && b in HandedSet(v.st)
    requires HandedSet(v'.st) == HandedSet(v.st) - {b} && v'.nr == v.nr + Len(h, b)
    ensures Conserved(h, size, v')
  {
    HandedNodes(h, v.st);
    SumLenRemove(h, HandedSet(v.st), b);
  }
}
