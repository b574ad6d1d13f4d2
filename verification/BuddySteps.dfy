/**
  The four ways in which the buddy allocator changes its tree -- split, hand out, release, merge -- as
  functions on values, with what each of them keeps.
*/
module BuddySteps {
  import opened Bits
  import opened BuddyArithmetic
  import opened Lists
  import opened BuddyTree

  function SplitTree(st: Tree, b: nat): Tree { st[b := Split][2 * b := Free][2 * b + 1 := Free] }

  function MergeTree(st: Tree, b: nat): Tree { (st - {2 * b, 2 * b + 1})[b := Free] }

  // ---------------------------------------------------------------- shape

  lemma NoChildren(h: nat, st: Tree, b: nat)
    requires Shape(h, st) && b in st && st[b] != Split && b >= 1
    ensures 2 * b !in st && 2 * b + 1 !in st
  {
    assert 2 * b in st ==> NodeShape(h, st, 2 * b);
    assert 2 * b + 1 in st ==> NodeShape(h, st, 2 * b + 1);
  }

  lemma SplitShape(h: nat, st: Tree, b: nat, size: nat)
    requires Shape(h, st) && Within(h, st, size) && FreeNode(h, st, b) && Level(b) < h
    ensures Shape(h, SplitTree(st, b)) && Within(h, SplitTree(st, b), size)
  {
    hide Begin, Len, Level, Pow2;
    var st' := SplitTree(st, b);
    NoChildren(h, st, b);
    Children(h, b);
    assert NodeShape(h, st, b);
    forall x | x in st' ensures NodeShape(h, st', x) && (st'[x] == Free || st'[x] == Handed ==>
      Begin(h, x) + Len(h, x) <= size) {
      if x in st { assert NodeShape(h, st, x); }
    }
  }

  lemma RestatusShape(h: nat, st: Tree, b: nat, s: Status, size: nat)
    requires Shape(h, st) && Within(h, st, size) && b in st && st[b] != Split && st[b] != Hole
    requires s == Free || s == Handed
    ensures Shape(h, st[b := s]) && Within(h, st[b := s], size)
  {
    var st' := st[b := s];
    forall x | x in st' ensures NodeShape(h, st', x) && (st'[x] == Free || st'[x] == Handed ==>
      Begin(h, x) + Len(h, x) <= size) {
      assert NodeShape(h, st, x) && NodeShape(h, st, b);
    }
  }

  lemma MergeShape(h: nat, st: Tree, b: nat, size: nat)
    requires Shape(h, st) && Within(h, st, size) && b in st && st[b] == Split
    requires FreeNode(h, st, 2 * b) && FreeNode(h, st, 2 * b + 1)
    ensures Shape(h, MergeTree(st, b)) && Within(h, MergeTree(st, b), size)
    ensures FreeNode(h, MergeTree(st, b), b)
  {
    hide Begin, Len, Level, Pow2;
    var st' := MergeTree(st, b);
    var l, r := 2 * b, 2 * b + 1;
    assert NodeShape(h, st, b);
    Children(h, b);
    NoChildren(h, st, l);
    NoChildren(h, st, r);
    assert NodeShape(h, st, l) && NodeShape(h, st, r);
    assert Shape(h, st') by {
      forall x | x in st' ensures NodeShape(h, st', x) {
        assert x in st && x != l && x != r;
        assert NodeShape(h, st, x);
        if x != b {
          if x > 1 { NotBelowLeaf(x, l, r, st); }
          MergeKeepsNode(h, st, b, x);
        }
      }
    }
    assert Within(h, st', size) by {
      forall x | x in st' && NodeShape(h, st', x) && (st'[x] == Free || st'[x] == Handed)
        ensures Begin(h, x) + Len(h, x) <= size
      {
        assert x in st && x != l && x != r;
        assert NodeShape(h, st, x);
      }
    }
  }

  lemma NotBelowLeaf(x: nat, l: nat, r: nat, st: Tree)
    requires x > 1 && x in st && 2 * l !in st && 2 * l + 1 !in st && 2 * r !in st && 2 * r + 1 !in st
    ensures x / 2 != l && x / 2 != r
  {
    assert x == 2 * (x / 2) || x == 2 * (x / 2) + 1;
  }

  lemma MergeKeepsNode(h: nat, st: Tree, b: nat, x: nat)
    requires b in st && x in st && x != b && x != 2 * b && x != 2 * b + 1 && NodeShape(h, st, x)
    requires x > 1 ==> x / 2 != 2 * b && x / 2 != 2 * b + 1 && x / 2 != b
    ensures NodeShape(h, MergeTree(st, b), x)
  {
  }

  // ---------------------------------------------------------------- words

  lemma SplitWords(h: nat, st: Tree, seg: seq<nat>, b: nat, l: nat)
    requires Shape(h, st) && FreeNode(h, st, b) && Level(b) < h && Shape(h, SplitTree(st, b))
    requires |seg| >= 2 * Pow2(h) && 2 * b + 1 < |seg| && 2 * l == Len(h, b) && Words(h, st, seg, b)
    ensures Words(h, SplitTree(st, b), seg[2 * b := l][2 * b + 1 := l], 2 * b)
  {
    hide Begin, Pow2, Level, Or, Above;
    var st', seg' := SplitTree(st, b), seg[2 * b := l][2 * b + 1 := l];
    Children(h, b);
    forall x | x in st' && NodeShape(h, st', x) && !Above(x, 2 * b) ensures WordOk(h, st', seg', x) {
      NodeBound(h, x);
      AboveLeft(x, b);
      if x != 2 * b && x != 2 * b + 1 {
        assert NodeShape(h, st, x) && WordOk(h, st, seg, x);
      }
    }
  }

  lemma AboveLeft(x: nat, b: nat)
    requires b >= 1
    ensures Above(x, 2 * b) <==> x == b || Above(x, b)
  {
  }

  lemma RestatusWords(h: nat, st: Tree, seg: seq<nat>, b: nat, s: Status, v: nat)
    requires Shape(h, st) && b in st && st[b] != Split && Shape(h, st[b := s]) && |seg| >= 2 * Pow2(h) && IsNode(h, b)
    requires b < |seg|
    requires Words(h, st, seg, b)
    requires (s == Free && v == Len(h, b)) || (s == Handed && v == 0)
    ensures Words(h, st[b := s], seg[b := v], b)
  {
    hide Begin, Pow2, Or, Above;
    var st', seg' := st[b := s], seg[b := v];
    forall x | x in st' && NodeShape(h, st', x) && !Above(x, b) ensures WordOk(h, st', seg', x) {
      NodeBound(h, x);
      if x != b {
        assert NodeShape(h, st, x) && WordOk(h, st, seg, x);
        if b == 2 * x || b == 2 * x + 1 { ParentAbove(x, b); }
      }
    }
  }

  /** buddy_segment[parent] = left | right repairs the parent's word. */
  lemma AscendWords(h: nat, st: Tree, seg: seq<nat>, c: nat)
    requires Shape(h, st) && c > 1 && c in st && |seg| >= 2 * Pow2(h) && 2 * (c / 2) + 1 < |seg| && Words(h, st, seg, c)
    ensures Words(h, st, seg[c / 2 := Or(seg[2 * (c / 2)], seg[2 * (c / 2) + 1])], c / 2)
  {
    hide Begin, Len, Level, Pow2, Or, Above, WordOk;
    var p := c / 2;
    var w := Or(seg[2 * p], seg[2 * p + 1]);
    assert NodeShape(h, st, c);
    forall x | x in st && NodeShape(h, st, x) && !Above(x, p) ensures WordOk(h, st, seg[p := w], x) {
      if x == p {
        ParentWord(h, st, seg, p);
      } else {
        AboveOrParent(x, c);
        OtherWord(h, st, seg, x, p, w);
      }
    }
  }

  lemma AboveOrParent(x: nat, c: nat)
    requires c > 1 && x != c / 2 && !Above(x, c / 2)
    ensures !Above(x, c)
  {
  }

  lemma ParentAbove(x: nat, p: nat)
    requires x >= 1 && (p == 2 * x || p == 2 * x + 1)
    ensures Above(x, p)
  {
  }

  lemma ParentWord(h: nat, st: Tree, seg: seq<nat>, p: nat)
    requires p in st && NodeShape(h, st, p) && st[p] == Split && |seg| >= 2 * Pow2(h) && p >= 1 && 2 * p + 1 < |seg|
    ensures WordOk(h, st, seg[p := Or(seg[2 * p], seg[2 * p + 1])], p)
  {
    hide Begin, Level, Pow2, Or;
  }

  /** A word that is neither `p` nor its parent does not see the change at `p`. */
  lemma OtherWord(h: nat, st: Tree, seg: seq<nat>, x: nat, p: nat, w: nat)
    requires x in st && NodeShape(h, st, x) && |seg| >= 2 * Pow2(h) && 1 <= p < |seg| && WordOk(h, st, seg, x)
    requires x != p && !Above(x, p)
    ensures WordOk(h, st, seg[p := w], x)
  {
    hide Begin, Level, Pow2, Or, Above;
    NodeBound(h, x);
    if p == 2 * x || p == 2 * x + 1 { ParentAbove(x, p); }
  }

  lemma MergeWords(h: nat, st: Tree, seg: seq<nat>, b: nat, c: nat)
    requires Shape(h, st) && b in st && st[b] == Split && c / 2 == b && c > 1
    requires FreeNode(h, st, 2 * b) && FreeNode(h, st, 2 * b + 1) && IsNode(h, b)
    requires Shape(h, MergeTree(st, b)) && |seg| >= 2 * Pow2(h) && b < |seg| && Words(h, st, seg, c)
    ensures Words(h, MergeTree(st, b), seg[b := Len(h, b)], b)
  {
    hide Begin, Pow2, Or, Above;
    var st', seg' := MergeTree(st, b), seg[b := Len(h, b)];
    forall x | x in st' && NodeShape(h, st', x) && !Above(x, b) ensures WordOk(h, st', seg', x) {
      NodeBound(h, x);
      if x != b {
        assert NodeShape(h, st, x);
        AboveOrParent(x, c);
        assert WordOk(h, st, seg, x);
        if b == 2 * x || b == 2 * x + 1 { ParentAbove(x, b); }
      }
    }
  }

  // ---------------------------------------------------------------- buddies

  lemma SplitMerged(h: nat, st: Tree, b: nat)
    requires Shape(h, st) && FreeNode(h, st, b) && Level(b) < h && MergedBelow(st, b)
    ensures MergedBelow(SplitTree(st, b), 2 * b)
  {
    var st' := SplitTree(st, b);
    NoChildren(h, st, b);
    forall x | x in st' && st'[x] == Split && !Above(x, 2 * b) ensures NotBothFree(st', x) {
      assert x != b && x in st && !Above(x, b);
      assert NotBothFree(st, x) && NodeShape(h, st, x);
    }
  }

  /** Once a block is handed out, every ancestor has a child that is not free. */
  lemma HandOutMerged(h: nat, st: Tree, b: nat)
    requires Shape(h, st) && b in st && b >= 1 && st[b] != Split && MergedBelow(st, b)
    ensures MergedExcept(st[b := Handed], 0)
  {
    var st' := st[b := Handed];
    forall x | x in st' && st'[x] == Split && x != 0 ensures NotBothFree(st', x) {
      assert NodeShape(h, st, x);
      if Above(x, b) {
        UnderChild(x, b);
        if Above(2 * x, b) { AncestorsAreSplit(h, st, 2 * x, b); }
        if Above(2 * x + 1, b) { AncestorsAreSplit(h, st, 2 * x + 1, b); }
      } else {
        assert NotBothFree(st, x);
      }
    }
  }

  lemma ReleaseMerged(st: Tree, b: nat)
    requires b in st && b >= 1 && MergedExcept(st, 0) && st[b] == Handed
    ensures MergedExcept(st[b := Free], b / 2)
  {
    var st' := st[b := Free];
    forall x | x in st' && st'[x] == Split && x != b / 2 ensures NotBothFree(st', x) {
      assert x == 0 || NotBothFree(st, x);
    }
  }

  lemma MergeMerged(h: nat, st: Tree, b: nat)
    requires Shape(h, st) && b in st && b >= 1 && st[b] == Split && MergedExcept(st, b)
    requires FreeNode(h, st, 2 * b) && FreeNode(h, st, 2 * b + 1)
    ensures MergedExcept(MergeTree(st, b), b / 2)
  {
    var st' := MergeTree(st, b);
    forall x | x in st' && st'[x] == Split && x != b / 2 ensures NotBothFree(st', x) {
      assert NotBothFree(st, x);
    }
  }

  // ---------------------------------------------------------------- pages

  ghost predicate PageIn(h: nat, b: nat, p: nat)
    requires IsNode(h, b)
  {
    Begin(h, b) <= p < Begin(h, b) + Len(h, b)
  }

  ghost predicate PageFree(h: nat, st: Tree, p: nat) {
    exists b :: FreeNode(h, st, b) && PageIn(h, b, p)
  }

  lemma SplitPages(h: nat, st: Tree, b: nat, p: nat)
    requires Shape(h, st) && FreeNode(h, st, b) && Level(b) < h
    ensures PageFree(h, SplitTree(st, b), p) <==> PageFree(h, st, p)
  {
    hide Begin, Len, Level, Pow2;
    var st' := SplitTree(st, b);
    NoChildren(h, st, b);
    Children(h, b);
    if PageFree(h, st, p) {
      var x :| FreeNode(h, st, x) && PageIn(h, x, p);
      if x == b {
        assert FreeNode(h, st', 2 * b) && FreeNode(h, st', 2 * b + 1);
        assert PageIn(h, 2 * b, p) || PageIn(h, 2 * b + 1, p);
      } else {
        assert FreeNode(h, st', x);
      }
    }
    if PageFree(h, st', p) {
      var x :| FreeNode(h, st', x) && PageIn(h, x, p);
      if x == 2 * b || x == 2 * b + 1 { assert PageIn(h, b, p); } else { assert FreeNode(h, st, x); }
    }
  }

  lemma HandOutPages(h: nat, st: Tree, b: nat, p: nat)
    requires Shape(h, st) && FreeNode(h, st, b)
    ensures PageFree(h, st[b := Handed], p) <==> PageFree(h, st, p) && !PageIn(h, b, p)
  {
    var st' := st[b := Handed];
    if PageFree(h, st, p) && !PageIn(h, b, p) {
      var x :| FreeNode(h, st, x) && PageIn(h, x, p);
      assert FreeNode(h, st', x);
    }
    if PageFree(h, st', p) {
      var x :| FreeNode(h, st', x) && PageIn(h, x, p);
      assert FreeNode(h, st, x);
      LeavesApart(h, st, x, b);
    }
  }

  lemma ReleasePages(h: nat, st: Tree, b: nat, p: nat)
    requires Shape(h, st) && IsNode(h, b) && b in st && st[b] == Handed
    ensures PageFree(h, st[b := Free], p) <==> PageFree(h, st, p) || PageIn(h, b, p)
    ensures !(PageFree(h, st, p) && PageIn(h, b, p))
  {
    var st' := st[b := Free];
    if PageFree(h, st, p) {
      var x :| FreeNode(h, st, x) && PageIn(h, x, p);
      assert FreeNode(h, st', x);
      LeavesApart(h, st, x, b);
    }
    if PageIn(h, b, p) { assert FreeNode(h, st', b); }
    if PageFree(h, st', p) {
      var x :| FreeNode(h, st', x) && PageIn(h, x, p);
      assert x != b ==> FreeNode(h, st, x);
    }
  }

  lemma MergePages(h: nat, st: Tree, b: nat, p: nat)
    requires Shape(h, st) && b in st && st[b] == Split && FreeNode(h, st, 2 * b) && FreeNode(h, st, 2 * b + 1)
    ensures PageFree(h, MergeTree(st, b), p) <==> PageFree(h, st, p)
  {
    hide Begin, Len, Level, Pow2;
    var st' := MergeTree(st, b);
    assert NodeShape(h, st, b);
    Children(h, b);
    if PageFree(h, st, p) {
      var x :| FreeNode(h, st, x) && PageIn(h, x, p);
      if x == 2 * b || x == 2 * b + 1 {
        assert FreeNode(h, st', b) && PageIn(h, b, p);
      } else {
        assert FreeNode(h, st', x);
      }
    }
    if PageFree(h, st', p) {
      var x :| FreeNode(h, st', x) && PageIn(h, x, p);
      if x == b {
        assert PageIn(h, 2 * b, p) || PageIn(h, 2 * b + 1, p);
      } else {
        assert FreeNode(h, st, x);
      }
    }
  }

  // ---------------------------------------------------------------- the free list

  ghost predicate StartsFree(h: nat, st: Tree, p: nat) {
    exists b :: FreeNode(h, st, b) && Begin(h, b) == p
  }

  /** The list holds the first pages of exactly the free blocks, each once, with its length in `property`. */
  ghost predicate FreeList(h: nat, st: Tree, list: seq<nat>, prop: seq<nat>) {
    && Distinct(list)
    && (forall p {:trigger p in list} :: p in list ==> p < |prop| && StartsFree(h, st, p))
    && (forall b {:trigger FreeNode(h, st, b)} :: FreeNode(h, st, b) ==>
          Begin(h, b) in list && Begin(h, b) < |prop| && prop[Begin(h, b)] == Len(h, b))
  }

  lemma SameStart(h: nat, st: Tree, a: nat, b: nat)
    requires Shape(h, st) && IsNode(h, a) && a in st && st[a] != Split && FreeNode(h, st, b)
    requires Begin(h, b) <= Begin(h, a) < Begin(h, b) + Len(h, b)
    ensures a == b
  {
    if a != b { LeavesApart(h, st, a, b); }
  }

  /** list_del of a block that leaves the free set. */
  lemma UnlistBlock(h: nat, st: Tree, b: nat, list: seq<nat>, prop: seq<nat>, st': Tree)
    requires Shape(h, st) && FreeNode(h, st, b) && FreeList(h, st, list, prop)
    requires forall x :: FreeNode(h, st', x) <==> FreeNode(h, st, x) && x != b
    ensures FreeList(h, st', Remove(list, Begin(h, b)), prop)
    ensures Begin(h, b) < |prop| && Total(list, prop) == Len(h, b) + Total(Remove(list, Begin(h, b)), prop)
  {
    var q := Begin(h, b);
    RemoveDistinct(list, q);
    TotalRemove(list, prop, q);
    forall p | p in Remove(list, q) ensures p < |prop| && StartsFree(h, st', p) {
      assert p in list;
      var x :| FreeNode(h, st, x) && Begin(h, x) == p;
      assert FreeNode(h, st', x);
    }
    forall x | FreeNode(h, st', x) ensures Begin(h, x) in Remove(list, q) && Begin(h, x) < |prop|
      && prop[Begin(h, x)] == Len(h, x) {
      assert FreeNode(h, st, x);
      if Begin(h, x) == q { SameStart(h, st, x, b); }
    }
  }

  /** list_add of a block that joins the free set, after its length has been stored. */
  lemma ListBlock(h: nat, st: Tree, b: nat, list: seq<nat>, prop: seq<nat>, st': Tree)
    requires IsNode(h, b) && FreeList(h, st, list, prop) && Begin(h, b) < |prop| && Begin(h, b) !in list
    requires forall x :: FreeNode(h, st', x) <==> FreeNode(h, st, x) || x == b
    ensures FreeList(h, st', [Begin(h, b)] + list, prop[Begin(h, b) := Len(h, b)])
    ensures Total([Begin(h, b)] + list, prop[Begin(h, b) := Len(h, b)]) == Len(h, b) + Total(list, prop)
  {
    var q := Begin(h, b);
    var prop' := prop[q := Len(h, b)];
    PrependDistinct(q, list);
    TotalFrame(list, prop, q, Len(h, b));
    TotalPrepend(q, list, prop');
    forall p | p in [q] + list ensures p < |prop'| && StartsFree(h, st', p) {
      if p == q {
        assert FreeNode(h, st', b);
      } else {
        assert p in list;
        var x :| FreeNode(h, st, x) && Begin(h, x) == p;
        assert FreeNode(h, st', x);
      }
    }
    forall x | FreeNode(h, st', x)
      ensures Begin(h, x) in [q] + list && Begin(h, x) < |prop'| && prop'[Begin(h, x)] == Len(h, x)
    {
      if x != b { assert FreeNode(h, st, x); }
    }
  }

  // ---------------------------------------------------------------- how much is handed out

  ghost function HandedSet(st: Tree): set<nat> {
    set b | b in st && st[b] == Handed
  }

  ghost function SumLen(h: nat, s: set<nat>): nat
    requires forall b :: b in s ==> IsNode(h, b)
    decreases |s|
  {
    if s == {} then 0 else var b :| b in s; Len(h, b) + SumLen(h, s - {b})
  }

  lemma {:induction false} SumLenRemove(h: nat, s: set<nat>, b: nat)
    requires b in s && forall x :: x in s ==> IsNode(h, x)
    ensures SumLen(h, s) == Len(h, b) + SumLen(h, s - {b})
    decreases |s|
  {
    var c :| c in s && SumLen(h, s) == Len(h, c) + SumLen(h, s - {c});
    if c != b {
      SumLenRemove(h, s - {c}, b);
      SumLenRemove(h, s - {b}, c);
      assert s - {c} - {b} == s - {b} - {c};
    }
  }

  lemma HandedNodes(h: nat, st: Tree)
    requires Shape(h, st)
    ensures forall b :: b in HandedSet(st) ==> IsNode(h, b)
  {
    forall b | b in HandedSet(st) ensures IsNode(h, b) {
      assert NodeShape(h, st, b);
    }
  }
}
