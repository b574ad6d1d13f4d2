/** How buddy_init_segment builds the first tree: the binary digits of the number of pages, from the top down. */
module BuddyInit {
  import opened Bits
  import opened BuddyArithmetic
  import opened Lists
  import opened BuddyTree
  import opened BuddySteps
  import opened BuddyViews

  function Sibling(c: nat): nat
    requires c > 1
  {
    if c % 2 == 0 then c + 1 else c - 1
  }

  ghost predicate WordsBut(h: nat, st: Tree, seg: seq<nat>, c: nat)
    requires Shape(h, st) && |seg| >= 2 * Pow2(h)
  {
    forall b {:trigger WordOk(h, st, seg, b)} :: b in st && NodeShape(h, st, b) && b != c ==> WordOk(h, st, seg, b)
  }

  /** Everything before node `c` is in place; the first `a` pages of `c` still have to be made available. */
  ghost predicate Building(h: nat, size: nat, v: View, c: nat, a: nat) {
    && size <= Pow2(h)
    && Shape(h, v.st) && Within(h, v.st, size)
    && |v.seg| >= 2 * Pow2(h) && |v.prop| == size
    && FreeList(h, v.st, v.list, v.prop) && Total(v.list, v.prop) + a == size
    && IsNode(h, c) && c in v.st && v.st[c] == Hole && a <= Len(h, c) && Begin(h, c) + a == size
    && c < |v.seg| && v.seg[c] == a
    && WordsBut(h, v.st, v.seg, c)
    && MergedExcept(v.st, 0)
    && (c > 1 && a == Len(h, c) ==> Sibling(c) !in v.st || v.st[Sibling(c)] != Free)
    && HandedSet(v.st) == {}
    && (forall p: nat :: PageFree(h, v.st, p) <==> p < Begin(h, c))
  }

  lemma BuildStart(h: nat, size: nat, seg: seq<nat>, prop: seq<nat>)
    requires size <= Pow2(h) && |seg| >= 2 * Pow2(h) && |prop| == size && seg[1] == size
    ensures Building(h, size, View(map[1 := Hole], seg, prop, [], size), 1, size)
  {
    var st := map[1 := Hole];
    assert NodeShape(h, st, 1);
    NodeBound(h, 1);
    assert forall b :: !FreeNode(h, st, b);
    assert HandedSet(st) == {};
  }

  /** Node `c` is divided; its left half gets status `s`, its right half is not there (yet). */
  function DivideTree(st: Tree, c: nat, s: Status): Tree { st[c := Split][2 * c := s][2 * c + 1 := Hole] }

  ghost function FillLeft(h: nat, v: View, c: nat, a: nat): View
    requires IsNode(h, c) && Level(c) < h && 2 * c + 1 < |v.seg| && Begin(h, c) < |v.prop|
    requires a >= Pow2(h - Level(c) - 1)
  {
    var half := Pow2(h - Level(c) - 1);
    View(DivideTree(v.st, c, Free), v.seg[2 * c := half][2 * c + 1 := a - half],
         v.prop[Begin(h, c) := half], [Begin(h, c)] + v.list, v.nr)
  }

  ghost function SkipRight(v: View, c: nat, a: nat): View
    requires 2 * c + 1 < |v.seg|
  {
    v.(st := DivideTree(v.st, c, Hole), seg := v.seg[2 * c := a][2 * c + 1 := 0])
  }

  lemma Dividing(h: nat, size: nat, v: View, c: nat, a: nat)
    requires Building(h, size, v, c, a) && 0 < a < Len(h, c)
    ensures Level(c) < h && 2 * c + 1 < |v.seg| && Begin(h, c) < size
    ensures 2 * c !in v.st && 2 * c + 1 !in v.st
    ensures Len(h, 2 * c) == Pow2(h - Level(c) - 1) && 2 * Len(h, 2 * c) == Len(h, c)
  {
    NoChildren(h, v.st, c);
    Children(h, c);
    NodeBound(h, 2 * c + 1);
  }

  lemma DivideShape(h: nat, st: Tree, c: nat, s: Status, size: nat)
    requires Shape(h, st) && Within(h, st, size) && c in st && IsNode(h, c) && Level(c) < h
    requires 2 * c !in st && 2 * c + 1 !in st && st[c] == Hole
    requires s == Free || s == Hole
    requires s == Free ==> Begin(h, c) + Pow2(h - Level(c) - 1) <= size
    ensures var st' := DivideTree(st, c, s);
      Shape(h, st') && Within(h, st', size)
  {
    var st' := DivideTree(st, c, s);
    assert NodeShape(h, st, c);
    assert Shape(h, st') by {
      forall x | x in st' ensures NodeShape(h, st', x) {
        if x == c {
          DivideNode(h, st, c, s);
        } else if x in st {
          assert NodeShape(h, st, x);
          DivideOther(h, st, c, s, x);
        } else {
          Children(h, c);
          DivideHalf(h, st, c, s, x);
        }
      }
    }
    assert Within(h, st', size) by {
      Children(h, c);
      forall x | x in st' && NodeShape(h, st', x) && (st'[x] == Free || st'[x] == Handed)
        ensures Begin(h, x) + Len(h, x) <= size
      {
        if x in st { assert NodeShape(h, st, x); }
      }
    }
  }

  /** The divided node and its halves are in order. */
  lemma DivideNode(h: nat, st: Tree, c: nat, s: Status)
    requires c in st && CanDivide(h, c) && NodeShape(h, st, c)
    ensures NodeShape(h, DivideTree(st, c, s), c)
  {
  }

  lemma DivideHalf(h: nat, st: Tree, c: nat, s: Status, x: nat)
    requires x >= 1 && x / 2 == c && IsNode(h, x) && x > 1
    requires x == 2 * c + 1 || (x == 2 * c && s != Split)
    ensures NodeShape(h, DivideTree(st, c, s), x)
  {
    var st' := DivideTree(st, c, s);
    assert st'[x] != Split && st'[c] == Split;
  }

  ghost predicate CanDivide(h: nat, c: nat) {
    IsNode(h, c) && Level(c) < h
  }

  /** So are the other nodes. */
  lemma DivideOther(h: nat, st: Tree, c: nat, s: Status, x: nat)
    requires c in st && 2 * c !in st && 2 * c + 1 !in st && st[c] == Hole
    requires x in st && x != c && NodeShape(h, st, x)
    ensures NodeShape(h, DivideTree(st, c, s), x)
  {
    var st' := DivideTree(st, c, s);
    var q := x / 2;
    assert x > 1 ==> q in st && q != c && st'[q] == Split;
    assert st'[x] == st[x];
    assert st[x] == Split ==> 2 * x in st && 2 * x + 1 in st;
  }

  lemma DivideWords(h: nat, st: Tree, seg: seq<nat>, c: nat, s: Status, x: nat, y: nat)
    requires Shape(h, st) && c in st && IsNode(h, c) && Level(c) < h && 2 * c !in st && 2 * c + 1 !in st
    requires st[c] == Hole
    requires |seg| >= 2 * Pow2(h) && 2 * c + 1 < |seg| && WordsBut(h, st, seg, c) && seg[c] == Or(x, y)
    requires Shape(h, DivideTree(st, c, s))
    ensures var st' := DivideTree(st, c, s);
      var seg' := seg[2 * c := x][2 * c + 1 := y];
      && (s == Free && x == Pow2(h - Level(c) - 1) ==> WordsBut(h, st', seg', 2 * c + 1))
      && (s == Hole && y == 0 ==> WordsBut(h, st', seg', 2 * c))
  {
    var st' := DivideTree(st, c, s);
    var seg' := seg[2 * c := x][2 * c + 1 := y];
    Children(h, c);
    forall b | b in st' && NodeShape(h, st', b)
      && ((s == Free && x == Pow2(h - Level(c) - 1) && b != 2 * c + 1) || (s == Hole && y == 0 && b != 2 * c))
      ensures WordOk(h, st', seg', b)
    {
      NodeBound(h, b);
      if b in st && b != c {
        assert NodeShape(h, st, b) && WordOk(h, st, seg, b);
      }
    }
  }

  lemma DivideMerged(h: nat, st: Tree, c: nat, s: Status)
    requires Shape(h, st) && c in st && c >= 1 && st[c] == Hole && MergedExcept(st, 0) && 2 * c !in st
    requires 2 * c + 1 !in st
    requires s == Free || s == Hole
    ensures MergedExcept(DivideTree(st, c, s), 0)
    ensures HandedSet(DivideTree(st, c, s)) == HandedSet(st)
  {
    var st' := DivideTree(st, c, s);
    forall x | x in st' && st'[x] == Split && x != 0 ensures NotBothFree(st', x) {
      if x != c {
        assert NodeShape(h, st, x) && NotBothFree(st, x);
        assert 2 * x != 2 * c && 2 * x + 1 != 2 * c;
      }
    }
    assert forall x :: x in st && st[x] == Handed ==> x != c && x != 2 * c && x != 2 * c + 1;
  }

  /** More than half of the node is available: its left half becomes a free block. */
  lemma BuildRight(h: nat, size: nat, v: View, c: nat, a: nat)
    requires Building(h, size, v, c, a) && 0 < a < Len(h, c) && a > Pow2(h - Level(c) - 1)
    requires Level(c) < h && 2 * c + 1 < |v.seg| && Begin(h, c) < size
    ensures Building(h, size, FillLeft(h, v, c, a), 2 * c + 1, a - Pow2(h - Level(c) - 1))
  {
    hide FreeList, Within, Total, Words, MergedExcept, Begin, Level, Or;
    Dividing(h, size, v, c, a);
    Children(h, c);
    var half := Pow2(h - Level(c) - 1);
    var st' := DivideTree(v.st, c, Free);
    DivideShape(h, v.st, c, Free, size);
    OrAdds(h - Level(c) - 1, a - half);
    DivideWords(h, v.st, v.seg, c, Free, half, a - half);
    DivideMerged(h, v.st, c, Free);
    FillList(h, v, c, st');
    PagesBeforeRight(h, v.st, c);
  }

  lemma PagesBeforeRight(h: nat, st: Tree, c: nat)
    requires CanDivide(h, c) && c in st && st[c] == Hole && 2 * c !in st && 2 * c + 1 !in st
    requires forall p: nat :: PageFree(h, st, p) <==> p < Begin(h, c)
    ensures IsNode(h, 2 * c + 1) && forall p: nat :: PageFree(h, DivideTree(st, c, Free), p) <==>
      p < Begin(h, 2 * c + 1)
  {
    Children(h, c);
    forall p: nat ensures PageFree(h, DivideTree(st, c, Free), p) <==> p < Begin(h, 2 * c + 1) {
      FillPages(h, st, c, p);
    }
  }

  lemma NotListed(h: nat, st: Tree, list: seq<nat>, prop: seq<nat>, p: nat)
    requires FreeList(h, st, list, prop)
    ensures p in list ==> PageFree(h, st, p)
  {
    if p in list {
      assert StartsFree(h, st, p);
      var x :| FreeNode(h, st, x) && Begin(h, x) == p;
      assert PageIn(h, x, p);
    }
  }

  lemma FillList(h: nat, v: View, c: nat, st': Tree)
    requires IsNode(h, c) && Level(c) < h && FreeList(h, v.st, v.list, v.prop) && Begin(h, c) < |v.prop|
    requires !PageFree(h, v.st, Begin(h, c)) && c in v.st && v.st[c] == Hole && 2 * c !in v.st && 2 * c + 1 !in v.st
    requires st' == DivideTree(v.st, c, Free)
    ensures var half, begin := Pow2(h - Level(c) - 1), Begin(h, c);
      && FreeList(h, st', [begin] + v.list, v.prop[begin := half])
      && Total([begin] + v.list, v.prop[begin := half]) == half + Total(v.list, v.prop)
  {
    Children(h, c);
    NotListed(h, v.st, v.list, v.prop, Begin(h, c));
    ListBlock(h, v.st, 2 * c, v.list, v.prop, st');
  }

  lemma FillPages(h: nat, st: Tree, c: nat, p: nat)
    requires IsNode(h, c) && IsNode(h, 2 * c) && c in st && st[c] == Hole && 2 * c !in st && 2 * c + 1 !in st
    ensures PageFree(h, DivideTree(st, c, Free), p) <==> PageFree(h, st, p) || PageIn(h, 2 * c, p)
  {
    var l := 2 * c;
    var st' := DivideTree(st, c, Free);
    if PageFree(h, st', p) {
      var x :| FreeNode(h, st', x) && PageIn(h, x, p);
      assert x == l || FreeNode(h, st, x);
    }
    if PageFree(h, st, p) {
      var x :| FreeNode(h, st, x) && PageIn(h, x, p);
      assert FreeNode(h, st', x);
    }
    if PageIn(h, l, p) { assert FreeNode(h, st', l); }
  }

  /** At most half of the node is available: its right half lies behind the end of memory. */
  lemma BuildLeft(h: nat, size: nat, v: View, c: nat, a: nat)
    requires Building(h, size, v, c, a) && 0 < a < Len(h, c) && a <= Pow2(h - Level(c) - 1)
    requires Level(c) < h && 2 * c + 1 < |v.seg|
    ensures Building(h, size, SkipRight(v, c, a), 2 * c, a)
  {
    Dividing(h, size, v, c, a);
    Children(h, c);
    var st' := DivideTree(v.st, c, Hole);
    DivideShape(h, v.st, c, Hole, size);
    DivideWords(h, v.st, v.seg, c, Hole, a, 0);
    DivideMerged(h, v.st, c, Hole);
    SameFree(h, v.st, c, st', v.list, v.prop);
  }

  lemma SameFree(h: nat, st: Tree, c: nat, st': Tree, list: seq<nat>, prop: seq<nat>)
    requires IsNode(h, c) && c in st && st[c] == Hole && 2 * c !in st && 2 * c + 1 !in st
    requires st' == DivideTree(st, c, Hole) && FreeList(h, st, list, prop)
    ensures FreeList(h, st', list, prop)
    ensures forall p :: PageFree(h, st', p) <==> PageFree(h, st, p)
  {
    assert forall x :: FreeNode(h, st', x) <==> FreeNode(h, st, x);
    forall p | p in list ensures p < |prop| && StartsFree(h, st', p) {
      var x :| FreeNode(h, st, x) && Begin(h, x) == p;
      assert FreeNode(h, st', x);
    }
    forall p ensures PageFree(h, st', p) <==> PageFree(h, st, p) {
      if PageFree(h, st, p) {
        var x :| FreeNode(h, st, x) && PageIn(h, x, p);
        assert FreeNode(h, st', x);
      }
      if PageFree(h, st', p) {
        var x :| FreeNode(h, st', x) && PageIn(h, x, p);
        assert FreeNode(h, st, x);
      }
    }
  }

  ghost function FillLast(h: nat, v: View, c: nat): View
    requires IsNode(h, c) && Begin(h, c) < |v.prop|
  {
    v.(st := v.st[c := Free], prop := v.prop[Begin(h, c) := Len(h, c)], list := [Begin(h, c)] + v.list)
  }

  /** The last digit: the node is available as a whole. */
  lemma BuildEnd(h: nat, size: nat, v: View, c: nat)
    requires IsNode(h, c) && Building(h, size, v, c, Len(h, c)) && v.nr == size
    ensures Begin(h, c) < size && Valid(h, size, FillLast(h, v, c))
    ensures HandedSet(FillLast(h, v, c).st) == {}
    ensures forall p: nat :: PageFree(h, FillLast(h, v, c).st, p) <==> p < size
  {
    var st' := v.st[c := Free];
    var v' := FillLast(h, v, c);
    EndShape(h, v.st, c, size);
    EndList(h, v, c);
    EndWords(h, v.st, v.seg, c);
    EndMerged(h, v.st, c);
    forall p: nat ensures PageFree(h, st', p) <==> p < size {
      EndPages(h, v.st, c, p);
    }
    HandedNodes(h, st');
  }

  lemma EndWords(h: nat, st: Tree, seg: seq<nat>, c: nat)
    requires Shape(h, st) && Shape(h, st[c := Free]) && c in st && IsNode(h, c) && st[c] == Hole
    requires |seg| >= 2 * Pow2(h) && c < |seg| && seg[c] == Len(h, c) && WordsBut(h, st, seg, c)
    ensures Words(h, st[c := Free], seg, 1)
  {
    var st' := st[c := Free];
    forall x | x in st' && NodeShape(h, st', x) && !Above(x, 1) ensures WordOk(h, st', seg, x) {
      NodeBound(h, x);
      assert NodeShape(h, st, x);
      if x != c { assert WordOk(h, st, seg, x); }
    }
  }

  lemma EndMerged(h: nat, st: Tree, c: nat)
    requires Shape(h, st) && c in st && c >= 1 && st[c] == Hole && MergedExcept(st, 0)
    requires c > 1 ==> Sibling(c) !in st || st[Sibling(c)] != Free
    requires HandedSet(st) == {}
    ensures MergedExcept(st[c := Free], 0)
    ensures HandedSet(st[c := Free]) == {}
  {
    var st' := st[c := Free];
    forall x | x in st' && st'[x] == Split && x != 0 ensures NotBothFree(st', x) {
      assert NotBothFree(st, x) && NodeShape(h, st, x);
    }
    assert forall x :: x in st && st[x] == Handed ==> x in HandedSet(st);
  }

  lemma EndShape(h: nat, st: Tree, c: nat, size: nat)
    requires Shape(h, st) && Within(h, st, size) && IsNode(h, c) && c in st && st[c] == Hole
    requires Begin(h, c) + Len(h, c) <= size
    ensures Shape(h, st[c := Free]) && Within(h, st[c := Free], size)
  {
    var st' := st[c := Free];
    forall x | x in st' ensures NodeShape(h, st', x) && (st'[x] == Free || st'[x] == Handed ==>
      Begin(h, x) + Len(h, x) <= size) {
      assert NodeShape(h, st, x) && NodeShape(h, st, c);
    }
  }

  lemma EndList(h: nat, v: View, c: nat)
    requires IsNode(h, c) && FreeList(h, v.st, v.list, v.prop) && Begin(h, c) < |v.prop|
    requires !PageFree(h, v.st, Begin(h, c)) && c in v.st && v.st[c] == Hole
    ensures var v' := FillLast(h, v, c);
      FreeList(h, v'.st, v'.list, v'.prop) && Total(v'.list, v'.prop) == Len(h, c) + Total(v.list, v.prop)
  {
    NotListed(h, v.st, v.list, v.prop, Begin(h, c));
    ListBlock(h, v.st, c, v.list, v.prop, v.st[c := Free]);
  }

  lemma EndPages(h: nat, st: Tree, c: nat, p: nat)
    requires IsNode(h, c) && c in st && st[c] == Hole
    ensures PageFree(h, st[c := Free], p) <==> PageFree(h, st, p) || PageIn(h, c, p)
  {
    var st' := st[c := Free];
    if PageFree(h, st', p) {
      var x :| FreeNode(h, st', x) && PageIn(h, x, p);
      assert x == c || FreeNode(h, st, x);
    }
    if PageFree(h, st, p) {
      var x :| FreeNode(h, st, x) && PageIn(h, x, p);
      assert FreeNode(h, st', x);
    }
    if PageIn(h, c, p) { assert FreeNode(h, st', c); }
  }
}
