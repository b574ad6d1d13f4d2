/**
  The buddy page allocator of kern/mm/buddy_pmm.c as it works in place: an array of words, the
  property fields of the pages, the free list and the counter of free pages.
*/
module BuddyAllocator {
  import opened Machine
  import opened Options
  import opened Bits
  import opened BuddyArithmetic
  import opened Lists
  import opened BuddyTree
  import opened BuddySteps
  import opened BuddyViews
  import opened BuddyInit

  // ---------------------------------------------------------------- the descent, on values

  /** The search for 2^j pages, begun in `v0`, has reached node `b` in state `v`. */
  ghost predicate Descending(h: nat, size: nat, v0: View, v: View, b: nat, j: nat) {
    && Core(h, size, v)
    && IsNode(h, b) && b in v.st && b < |v.seg| == |v0.seg| && 1 < |v0.seg|
    && Words(h, v.st, v.seg, b)
    && MergedBelow(v.st, b)
    && SameTaken(v0.st, v.st)
    && HandedSet(v.st) == HandedSet(v0.st)
    && (forall p :: PageFree(h, v.st, p) <==> PageFree(h, v0.st, p))
    && v.nr == v0.nr
    && (b == 1 ==> v == v0)
    && (b != 1 ==> Pow2(j) <= v.seg[b] && Pow2(j) <= v0.seg[1])
    && (Bit(v0.seg[1], j) ==> v == v0 && Bit(v.seg[b], j))
  }

  lemma DescendStart(h: nat, size: nat, v: View, j: nat)
    requires Valid(h, size, v)
    ensures Descending(h, size, v, v, 1, j)
  {
    assert NodeShape(h, v.st, 1);
    NodeBound(h, 1);
    forall x | x in v.st && v.st[x] == Split && !Above(x, 1) ensures NotBothFree(v.st, x) {
      assert NodeShape(h, v.st, x);
    }
  }

  lemma DescendSplit(h: nat, size: nat, v0: View, v: View, b: nat, j: nat)
    requires Descending(h, size, v0, v, b, j) && FreeNode(h, v.st, b) && Pow2(j) < Len(h, b) == v.seg[b]
    ensures Level(b) < h && 2 * b + 1 < |v.seg| && Begin(h, b) + Len(h, b) <= size
    ensures Descending(h, size, v0, SplitView(h, v, b), 2 * b, j)
  {
    FreeRange(h, size, v, b);
    HalfFits(h, b, j);
    var l := Len(h, 2 * b);
    SplitCore(h, size, v, b);
    SplitWords(h, v.st, v.seg, b, l);
    SplitMerged(h, v.st, b);
    SplitHanded(h, v.st, b);
    forall p ensures PageFree(h, SplitView(h, v, b).st, p) <==> PageFree(h, v0.st, p) {
      SplitPages(h, v.st, b, p);
    }
  }

  /** The descent goes down. */
  lemma DescendLevels(h: nat, size: nat, v0: View, v: View, b: nat, j: nat)
    requires Descending(h, size, v0, v, b, j) && Pow2(j) < Len(h, b)
    ensures IsNode(h, 2 * b) && IsNode(h, 2 * b + 1) && Level(2 * b) == Level(b) + 1 && Level(2 * b + 1) == Level(b) + 1
  {
    HalfFits(h, b, j);
    Children(h, b);
  }

  lemma HalfFits(h: nat, b: nat, j: nat)
    requires IsNode(h, b) && Pow2(j) < Len(h, b)
    ensures Level(b) < h && IsNode(h, 2 * b) && 2 * Len(h, 2 * b) == Len(h, b) && Pow2(j) <= Len(h, 2 * b)
    ensures !Bit(Len(h, b), j)
  {
    hide Pow2, Level, Bit;
    if h - Level(b) <= j { PowerMonotone(h - Level(b), j); }
    Children(h, b);
    PowerMonotone(j, h - Level(b) - 1);
    PowerBits(h - Level(b), j);
  }

  lemma DownWords(h: nat, st: Tree, seg: seq<nat>, b: nat, c: nat)
    requires Shape(h, st) && b >= 1 && (c == 2 * b || c == 2 * b + 1) && |seg| >= 2 * Pow2(h)
    requires Words(h, st, seg, b) && MergedBelow(st, b)
    ensures Words(h, st, seg, c) && MergedBelow(st, c)
  {
    assert c / 2 == b;
    forall x | x in st && NodeShape(h, st, x) && !Above(x, c) ensures WordOk(h, st, seg, x) {
      assert !Above(x, b);
    }
    forall x | x in st && st[x] == Split && !Above(x, c) ensures NotBothFree(st, x) {
      assert !Above(x, b);
    }
  }

  lemma DescendChild(h: nat, size: nat, v0: View, v: View, b: nat, c: nat, j: nat)
    requires Descending(h, size, v0, v, b, j) && v.st[b] == Split && (c == 2 * b || c == 2 * b + 1)
    requires c < |v.seg| && Pow2(j) <= v.seg[c] && Pow2(j) <= v0.seg[1] && (Bit(v0.seg[1], j) ==> Bit(v.seg[c], j))
    ensures Descending(h, size, v0, v, c, j)
  {
    assert NodeShape(h, v.st, b);
    Children(h, b);
    DownWords(h, v.st, v.seg, b, c);
  }

  /**
    The descent keeps to the left: no block that may serve the request begins before node `b`, and once a block has
    been split it is the lowest of them, and `b` a free block at its beginning.
  */
  ghost predicate Leftmost(h: nat, v0: View, v: View, b: nat, j: nat) {
    && IsNode(h, b)
    && (forall f :: Serves(h, v0.st, Pow2(j), f) ==> Begin(h, b) <= Begin(h, f))
    && (v == v0 || (FreeNode(h, v.st, b) && exists f :: Serves(h, v0.st, Pow2(j), f) && Begin(h, f) == Begin(h, b)))
  }

  lemma LeftmostStart(h: nat, v: View, j: nat)
    ensures Leftmost(h, v, v, 1, j)
  {
    forall f | Serves(h, v.st, Pow2(j), f) ensures Begin(h, 1) <= Begin(h, f) {
      EverythingUnderRoot(f);
      UnderBegins(h, 1, f);
    }
  }

  lemma LeftmostSplit(h: nat, size: nat, v0: View, v: View, b: nat, j: nat)
    requires Valid(h, size, v0) && Descending(h, size, v0, v, b, j) && Leftmost(h, v0, v, b, j)
    requires FreeNode(h, v.st, b) && Pow2(j) < Len(h, b) == v.seg[b]
    requires 2 * b + 1 < |v.seg| && Level(b) < h && Begin(h, b) + Len(h, b) <= size
    ensures Leftmost(h, v0, SplitView(h, v, b), 2 * b, j)
  {
    hide Level, Pow2, Bit, Words, MergedBelow, MergedExcept;
    HalfFits(h, b, j);
    Children(h, b);
    RootBit(h, v0.st, v0.seg, j);
    if v == v0 { assert Serves(h, v0.st, Pow2(j), b); }
  }

  /** Going right passes over nothing, because the left half has nothing that may serve. */
  lemma LeftmostChild(h: nat, size: nat, v0: View, v: View, b: nat, c: nat, j: nat)
    requires Valid(h, size, v0) && Descending(h, size, v0, v, b, j) && Leftmost(h, v0, v, b, j)
    requires v.st[b] == Split && 2 * b + 1 < |v.seg|
    requires c == 2 * b || (c == 2 * b + 1 && !Bit(v.seg[2 * b], j) && (Bit(v.seg[c], j) || v.seg[2 * b] < Pow2(j)))
    ensures Leftmost(h, v0, v, c, j)
  {
    hide Level, Pow2, Bit, Words, MergedBelow, MergedExcept;
    assert NodeShape(h, v.st, b);
    Children(h, b);
    if c != 2 * b {
      forall f | Serves(h, v0.st, Pow2(j), f) ensures Begin(h, c) <= Begin(h, f) {
        if Under(2 * b, f) { NoneBelow(h, v0, v0.seg, b, f, j); }
        RightOfLeft(h, v0.st, b, f);
      }
    }
  }

  lemma NoneBelow(h: nat, v: View, seg: seq<nat>, b: nat, f: nat, j: nat)
    requires Shape(h, v.st) && |seg| >= 2 * Pow2(h) && Words(h, v.st, seg, 1) && 2 * b in v.st && IsNode(h, 2 * b)
    requires 2 * b + 1 < |seg| && !Bit(seg[2 * b], j) && (Bit(seg[2 * b + 1], j) || seg[2 * b] < Pow2(j))
    requires 2 * b + 1 in v.st && IsNode(h, 2 * b + 1) && Serves(h, v.st, Pow2(j), f)
    ensures !Under(2 * b, f)
  {
    hide Level, Pow2, Bit, Words;
    if Under(2 * b, f) {
      WordReaches(h, v.st, seg, 2 * b, f);
      if Bit(seg[2 * b + 1], j) {
        WordMeaning(h, v.st, seg, 2 * b + 1, j);
        var g :| FreeOfSize(h, v.st, 2 * b + 1, j, g);
        assert NodeShape(h, v.st, g);
        assert FreeNode(h, v.st, g) && Len(h, g) == Pow2(j);
        PowerInjective(h - Level(f), j);
      }
    }
  }

  /** Where the descent ends, the block it started from was the lowest that may serve. */
  lemma LeftmostEnd(h: nat, v0: View, v: View, b: nat, j: nat)
    requires Leftmost(h, v0, v, b, j) && FreeNode(h, v.st, b) && Len(h, b) == Pow2(j)
    ensures LowestServing(h, v0.st, Pow2(j), Begin(h, b))
  {
    if v == v0 { assert Serves(h, v0.st, Pow2(j), b); }
  }

  /** Which child the tests of the descent can choose. */
  lemma Choice(l: nat, r: nat, j: nat)
    requires Pow2(j) <= Or(l, r)
    ensures Pow2(j) <= l || Pow2(j) <= r
    ensures And(Pow2(j), l) != 0 ==> Pow2(j) <= l
    ensures And(Pow2(j), r) != 0 ==> Pow2(j) <= r
    ensures Bit(l, j) <==> And(Pow2(j), l) != 0
    ensures Bit(r, j) <==> And(Pow2(j), r) != 0
    ensures Bit(Or(l, r), j) <==> Bit(l, j) || Bit(r, j)
  {
    OrBelow(l, r, j);
    TestBit(l, j);
    TestBit(r, j);
    OrBit(l, r, j);
    if Bit(l, j) { BitMeansLarge(l, j); }
    if Bit(r, j) { BitMeansLarge(r, j); }
  }

  /** What the allocator finds at node `b`. */
  lemma AtNode(h: nat, size: nat, v0: View, v: View, b: nat, j: nat)
    requires Descending(h, size, v0, v, b, j)
    ensures v.seg[b] <= Len(h, b) && (v.seg[b] == Len(h, b) <==> v.st[b] == Free)
    ensures v.st[b] == Split ==> 2 * b + 1 < |v.seg| && v.seg[b] == Or(v.seg[2 * b], v.seg[2 * b + 1])
    ensures v.seg[b] > 0 ==> v.st[b] == Split || v.st[b] == Free
  {
    NotAboveSelf(b);
    WordBound(h, v.st, v.seg, b, b);
    assert NodeShape(h, v.st, b) && WordOk(h, v.st, v.seg, b);
    if v.st[b] == Split { Children(h, b); NodeBound(h, 2 * b + 1); }
  }

  lemma NotAboveSelf(b: nat)
    requires b >= 1
    ensures !Above(b, b)
  {
    if Above(b, b) { AboveIsShallower(b, b); }
  }

  // ---------------------------------------------------------------- specification of the two operations

  /** `b` has been handed out of `v0`, giving `v`. */
  ghost predicate HandedOut(h: nat, v0: View, v: View, b: nat, length: nat) {
    && IsNode(h, b) && Len(h, b) == length
    && b in v.st && v.st[b] == Handed
    && HandedSet(v.st) == HandedSet(v0.st) + {b} && b !in HandedSet(v0.st)
    && (forall x :: x in v.st && v.st[x] == Hole <==> x in v0.st && v0.st[x] == Hole)
    && (forall p :: PageFree(h, v.st, p) <==> PageFree(h, v0.st, p) && !PageIn(h, b, p))
    && (forall p :: PageIn(h, b, p) ==> PageFree(h, v0.st, p))
    && v.nr + length == v0.nr
  }

  /** `b` has been given back to `v0`, giving `v`. */
  ghost predicate GivenBack(h: nat, v0: View, v: View, b: nat) {
    && IsNode(h, b)
    && HandedSet(v.st) == HandedSet(v0.st) - {b} && b in HandedSet(v0.st)
    && (forall x :: x in v.st && v.st[x] == Hole <==> x in v0.st && v0.st[x] == Hole)
    && (forall p :: PageFree(h, v.st, p) <==> PageFree(h, v0.st, p) || PageIn(h, b, p))
    && v.nr == v0.nr + Len(h, b)
  }

  /** Freeing right after allocating restores the tree, hence the free blocks, exactly. */
  lemma FreeUndoesAlloc(h: nat, size: nat, v0: View, v1: View, v2: View, b: nat, length: nat)
    requires Valid(h, size, v0) && Valid(h, size, v2) && HandedOut(h, v0, v1, b, length) && GivenBack(h, v1, v2, b)
    ensures v2.st == v0.st && v2.nr == v0.nr
  {
    assert HandedSet(v2.st) == HandedSet(v0.st);
    forall x | Taken(v0.st, x) || Taken(v2.st, x) ensures Taken(v0.st, x) && Taken(v2.st, x) && v0.st[x] == v2.st[x] {
      assert x in HandedSet(v0.st) <==> x in HandedSet(v2.st);
    }
    Canonical(h, v0.st, v2.st);
  }

  /** A handed-out block shares no page with any other handed-out block. */
  lemma HandedDisjoint(h: nat, size: nat, v: View, a: nat, b: nat)
    requires Valid(h, size, v) && a in HandedSet(v.st) && b in HandedSet(v.st) && a != b
    ensures IsNode(h, a) && IsNode(h, b) && Apart(h, a, b)
  {
    LeavesApart(h, v.st, a, b);
  }

  /** nr_free is zero exactly when no block is free. */
  lemma NothingFree(h: nat, size: nat, v: View)
    requires Valid(h, size, v)
    ensures v.nr == 0 <==> !exists b :: FreeNode(h, v.st, b)
  {
    if b :| FreeNode(h, v.st, b) { FreeRange(h, size, v, b); }
    if v.nr != 0 {
      assert v.list != [];
      assert v.list[0] in v.list;
      assert StartsFree(h, v.st, v.list[0]);
    }
  }

  lemma HandOutFinish(h: nat, size: nat, v0: View, v: View, b: nat, j: nat)
    requires Valid(h, size, v0) && Descending(h, size, v0, v, b, j) && FreeNode(h, v.st, b) && Len(h, b) == Pow2(j)
    ensures v.nr >= Len(h, b)
    ensures var v' := HandOutView(h, v, b);
      Core(h, size, v') && Words(h, v'.st, v'.seg, b) && MergedExcept(v'.st, 0)
      && Conserved(h, size, v') && HandedOut(h, v0, v', b, Pow2(j))
  {
    FreeRange(h, size, v, b);
    var v' := HandOutView(h, v, b);
    HandOutCore(h, size, v, b);
    RestatusWords(h, v.st, v.seg, b, Handed, 0);
    HandOutMerged(h, v.st, b);
    HandOutConserves(h, size, v0, v', b);
    forall p
      ensures PageFree(h, v'.st, p) <==> PageFree(h, v0.st, p) && !PageIn(h, b, p)
      ensures PageIn(h, b, p) ==> PageFree(h, v0.st, p)
    {
      HandOutPages(h, v.st, b, p);
      assert PageIn(h, b, p) ==> PageFree(h, v.st, p);
    }
    forall x ensures x in v'.st && v'.st[x] == Hole <==> x in v0.st && v0.st[x] == Hole {
      assert Taken(v0.st, x) <==> Taken(v.st, x);
    }
  }

  // ---------------------------------------------------------------- the ascent of buddy_free_pages, on values

  /** Block `r`, taken back in `v0`, has been merged and updated up to node `c`. */
  ghost predicate Ascending(h: nat, size: nat, v0: View, v: View, r: nat, c: nat) {
    && Core(h, size, v)
    && IsNode(h, c) && c in v.st && c < |v.seg| == |v0.seg|
    && Words(h, v.st, v.seg, c)
    && MergedExcept(v.st, c / 2)
    && GivenBack(h, v0, v, r)
  }

  lemma AscendStart(h: nat, size: nat, v0: View, b: nat)
    requires Valid(h, size, v0) && IsNode(h, b) && b in v0.st && v0.st[b] == Handed
    ensures b < |v0.seg| && Begin(h, b) + Len(h, b) <= size
    ensures Ascending(h, size, v0, ReleaseView(h, v0, b), b, b)
  {
    NodeBound(h, b);
    assert NodeShape(h, v0.st, b);
    var v := ReleaseView(h, v0, b);
    ReleaseCore(h, size, v0, b);
    assert Words(h, v0.st, v0.seg, b) by {
      forall x | x in v0.st && NodeShape(h, v0.st, x) && !Above(x, b) ensures WordOk(h, v0.st, v0.seg, x) {
        assert !Above(x, 1);
      }
    }
    RestatusWords(h, v0.st, v0.seg, b, Free, Len(h, b));
    ReleaseMerged(v0.st, b);
    forall p ensures PageFree(h, v.st, p) <==> PageFree(h, v0.st, p) || PageIn(h, b, p) {
      ReleasePages(h, v0.st, b, p);
    }
  }

  lemma HeadProperty(h: nat, size: nat, v: View, b: nat)
    requires Core(h, size, v) && FreeNode(h, v.st, b)
    ensures Begin(h, b) < |v.prop| && v.prop[Begin(h, b)] == Len(h, b)
  {
  }

  /** BUDDY_EMPTY tells the truth about both children of the parent of `c`. */
  lemma EmptyTest(h: nat, size: nat, v0: View, v: View, r: nat, c: nat)
    requires Ascending(h, size, v0, v, r, c) && c > 1
    ensures var p := c / 2;
      && IsNode(h, p) && p in v.st && v.st[p] == Split && Level(p) < h && 2 * p + 1 < |v.seg|
      && IsNode(h, 2 * p) && IsNode(h, 2 * p + 1) && 2 * p in v.st && 2 * p + 1 in v.st
      && (v.seg[2 * p] == Len(h, 2 * p) <==> v.st[2 * p] == Free)
      && (v.seg[2 * p + 1] == Len(h, 2 * p + 1) <==> v.st[2 * p + 1] == Free)
  {
    hide FreeList, Within, MergedExcept, GivenBack, Total;
    var p := c / 2;
    assert NodeShape(h, v.st, c) && NodeShape(h, v.st, p);
    Children(h, p);
    NodeBound(h, 2 * p + 1);
    if Above(2 * p, c) { AboveIsShallower(2 * p, c); }
    if Above(2 * p + 1, c) { AboveIsShallower(2 * p + 1, c); }
    WordBound(h, v.st, v.seg, c, 2 * p);
    WordBound(h, v.st, v.seg, c, 2 * p + 1);
  }

  lemma AscendMerge(h: nat, size: nat, v0: View, v: View, r: nat, c: nat)
    requires Ascending(h, size, v0, v, r, c) && c > 1
    requires FreeNode(h, v.st, 2 * (c / 2)) && FreeNode(h, v.st, 2 * (c / 2) + 1)
    ensures var p := c / 2;
      IsNode(h, p) && Level(p) < h && p < |v.seg| && Begin(h, p) < size
        && Ascending(h, size, v0, MergeView(h, v, p), r, p)
  {
    hide FreeList, Within, Total, Words, MergedExcept, GivenBack, Begin, Level, Pow2;
    var p := c / 2;
    EmptyTest(h, size, v0, v, r, c);
    Children(h, p);
    FreeRange(h, size, v, 2 * p);
    MergeCore(h, size, v, p);
    MergeWords(h, v.st, v.seg, p, c);
    MergeMerged(h, v.st, p);
    MergeGivenBack(h, v0, v, MergeView(h, v, p), r, p);
  }

  lemma MergeGivenBack(h: nat, v0: View, v: View, v': View, r: nat, p: nat)
    requires Shape(h, v.st) && p in v.st && v.st[p] == Split && FreeNode(h, v.st, 2 * p) && FreeNode(h, v.st, 2 * p + 1)
    requires v'.st == MergeTree(v.st, p) && HandedSet(v'.st) == HandedSet(v.st) && v'.nr == v.nr
    requires GivenBack(h, v0, v, r)
    ensures GivenBack(h, v0, v', r)
  {
    forall q ensures PageFree(h, v'.st, q) <==> PageFree(h, v.st, q) {
      MergePages(h, v.st, p, q);
    }
    assert forall x :: x in v'.st && v'.st[x] == Hole <==> x in v.st && v.st[x] == Hole;
  }

  ghost function UpdateView(v: View, p: nat): View
    requires 2 * p + 1 < |v.seg|
  {
    v.(seg := v.seg[p := Or(v.seg[2 * p], v.seg[2 * p + 1])])
  }

  lemma AscendUpdate(h: nat, size: nat, v0: View, v: View, r: nat, c: nat)
    requires Ascending(h, size, v0, v, r, c) && c > 1
    requires !(FreeNode(h, v.st, 2 * (c / 2)) && FreeNode(h, v.st, 2 * (c / 2) + 1))
    ensures var p := c / 2; 2 * p + 1 < |v.seg| && Ascending(h, size, v0, UpdateView(v, p), r, p)
  {
    hide FreeList, Within, Total, Shape, Words;
    var p := c / 2;
    EmptyTest(h, size, v0, v, r, c);
    AscendWords(h, v.st, v.seg, c);
    assert NotBothFree(v.st, p);
  }

  // ---------------------------------------------------------------- the allocator

  class Buddy {
    var virtualSize: nat
    var segment: array<nat>       // buddy_segment
    var property: array<nat>      // buddy_alloc[..].property
    var freeList: seq<nat>        // offsets into buddy_alloc
    var nrFree: nat
    ghost var height: nat
    ghost var status: Tree

    ghost function Snapshot(): View
      reads this, segment, property
    {
      View(status, segment[..], property[..], freeList, nrFree)
    }

    ghost predicate Sized()
      reads this, segment, property
    {
      height < 31 && virtualSize == Pow2(height) && segment != property
    }

    ghost predicate Ok()
      reads this, segment, property
    {
      Sized() && Valid(height, property.Length, Snapshot())
    }

    /** buddy_init and buddy_init_memmap over `n` pages. */
    constructor (n: nat)
      requires 1 < n < WORD / 8
      ensures Ok() && fresh(segment) && fresh(property)
      ensures virtualSize == InitSize(n).virtual && property.Length == InitSize(n).alloc == nrFree
      ensures segment.Length * 4 == InitSize(n).segment * PGSIZE
      ensures HandedSet(status) == {}
      ensures forall p: nat :: PageFree(height, status, p) <==> p < property.Length
    {
      ghost var h := InitSizeFits(n);
      var s := InitSize(n);
      virtualSize := s.virtual;
      height := h;
      segment := new nat[s.segment * 1024](_ => 0);
      property := new nat[s.alloc](_ => 0);
      freeList := [];
      nrFree := s.alloc;
      status := map[1 := Hole];
      new;
      NodeBound(h, 1);
      segment[1] := s.alloc;
      InitSegment();
    }

    /** The loop of buddy_init_segment. */
    method InitSegment()
      requires Sized() && 0 < property.Length == nrFree <= virtualSize && segment.Length >= 2 * virtualSize
      requires freeList == [] && status == map[1 := Hole] && 1 < segment.Length && segment[1] == property.Length
      modifies this, segment, property
      ensures segment == old(segment) && property == old(property) && height == old(height)
      ensures virtualSize == old(virtualSize)
      ensures nrFree == old(nrFree) && Ok() && HandedSet(status) == {}
      ensures forall p: nat :: PageFree(height, status, p) <==> p < property.Length
    {
      hide MacroLength, MacroBegin, MacroEnd, RoundDown, Begin;
      var block: nat, allocSize: nat, length: nat := 1, property.Length, virtualSize;
      BuildStart(height, property.Length, segment[..], property[..]);
      while allocSize > 0 && allocSize < length
        invariant segment == old(segment) && property == old(property) && height == old(height)
        invariant virtualSize == old(virtualSize)
        invariant nrFree == old(nrFree) && Sized() && 0 < allocSize
        invariant Building(height, property.Length, Snapshot(), block, allocSize) && length == Len(height, block)
        decreases length
      {
        Dividing(height, property.Length, Snapshot(), block, allocSize);
        length := length / 2;
        block, allocSize := DivideOnce(block, allocSize, length);
      }
      BuildEnd(height, property.Length, Snapshot(), block);
      AddLast(block, allocSize);
    }

    /** One round of that loop. */
    method DivideOnce(block: nat, allocSize: nat, length: nat) returns (child: nat, rest: nat)
      requires Sized() && Building(height, property.Length, Snapshot(), block, allocSize)
      requires 0 < allocSize < Len(height, block)
      requires Level(block) < height && length == Pow2(height - Level(block) - 1)
      modifies this, segment, property
      ensures segment == old(segment) && property == old(property) && height == old(height)
      ensures virtualSize == old(virtualSize)
      ensures nrFree == old(nrFree) && Sized() && 0 < rest
      ensures Building(height, property.Length, Snapshot(), child, rest) && length == Len(height, child)
    {
      hide Building, MacroLength, MacroBegin, MacroEnd, RoundDown, Begin, Level, Pow2;
      Dividing(height, property.Length, Snapshot(), block, allocSize);
      Children(height, block);
      if allocSize > length {
        BuildRight(height, property.Length, Snapshot(), block, allocSize);
        AddLeft(block, allocSize, length);
        child, rest := 2 * block + 1, allocSize - length;
      } else {
        BuildLeft(height, property.Length, Snapshot(), block, allocSize);
        DropRight(block, allocSize);
        child, rest := 2 * block, allocSize;
      }
    }

    /** The last free block. */
    method AddLast(block: nat, allocSize: nat)
      requires Sized() && IsNode(height, block) && Begin(height, block) < property.Length
      requires allocSize == Len(height, block)
      modifies this, property
      ensures segment == old(segment) && property == old(property) && height == old(height)
      ensures virtualSize == old(virtualSize)
      ensures Snapshot() == FillLast(height, old(Snapshot()), block)
    {
      MacrosMeaning(height, block);
      var page := MacroBegin(virtualSize, block);
      property[page] := allocSize;
      freeList := [page] + freeList;
      status := status[block := Free];
    }

    /** More than half is left: the left half becomes a free block. */
    method AddLeft(block: nat, allocSize: nat, length: nat)
      requires Sized() && IsNode(height, block) && Level(block) < height && 2 * block + 1 < segment.Length
      requires Begin(height, block) < property.Length && length == Pow2(height - Level(block) - 1) <= allocSize
      modifies this, segment, property
      ensures segment == old(segment) && property == old(property) && height == old(height)
      ensures virtualSize == old(virtualSize)
      ensures Snapshot() == FillLeft(height, old(Snapshot()), block, allocSize)
    {
      MacrosMeaning(height, block);
      var page := MacroBegin(virtualSize, block);
      property[page] := length;
      freeList := [page] + freeList;
      segment[2 * block] := length;
      segment[2 * block + 1] := allocSize - length;
      status := DivideTree(status, block, Free);
    }

    /** At most half is left: the right half stays empty. */
    method DropRight(block: nat, allocSize: nat)
      requires Sized() && 2 * block + 1 < segment.Length
      modifies this, segment
      ensures segment == old(segment) && property == old(property) && height == old(height)
      ensures virtualSize == old(virtualSize)
      ensures Snapshot() == SkipRight(old(Snapshot()), block, allocSize)
    {
      segment[2 * block] := allocSize;
      segment[2 * block + 1] := 0;
      status := DivideTree(status, block, Hole);
    }

    /** The split of a wholly free block during the descent. */
    method SplitBlock(block: nat)
      requires Sized() && Core(height, property.Length, Snapshot()) && FreeNode(height, status, block)
      requires Level(block) < height
      requires 2 * block + 1 < segment.Length && Begin(height, block) + Len(height, block) <= property.Length
      requires segment[block] == Len(height, block)
      modifies this, segment, property
      ensures segment == old(segment) && property == old(property) && height == old(height) && Sized()
      ensures Snapshot() == SplitView(height, old(Snapshot()), block)
    {
      hide MacroLength, MacroBegin, MacroEnd, RoundDown, Begin, Level, Pow2;
      MacrosMeaning(height, block);
      Children(height, block);
      HeadProperty(height, property.Length, Snapshot(), block);
      var left, right := 2 * block, 2 * block + 1;
      var begin, end := MacroBegin(virtualSize, block), MacroEnd(virtualSize, block);
      var mid := (begin + end) / 2;
      ghost var half := Len(height, left);
      assert mid == begin + half;
      freeList := Remove<nat>(freeList, begin);
      HalveProperty(begin, mid, half);
      HalveWords(block, half);
      freeList := [begin] + freeList;
      freeList := [mid] + freeList;
      status := SplitTree(status, block);
    }

    method HalveProperty(begin: nat, mid: nat, ghost half: nat)
      requires begin < property.Length && mid < property.Length && property[begin] / 2 == half && segment != property
      modifies property
      ensures property[..] == old(property[..])[begin := half][mid := half]
    {
      property[begin] := property[begin] / 2;
      property[mid] := property[begin];
    }

    method HalveWords(block: nat, ghost half: nat)
      requires block > 0 && 2 * block + 1 < segment.Length && segment[block] / 2 == half
      modifies segment
      ensures segment[..] == old(segment[..])[2 * block := half][2 * block + 1 := half]
    {
      segment[2 * block] := segment[block] / 2;
      segment[2 * block + 1] := segment[block] / 2;
    }

    /** Where the descent goes from a split node: first to a child that has a block of just this length. */
    method ChooseChild(block: nat, length: nat, ghost v0: View, ghost j: nat) returns (child: nat)
      requires Sized() && Descending(height, property.Length, v0, Snapshot(), block, j)
      requires length == Pow2(j) <= segment[block] && status[block] == Split
      requires Valid(height, property.Length, v0) && Leftmost(height, v0, Snapshot(), block, j)
      ensures child == 2 * block || child == 2 * block + 1
      ensures Descending(height, property.Length, v0, Snapshot(), child, j)
      ensures Leftmost(height, v0, Snapshot(), child, j)
    {
      hide Leftmost, Valid;
      AtNode(height, property.Length, v0, Snapshot(), block, j);
      var left, right := 2 * block, 2 * block + 1;
      Choice(segment[left], segment[right], j);
      if And(length, segment[left]) != 0 {
        child := left;
      } else if And(length, segment[right]) != 0 {
        child := right;
      } else if length <= segment[left] {
        child := left;
      } else {
        assert length <= segment[right];  // so the assert(0) of the source is never reached
        child := right;
      }
      DescendChild(height, property.Length, v0, Snapshot(), block, child, j);
      LeftmostChild(height, property.Length, v0, Snapshot(), block, child, j);
    }

    /** One round of the descent. */
    method DescendOnce(block: nat, length: nat, ghost v0: View, ghost j: nat) returns (child: nat)
      requires Sized() && Descending(height, property.Length, v0, Snapshot(), block, j)
      requires length == Pow2(j) <= segment[block] && length < Len(height, block)
      requires Valid(height, property.Length, v0) && Leftmost(height, v0, Snapshot(), block, j)
      modifies this, segment, property
      ensures segment == old(segment) && property == old(property) && height == old(height) && Sized()
      ensures child == 2 * block || child == 2 * block + 1
      ensures Descending(height, property.Length, v0, Snapshot(), child, j)
      ensures Leftmost(height, v0, Snapshot(), child, j)
    {
      hide Leftmost, Valid;
      AtNode(height, property.Length, v0, Snapshot(), block, j);
      MacrosMeaning(height, block);
      if segment[block] == MacroLength(virtualSize, block) {
        DescendSplit(height, property.Length, v0, Snapshot(), block, j);
        LeftmostSplit(height, property.Length, v0, Snapshot(), block, j);
        SplitBlock(block);
        child := 2 * block;
      } else {
        child := ChooseChild(block, length, v0, j);
      }
    }

    /** The first loop of buddy_alloc_pages. */
    method FindBlock(length: nat, ghost j: nat) returns (block: nat)
      requires Ok() && length == Pow2(j)
      modifies this, segment, property
      ensures segment == old(segment) && property == old(property) && height == old(height) && Sized()
      ensures Descending(height, property.Length, old(Snapshot()), Snapshot(), block, j)
      ensures length > segment[block] ==> block == 1
      ensures length <= segment[block] ==> FreeNode(height, status, block) && Len(height, block) == length
      ensures Leftmost(height, old(Snapshot()), Snapshot(), block, j)
    {
      hide MacroLength, MacroBegin, MacroEnd, RoundDown, Begin, Level, Pow2, Leftmost;
      ghost var v0 := Snapshot();
      block := 1;
      DescendStart(height, property.Length, v0, j);
      LeftmostStart(height, v0, j);
      MacrosMeaning(height, block);
      while length <= segment[block] && length < MacroLength(virtualSize, block)
        invariant segment == old(segment) && property == old(property) && height == old(height) && Sized()
        invariant Descending(height, property.Length, v0, Snapshot(), block, j)
        invariant Leftmost(height, v0, Snapshot(), block, j)
        invariant RoundDown(block) != 0 && MacroLength(virtualSize, block) == Len(height, block)
        decreases height - Level(block)
      {
        DescendLevels(height, property.Length, v0, Snapshot(), block, j);
        block := DescendOnce(block, length, v0, j);
        MacrosMeaning(height, block);
      }
      AtNode(height, property.Length, v0, Snapshot(), block, j);
    }

    /** The second loop of buddy_alloc_pages: recompute the words of the ancestors. */
    method RefreshAncestors(from: nat)
      requires Sized() && Core(height, property.Length, Snapshot()) && IsNode(height, from) && from in status
      requires Words(height, status, segment[..], from)
      modifies segment
      ensures Snapshot() == old(Snapshot()).(seg := segment[..]) && Sized()
      ensures Core(height, property.Length, Snapshot()) && Words(height, status, segment[..], 1)
    {
      var block: nat := from;
      while block != 1
        invariant Snapshot() == old(Snapshot()).(seg := segment[..]) && Sized()
        invariant IsNode(height, block) && block in status
        invariant Words(height, status, segment[..], block)
        decreases block
      {
        ghost var seg := segment[..];
        ParentIndex(height, status, segment.Length, block);
        AscendWords(height, status, seg, block);
        block := block / 2;
        segment[block] := Or(segment[2 * block], segment[2 * block + 1]);
        assert segment[..] == seg[block := Or(seg[2 * block], seg[2 * block + 1])];
      }
    }

    /** Unlink a free block and mark it as handed out. */
    method TakeBlock(block: nat, length: nat)
      requires Sized() && Core(height, property.Length, Snapshot()) && FreeNode(height, status, block)
      requires length == Len(height, block) && block < segment.Length && nrFree >= length
      modifies this, segment
      ensures segment == old(segment) && property == old(property) && height == old(height) && Sized()
      ensures Snapshot() == HandOutView(height, old(Snapshot()), block)
    {
      MacrosMeaning(height, block);
      freeList := Remove<nat>(freeList, MacroBegin(virtualSize, block));
      segment[block] := 0;
      nrFree := nrFree - length;
      status := status[block := Handed];
    }

    /** buddy_alloc_pages */
    method AllocPages(n: nat) returns (page: Option<nat>)
      requires Ok() && 0 < n <= WORD / 2
      modifies this, segment, property
      ensures Ok() && segment == old(segment) && property == old(property) && height == old(height)
      ensures AllocSpec(height, property.Length, old(Snapshot()), Snapshot(), RoundUp(n), page)
    {
      hide MacroLength, MacroBegin, MacroEnd, RoundDown, Begin, Level, Pow2, RoundUp, Core, Words, MergedExcept,
        HandedOut, AllocSpec, Leftmost, LowestServing;
      ghost var h, size, v0 := height, property.Length, Snapshot();
      ghost var j := RoundUpMeaning(n);
      var length := RoundUp(n);
      var block := FindBlock(length, j);
      ghost var v := Snapshot();
      if length > segment[block] {
        AllocFails(h, size, v0, j);
        return None;
      }
      HandOutFinish(h, size, v0, v, block, j);
      LeftmostEnd(h, v0, v, block, j);
      TakeBlock(block, length);
      RefreshAncestors(block);
      MacrosMeaning(height, block);
      page := Some(MacroBegin(virtualSize, block));
      AllocSucceeds(h, size, v0, v, Snapshot(), block, j);
    }

    /** Put a block that comes back on the free list. */
    method ReleaseBlock(block: nat, base: nat, length: nat)
      requires Sized() && IsNode(height, block) && block < segment.Length
      requires Begin(height, block) == base < property.Length && Len(height, block) == length
      modifies this, segment, property
      ensures segment == old(segment) && property == old(property) && height == old(height) && Sized()
      ensures Snapshot() == ReleaseView(height, old(Snapshot()), block)
    {
      property[base] := length;
      freeList := [base] + freeList;
      nrFree := nrFree + length;
      segment[block] := length;
      status := status[block := Free];
    }

    /** One round of the update-and-merge loop of buddy_free_pages. */
    method MergeUp(child: nat, ghost v0: View, ghost given: nat)
      requires Sized() && Ascending(height, property.Length, v0, Snapshot(), given, child) && child > 1
      modifies this, segment, property
      ensures segment == old(segment) && property == old(property) && height == old(height) && Sized()
      ensures Ascending(height, property.Length, v0, Snapshot(), given, child / 2)
    {
      hide FreeList, Within, Total, Words, MergedExcept, GivenBack, MacroLength, MacroBegin, MacroEnd, RoundDown,
        Begin, Level, Pow2;
      ghost var v := Snapshot();
      EmptyTest(height, property.Length, v0, v, given, child);
      var block := child / 2;
      var left, right := 2 * block, 2 * block + 1;
      MacrosMeaning(height, left);
      MacrosMeaning(height, right);
      if segment[left] == MacroLength(virtualSize, left) && segment[right] == MacroLength(virtualSize, right) {
        AscendMerge(height, property.Length, v0, v, given, child);
        MergeBlocks(block);
      } else {
        AscendUpdate(height, property.Length, v0, v, given, child);
        segment[block] := Or(segment[left], segment[right]);
        assert Snapshot() == UpdateView(v, block);
      }
    }

    /** buddy_free_pages, called with a page and a count that an allocation was made with. */
    method FreePages(base: nat, n: nat, ghost given: nat)
      requires Ok() && 0 < n <= WORD / 2
      requires IsAllocation(height, Snapshot(), given, base, RoundUp(n))
      modifies this, segment, property
      ensures Ok() && segment == old(segment) && property == old(property) && height == old(height)
      ensures GivenBack(height, old(Snapshot()), Snapshot(), given)
    {
      ghost var v0 := Snapshot();
      var length := RoundUp(n);
      BlockMeaning(height, given);
      var block: nat := MacroBlock(virtualSize, base, base + length);
      AscendStart(height, property.Length, v0, block);
      ReleaseBlock(block, base, length);
      while block != 1
        invariant segment == old(segment) && property == old(property) && height == old(height) && Sized()
        invariant Ascending(height, property.Length, v0, Snapshot(), given, block)
        decreases block
      {
        MergeUp(block, v0, given);
        block := block / 2;
      }
      Finished(height, property.Length, v0, Snapshot(), given);
    }

    /** The merge of two free buddies. */
    method MergeBlocks(block: nat)
      requires Sized() && Core(height, property.Length, Snapshot())
      requires IsNode(height, block) && Level(block) < height && 2 * block + 1 < segment.Length
      requires Begin(height, block) < property.Length
      requires IsNode(height, 2 * block) && segment[2 * block] == Len(height, 2 * block)
      modifies this, segment, property
      ensures segment == old(segment) && property == old(property) && height == old(height) && Sized()
      ensures Snapshot() == MergeView(height, old(Snapshot()), block)
    {
      hide MacroLength, MacroBegin, MacroEnd, RoundDown, Begin, Level, Pow2;
      Children(height, block);
      var left, right := 2 * block, 2 * block + 1;
      MacrosMeaning(height, left);
      MacrosMeaning(height, right);
      var lbegin, rbegin := MacroBegin(virtualSize, left), MacroBegin(virtualSize, right);
      freeList := Remove<nat>(freeList, lbegin);
      freeList := Remove<nat>(freeList, rbegin);
      segment[block] := segment[left] * 2;
      property[lbegin] := segment[left] * 2;
      freeList := [lbegin] + freeList;
      status := MergeTree(status, block);
    }
  }

  /** `b` is a handed-out block of `length` pages that starts at page `base`. */
  ghost predicate IsAllocation(h: nat, v: View, b: nat, base: nat, length: nat) {
    b in HandedSet(v.st) && IsNode(h, b) && Begin(h, b) == base && Len(h, b) == length
  }

  /**
    What an allocation of `length` pages -- a power of two -- promises: it fails exactly when no free block is long
    enough, and then changes nothing; otherwise it hands out an aligned block, taken from the lowest free block of
    just that length, without splitting anything, or if there is none from the beginning of the lowest longer one.
  */
  ghost predicate AllocSpec(h: nat, size: nat, v0: View, v: View, length: nat, page: Option<nat>) {
    && length > 0
    && (page == None <==> !FreeAtLeast(h, v0.st, length))
    && (page == None ==> v == v0)
    && (page.Some? ==> exists b :: AllocatedAt(h, size, v0, v, length, page.value, b))
  }

  ghost predicate AllocatedAt(h: nat, size: nat, v0: View, v: View, length: nat, page: nat, b: nat)
    requires length > 0
  {
    && HandedOut(h, v0, v, b, length)
    && IsAllocation(h, v, b, page, length)
    && page % length == 0
    && page + length <= size
    && (FreeExactly(h, v0.st, length) ==> v.st == v0.st[b := Handed])
    && LowestServing(h, v0.st, length, page)
  }

  lemma AllocFails(h: nat, size: nat, v0: View, j: nat)
    requires Valid(h, size, v0) && 1 < |v0.seg| && Pow2(j) > v0.seg[1]
    ensures AllocSpec(h, size, v0, v0, Pow2(j), None)
  {
    RootWord(h, v0.st, v0.seg, j);
  }

  lemma AllocSucceeds(h: nat, size: nat, v0: View, v: View, v': View, b: nat, j: nat)
    requires Valid(h, size, v0) && Descending(h, size, v0, v, b, j) && FreeNode(h, v.st, b)
    requires Len(h, b) == Pow2(j) <= v.seg[b]
    requires v.nr >= Len(h, b) && v' == HandOutView(h, v, b).(seg := v'.seg)
    requires HandedOut(h, v0, HandOutView(h, v, b), b, Pow2(j)) && LowestServing(h, v0.st, Pow2(j), Begin(h, b))
    ensures AllocSpec(h, size, v0, v', Pow2(j), Some(Begin(h, b)))
  {
    hide LowestServing;
    RootWord(h, v0.st, v0.seg, j);
    RootBit(h, v0.st, v0.seg, j);
    FreeRange(h, size, v, b);
    NodeAligned(h, b);
    assert AllocatedAt(h, size, v0, v', Pow2(j), Begin(h, b), b);
  }

  lemma ParentIndex(h: nat, st: Tree, n: nat, c: nat)
    requires Shape(h, st) && c in st && IsNode(h, c) && c > 1 && n >= 2 * Pow2(h)
    ensures IsNode(h, c / 2) && c / 2 in st && 2 * (c / 2) + 1 < n
  {
    assert NodeShape(h, st, c) && NodeShape(h, st, c / 2);
    Children(h, c / 2);
    NodeBound(h, 2 * (c / 2) + 1);
  }

  lemma Finished(h: nat, size: nat, v0: View, v: View, r: nat)
    requires Valid(h, size, v0) && Ascending(h, size, v0, v, r, 1)
    ensures Valid(h, size, v)
  {
    ReleaseConserves(h, size, v0, v, r);
  }
}
