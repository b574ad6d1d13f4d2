/**
  The meaning of the buddy allocator's word array.

  A node of the tree is live if all its ancestors are split.  A live node is split, wholly free,
  handed out, or a hole behind the end of memory.  Only the words of live nodes mean anything: below a free or
  handed-out node they are stale.
*/
module BuddyTree {
  import opened Bits
  import opened BuddyArithmetic

  datatype Status = Split | Free | Handed | Hole

  type Tree = map<nat, Status>

  // ---------------------------------------------------------------- shape

  ghost predicate NodeShape(h: nat, st: Tree, b: nat)
    requires b in st
  {
    && IsNode(h, b)
    && (b > 1 ==> b / 2 in st && st[b / 2] == Split)
    && (st[b] == Split ==> Level(b) < h && 2 * b in st && 2 * b + 1 in st)
  }

  ghost predicate Shape(h: nat, st: Tree) {
    1 in st && forall b {:trigger NodeShape(h, st, b)} :: b in st ==> NodeShape(h, st, b)
  }

  /** Free and handed-out nodes lie below the end of memory. */
  ghost predicate Within(h: nat, st: Tree, size: nat)
    requires Shape(h, st)
  {
    forall b {:trigger NodeShape(h, st, b)} ::
      b in st && NodeShape(h, st, b) && (st[b] == Free || st[b] == Handed) ==> Begin(h, b) + Len(h, b) <= size
  }

  ghost predicate NotBothFree(st: Tree, b: nat) {
    !(2 * b in st && 2 * b + 1 in st && st[2 * b] == Free && st[2 * b + 1] == Free)
  }

  /** No two free buddies side by side, except under node `c`. */
  ghost predicate MergedExcept(st: Tree, c: nat) {
    forall b {:trigger NotBothFree(st, b)} :: b in st && st[b] == Split && b != c ==> NotBothFree(st, b)
  }

  /** The same, except under the proper ancestors of `c`. */
  ghost predicate MergedBelow(st: Tree, c: nat)
    requires c >= 1
  {
    forall b {:trigger NotBothFree(st, b)} :: b in st && st[b] == Split && !Above(b, c) ==> NotBothFree(st, b)
  }

  lemma {:induction false} AncestorsAreSplit(h: nat, st: Tree, a: nat, b: nat)
    requires Shape(h, st) && b in st && b >= 1 && Above(a, b)
    ensures a in st && st[a] == Split
    decreases b
  {
    assert NodeShape(h, st, b);
    if a != b / 2 { AncestorsAreSplit(h, st, a, b / 2); }
  }

  /** Distinct live nodes that are not split have no page in common. */
  lemma LeavesApart(h: nat, st: Tree, a: nat, b: nat)
    requires Shape(h, st) && a in st && b in st && a != b && st[a] != Split && st[b] != Split
    ensures IsNode(h, a) && IsNode(h, b) && Apart(h, a, b)
  {
    assert NodeShape(h, st, a) && NodeShape(h, st, b);
    if Above(a, b) { AncestorsAreSplit(h, st, a, b); }
    if Above(b, a) { AncestorsAreSplit(h, st, b, a); }
    if Level(a) <= Level(b) { NestedOrApart(h, a, b); } else { NestedOrApart(h, b, a); }
  }

  // ---------------------------------------------------------------- words

  ghost predicate WordOk(h: nat, st: Tree, seg: seq<nat>, b: nat)
    requires b in st && IsNode(h, b) && |seg| >= 2 * Pow2(h) && (st[b] == Split ==> Level(b) < h)
  {
    NodeBound(h, b);
    match st[b]
    case Split => NodeBound(h, 2 * b); NodeBound(h, 2 * b + 1); seg[b] == Or(seg[2 * b], seg[2 * b + 1])
    case Free => seg[b] == Len(h, b)
    case Handed => seg[b] == 0
    case Hole => seg[b] == 0
  }

  /** The words of all live nodes are right, except perhaps those of the proper ancestors of `c`. */
  ghost predicate Words(h: nat, st: Tree, seg: seq<nat>, c: nat)
    requires Shape(h, st) && c >= 1 && |seg| >= 2 * Pow2(h)
  {
    forall b {:trigger WordOk(h, st, seg, b)} ::
      b in st && NodeShape(h, st, b) && !Above(b, c) ==> WordOk(h, st, seg, b)
  }

  lemma NotAboveChildren(b: nat, c: nat)
    requires b >= 1 && c >= 1 && !Above(b, c)
    ensures !Above(2 * b, c) && !Above(2 * b + 1, c)
  {
    if Above(2 * b, c) || Above(2 * b + 1, c) { AboveFromChild(b, c); }
  }

  /** A word never exceeds the node's length, and reaches it only when the node is wholly free. */
  lemma {:induction false} WordBound(h: nat, st: Tree, seg: seq<nat>, c: nat, b: nat)
    requires Shape(h, st) && c >= 1 && |seg| >= 2 * Pow2(h) && Words(h, st, seg, c)
    requires b in st && IsNode(h, b) && !Above(b, c)
    ensures b < |seg|
    ensures seg[b] <= Len(h, b)
    ensures seg[b] == Len(h, b) <==> st[b] == Free
    decreases h - Level(b)
  {
    assert NodeShape(h, st, b);
    NodeBound(h, b);
    assert WordOk(h, st, seg, b);
    if st[b] == Split {
      Children(h, b);
      NotAboveChildren(b, c);
      WordBound(h, st, seg, c, 2 * b);
      WordBound(h, st, seg, c, 2 * b + 1);
      OrBelow(seg[2 * b], seg[2 * b + 1], h - Level(b));
    }
  }

  ghost predicate Under(b: nat, f: nat)
    requires f >= 1
  {
    f == b || Above(b, f)
  }

  lemma {:induction false} UnderChild(b: nat, f: nat)
    requires b >= 1 && f >= 1 && Above(b, f)
    ensures Under(2 * b, f) || Under(2 * b + 1, f)
    decreases f
  {
    if b != f / 2 { UnderChild(b, f / 2); }
  }

  /** Below node `b` lies a free node of exactly 2^j pages. */
  ghost predicate FreeOfSize(h: nat, st: Tree, b: nat, j: nat, f: nat) {
    f >= 1 && f in st && st[f] == Free && Under(b, f) && Level(f) + j == h
  }

  ghost predicate HasFree(h: nat, st: Tree, b: nat, j: nat) {
    exists f: nat :: FreeOfSize(h, st, b, j, f)
  }

  lemma LeafHasFree(h: nat, st: Tree, b: nat, j: nat)
    requires Shape(h, st) && b in st && IsNode(h, b) && st[b] != Split
    ensures HasFree(h, st, b, j) <==> st[b] == Free && Level(b) + j == h
  {
    assert NodeShape(h, st, b);
    if st[b] == Free && Level(b) + j == h { assert FreeOfSize(h, st, b, j, b); }
    if HasFree(h, st, b, j) {
      var f :| FreeOfSize(h, st, b, j, f);
      if f != b { AncestorsAreSplit(h, st, b, f); }
    }
  }

  lemma SplitHasFree(h: nat, st: Tree, b: nat, j: nat)
    requires Shape(h, st) && b in st && st[b] == Split
    ensures HasFree(h, st, b, j) <==> HasFree(h, st, 2 * b, j) || HasFree(h, st, 2 * b + 1, j)
  {
    assert NodeShape(h, st, b);
    if f :| FreeOfSize(h, st, b, j, f) {
      assert f != b;
      UnderChild(b, f);
      assert FreeOfSize(h, st, 2 * b, j, f) || FreeOfSize(h, st, 2 * b + 1, j, f);
    }
    var l, r := 2 * b, 2 * b + 1;
    if HasFree(h, st, l, j) {
      var f :| FreeOfSize(h, st, l, j, f);
      AboveFromChild(b, f);
      assert FreeOfSize(h, st, b, j, f);
    }
    if HasFree(h, st, r, j) {
      var f :| FreeOfSize(h, st, r, j, f);
      AboveFromChild(b, f);
      assert FreeOfSize(h, st, b, j, f);
    }
  }

  /** The meaning of a word: bit j is set exactly when a free block of 2^j pages lies below the node. */
  lemma {:induction false} WordMeaning(h: nat, st: Tree, seg: seq<nat>, b: nat, j: nat)
    requires Shape(h, st) && |seg| >= 2 * Pow2(h) && Words(h, st, seg, 1) && b in st && IsNode(h, b)
    ensures b < |seg| && (Bit(seg[b], j) <==> HasFree(h, st, b, j))
    decreases h - Level(b)
  {
    assert NodeShape(h, st, b);
    NodeBound(h, b);
    assert WordOk(h, st, seg, b);
    if st[b] == Split {
      Children(h, b);
      SplitHasFree(h, st, b, j);
      WordMeaning(h, st, seg, 2 * b, j);
      WordMeaning(h, st, seg, 2 * b + 1, j);
      OrBit(seg[2 * b], seg[2 * b + 1], j);
    } else {
      LeafHasFree(h, st, b, j);
      PowerBits(h - Level(b), j);
      ZeroHasNoBits(j);
    }
  }

  lemma {:induction false} EverythingUnderRoot(f: nat)
    requires f >= 1
    ensures Under(1, f)
  {
    if f > 1 { EverythingUnderRoot(f / 2); }
  }

  ghost predicate FreeNode(h: nat, st: Tree, b: nat) {
    IsNode(h, b) && b in st && st[b] == Free
  }

  /** A free block of at least `n` pages exists. */
  ghost predicate FreeAtLeast(h: nat, st: Tree, n: nat) {
    exists b :: FreeNode(h, st, b) && Len(h, b) >= n
  }

  ghost predicate FreeExactly(h: nat, st: Tree, n: nat) {
    exists b :: FreeNode(h, st, b) && Len(h, b) == n
  }

  /** A free block an allocation of `n` pages may be served from: one of just that length if there is one. */
  ghost predicate Serves(h: nat, st: Tree, n: nat, b: nat) {
    FreeNode(h, st, b) && if FreeExactly(h, st, n) then Len(h, b) == n else Len(h, b) >= n
  }

  /** Page `p` is where the lowest such block begins. */
  ghost predicate LowestServing(h: nat, st: Tree, n: nat, p: nat) {
    && (exists b :: Serves(h, st, n, b) && Begin(h, b) == p)
    && (forall b :: Serves(h, st, n, b) ==> p <= Begin(h, b))
  }

  /** The word of a node tells of every free block below it. */
  lemma WordReaches(h: nat, st: Tree, seg: seq<nat>, c: nat, f: nat)
    requires Shape(h, st) && |seg| >= 2 * Pow2(h) && Words(h, st, seg, 1) && c in st && IsNode(h, c)
    requires FreeNode(h, st, f) && Under(c, f)
    ensures c < |seg| && Len(h, f) <= seg[c] && Bit(seg[c], h - Level(f))
  {
    hide Words, Level, Bit;
    var k := h - Level(f);
    assert FreeOfSize(h, st, c, k, f);
    WordMeaning(h, st, seg, c, k);
    BitMeansLarge(seg[c], k);
  }

  /** A node below `b` begins no earlier than `b`. */
  lemma {:induction false} UnderBegins(h: nat, b: nat, f: nat)
    requires IsNode(h, b) && IsNode(h, f) && Under(b, f)
    ensures Begin(h, b) <= Begin(h, f)
    decreases f
  {
    if f != b {
      ParentHalves(h, f);
      UnderBegins(h, b, f / 2);
    }
  }

  /** What begins no earlier than a split node and is not in its left half begins no earlier than its right half. */
  lemma RightOfLeft(h: nat, st: Tree, b: nat, f: nat)
    requires Shape(h, st) && b in st && IsNode(h, b) && st[b] == Split
    requires FreeNode(h, st, f) && Begin(h, b) <= Begin(h, f) && !Under(2 * b, f)
    ensures IsNode(h, 2 * b + 1) && Begin(h, 2 * b + 1) <= Begin(h, f)
  {
    hide Level, Pow2, Begin;
    assert NodeShape(h, st, b);
    Children(h, b);
    if Above(b, f) {
      UnderChild(b, f);
      UnderBegins(h, 2 * b + 1, f);
    } else {
      if Above(f, b) { AncestorsAreSplit(h, st, f, b); }
      if Level(b) <= Level(f) { NestedOrApart(h, b, f); } else { NestedOrApart(h, f, b); }
    }
  }

  lemma RootFinds(h: nat, st: Tree, seg: seq<nat>, j: nat) returns (f: nat)
    requires Shape(h, st) && |seg| >= 2 * Pow2(h) > 1 && Words(h, st, seg, 1) && Pow2(j) <= seg[1]
    ensures FreeNode(h, st, f) && Len(h, f) >= Pow2(j)
  {
    var k := LargeHasHighBit(seg[1], j);
    WordMeaning(h, st, seg, 1, k);
    f :| FreeOfSize(h, st, 1, k, f);
    PowerMonotone(j, k);
    assert NodeShape(h, st, f);
  }

  lemma RootReaches(h: nat, st: Tree, seg: seq<nat>, f: nat)
    requires Shape(h, st) && |seg| >= 2 * Pow2(h) > 1 && Words(h, st, seg, 1) && FreeNode(h, st, f)
    ensures Len(h, f) <= seg[1]
  {
    var k := h - Level(f);
    EverythingUnderRoot(f);
    assert FreeOfSize(h, st, 1, k, f);
    WordMeaning(h, st, seg, 1, k);
    BitMeansLarge(seg[1], k);
  }

  /** The root's word reaches 2^j exactly when some free block has at least 2^j pages. */
  lemma RootWord(h: nat, st: Tree, seg: seq<nat>, j: nat)
    requires Shape(h, st) && |seg| >= 2 * Pow2(h) && Words(h, st, seg, 1)
    ensures 1 < |seg| && (Pow2(j) <= seg[1] <==> FreeAtLeast(h, st, Pow2(j)))
  {
    if Pow2(j) <= seg[1] {
      var f := RootFinds(h, st, seg, j);
    }
    if FreeAtLeast(h, st, Pow2(j)) {
      var f :| FreeNode(h, st, f) && Len(h, f) >= Pow2(j);
      RootReaches(h, st, seg, f);
    }
  }

  /** Its bit j is set exactly when some free block has exactly 2^j pages. */
  lemma RootBit(h: nat, st: Tree, seg: seq<nat>, j: nat)
    requires Shape(h, st) && |seg| >= 2 * Pow2(h) && Words(h, st, seg, 1)
    ensures 1 < |seg| && (Bit(seg[1], j) <==> FreeExactly(h, st, Pow2(j)))
  {
    hide Pow2, Level, Bit, Words;
    NodeBound(h, 1);
    WordMeaning(h, st, seg, 1, j);
    if Bit(seg[1], j) {
      var f :| FreeOfSize(h, st, 1, j, f);
      assert NodeShape(h, st, f);
      assert FreeNode(h, st, f);
    }
    if FreeExactly(h, st, Pow2(j)) {
      var b :| FreeNode(h, st, b) && Len(h, b) == Pow2(j);
      PowerInjective(h - Level(b), j);
      EverythingUnderRoot(b);
      assert FreeOfSize(h, st, 1, j, b);
    }
  }

  lemma PowerInjective(j: nat, k: nat)
    requires Pow2(j) == Pow2(k)
    ensures j == k
  {
    if j < k { PowerMonotone(j, k); }
    if k < j { PowerMonotone(k, j); }
  }

  // ---------------------------------------------------------------- the free blocks are determined by the rest

  /** A split node below which everything is free would contain two free buddies. */
  lemma {:induction false} SomethingTaken(h: nat, st: Tree, b: nat) returns (x: nat)
    requires Shape(h, st) && MergedExcept(st, 0) && b in st && IsNode(h, b) && st[b] != Free
    ensures x >= 1 && x in st && Under(b, x) && (st[x] == Handed || st[x] == Hole)
    decreases h - Level(b)
  {
    hide Level, Pow2, Begin, Len, Above;
    assert NodeShape(h, st, b);
    if st[b] == Split {
      Children(h, b);
      assert NotBothFree(st, b);
      if st[2 * b] != Free { x := SomethingTaken(h, st, 2 * b); } else { x := SomethingTaken(h, st, 2 * b + 1); }
      if x != b { AboveFromChild(b, x); }
    } else {
      x := b;
    }
  }

  ghost predicate Taken(st: Tree, b: nat) {
    b in st && (st[b] == Handed || st[b] == Hole)
  }

  ghost predicate SameTaken(st: Tree, st': Tree) {
    forall b :: (Taken(st, b) || Taken(st', b)) ==> Taken(st, b) && Taken(st', b) && st[b] == st'[b]
  }

  lemma {:induction false} CanonicalAt(h: nat, st: Tree, st': Tree, b: nat)
    requires Shape(h, st) && Shape(h, st') && MergedExcept(st, 0) && MergedExcept(st', 0) && SameTaken(st, st')
    requires b >= 1 && b in st
    ensures b in st' && st'[b] == st[b]
    decreases b
  {
    assert NodeShape(h, st, b);
    if b > 1 {
      CanonicalAt(h, st, st', b / 2);
      assert NodeShape(h, st', b / 2);
    }
    if st[b] == Free && st'[b] != Free {
      var x := SomethingTaken(h, st', b);
      assert Taken(st', x);
      if x != b { AncestorsAreSplit(h, st, b, x); }
    }
    if st'[b] == Free && st[b] != Free {
      var x := SomethingTaken(h, st, b);
      assert Taken(st, x);
      if x != b { AncestorsAreSplit(h, st', b, x); }
    }
    assert Taken(st, b) ==> Taken(st', b);
    assert Taken(st', b) ==> Taken(st, b);
  }

  /** The free blocks are a function of what is handed out: equal allocations, equal trees. */
  lemma Canonical(h: nat, st: Tree, st': Tree)
    requires Shape(h, st) && Shape(h, st') && MergedExcept(st, 0) && MergedExcept(st', 0) && SameTaken(st, st')
    ensures st == st'
  {
    forall b | b in st ensures b in st' && st'[b] == st[b] {
      assert NodeShape(h, st, b);
      CanonicalAt(h, st, st', b);
    }
    forall b | b in st' ensures b in st {
      assert NodeShape(h, st', b);
      assert SameTaken(st', st);
      CanonicalAt(h, st', st, b);
    }
  }
}
