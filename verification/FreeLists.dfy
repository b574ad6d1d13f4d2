/**
  Free lists of page blocks and the set of pages they stand for.  A list whose blocks neither overlap nor
  touch is determined by its set of pages: its members are the maximal runs of that set.
*/
module FreeLists {

  datatype Block = Block(base: nat, len: nat)

  function End(b: Block): nat {
    b.base + b.len
  }

  ghost function Range(base: nat, len: nat): set<nat> {
    set p: nat | base <= p < base + len && Within(p, base, len)
  }

  ghost predicate Within(p: nat, base: nat, len: nat) {
    base <= p < base + len
  }

  ghost function Pages(l: seq<Block>): set<nat> {
    if l == [] then {} else Range(l[0].base, l[0].len) + Pages(l[1..])
  }

  ghost function Heads(l: seq<Block>): set<nat> {
    set b | b in l :: b.base
  }

  /** The blocks neither overlap nor touch. */
  ghost predicate Apart(a: Block, b: Block) {
    End(a) < b.base || End(b) < a.base
  }

  ghost predicate Separate(l: seq<Block>) {
    && (forall i :: 0 <= i < |l| ==> l[i].len > 0)
    && forall i, j :: 0 <= i < j < |l| ==> Apart(l[i], l[j])
  }

  /** The blocks do not overlap. */
  ghost predicate Clear(a: Block, b: Block) {
    End(a) <= b.base || End(b) <= a.base
  }

  ghost predicate Loose(l: seq<Block>) {
    && (forall i :: 0 <= i < |l| ==> l[i].len > 0)
    && forall i, j :: 0 <= i < j < |l| ==> Clear(l[i], l[j])
  }

  lemma SeparateLoose(l: seq<Block>)
    requires Separate(l)
    ensures Loose(l)
  {
  }

  ghost predicate Sorted(l: seq<Block>) {
    forall i, j :: 0 <= i < j < |l| ==> l[i].base < l[j].base
  }

  /** The address-ordered list of maximal free runs. */
  ghost predicate Canonical(l: seq<Block>) {
    Separate(l) && Sorted(l)
  }

  ghost predicate AllApart(l: seq<Block>, b: Block) {
    forall i :: 0 <= i < |l| ==> Apart(l[i], b)
  }

  // ---------------------------------------------------------------- pages of a list

  lemma {:induction false} PageIn(l: seq<Block>, p: nat)
    ensures p in Pages(l) <==> exists i :: 0 <= i < |l| && l[i].base <= p < End(l[i])
  {
    if l != [] {
      PageIn(l[1..], p);
      if i :| 0 <= i < |l| && l[i].base <= p < End(l[i]) {
        assert i > 0 ==> l[1..][i - 1] == l[i];
      }
    }
  }

  lemma {:induction false} PagesConcat(l: seq<Block>, m: seq<Block>)
    ensures Pages(l + m) == Pages(l) + Pages(m)
  {
    if l == [] {
      assert l + m == m;
    } else {
      assert (l + m)[1..] == l[1..] + m;
      PagesConcat(l[1..], m);
    }
  }

  lemma PagesOne(b: Block)
    ensures Pages([b]) == Range(b.base, b.len)
  {
    assert Pages([b][1..]) == {};
  }

  /** A block's pages are those of the list at its place and of the rest. */
  lemma PagesSplit(l: seq<Block>, i: nat)
    requires i < |l|
    ensures Pages(l) == Pages(l[..i] + l[i + 1..]) + Range(l[i].base, l[i].len)
  {
    hide Range;
    assert Pages(l) == Pages(l[..i]) + Pages(l[i..]) by {
      assert l == l[..i] + l[i..];
      PagesConcat(l[..i], l[i..]);
    }
    assert Pages(l[i..]) == Range(l[i].base, l[i].len) + Pages(l[i + 1..]) by {
      assert l[i..][1..] == l[i + 1..];
    }
    PagesConcat(l[..i], l[i + 1..]);
  }

  lemma {:induction false} RangeSize(base: nat, len: nat)
    ensures |Range(base, len)| == len
  {
    if len > 0 {
      RangeSize(base, len - 1);
      assert Range(base, len) == Range(base, len - 1) + {base + len - 1};
    } else {
      assert Range(base, len) == {};
    }
  }

  lemma DisjointSize<T>(a: set<T>, b: set<T>)
    requires a !! b
    ensures |a + b| == |a| + |b|
  {
  }

  // ---------------------------------------------------------------- maximal runs

  /** `b` is a run of pages of `s` that cannot be extended on either side. */
  ghost predicate MaximalRun(s: set<nat>, b: Block) {
    && b.len > 0 && Range(b.base, b.len) <= s
    && End(b) !in s && (b.base > 0 ==> b.base - 1 !in s)
  }

  lemma OneMaximalRun(s: set<nat>, a: Block, b: Block, p: nat)
    requires MaximalRun(s, a) && MaximalRun(s, b) && a.base <= p < End(a) && b.base <= p < End(b)
    ensures a == b
  {
    assert a.base < b.base ==> b.base - 1 in Range(a.base, a.len);
    assert b.base < a.base ==> a.base - 1 in Range(b.base, b.len);
    assert End(a) < End(b) ==> End(a) in Range(b.base, b.len);
    assert End(b) < End(a) ==> End(b) in Range(a.base, a.len);
  }

  lemma MemberIsMaximal(l: seq<Block>, i: nat)
    requires Separate(l) && i < |l|
    ensures MaximalRun(Pages(l), l[i])
  {
    assert Range(l[i].base, l[i].len) <= Pages(l) by { PagesSplit(l, i); }
    assert End(l[i]) !in Pages(l) by { PageIn(l, End(l[i])); }
    if l[i].base > 0 {
      assert l[i].base - 1 !in Pages(l) by { PageIn(l, l[i].base - 1); }
    }
  }

  /** The list holds exactly the maximal runs of its pages. */
  lemma MembersAreMaximalRuns(l: seq<Block>, b: Block)
    requires Separate(l)
    ensures b in l <==> MaximalRun(Pages(l), b)
  {
    if b in l {
      var i :| 0 <= i < |l| && l[i] == b;
      MemberIsMaximal(l, i);
    }
    if MaximalRun(Pages(l), b) {
      assert b.base in Range(b.base, b.len);
      PageIn(l, b.base);
      var i :| 0 <= i < |l| && l[i].base <= b.base < End(l[i]);
      MemberIsMaximal(l, i);
      OneMaximalRun(Pages(l), l[i], b, b.base);
    }
  }

  /** A canonical list is determined by the set of free pages. */
  lemma CanonicalUnique(l: seq<Block>, m: seq<Block>)
    requires Canonical(l) && Canonical(m) && Pages(l) == Pages(m)
    ensures l == m
  {
    forall b ensures b in l <==> b in m {
      MembersAreMaximalRuns(l, b);
      MembersAreMaximalRuns(m, b);
    }
    SameSorted(l, m);
  }

  lemma {:induction false} SameSorted(l: seq<Block>, m: seq<Block>)
    requires Sorted(l) && Sorted(m) && forall b :: b in l <==> b in m
    ensures l == m
  {
    assert m != [] ==> m[0] in m;
    if l != [] {
      assert l[0] in m && m[0] in l;
      assert l[0] == m[0];
      forall b ensures b in l[1..] <==> b in m[1..] {
        TailMember(l, b);
        TailMember(m, b);
      }
      SameSorted(l[1..], m[1..]);
      assert l == [l[0]] + l[1..] && m == [m[0]] + m[1..];
    }
  }

  lemma TailMember(l: seq<Block>, b: Block)
    requires Sorted(l) && l != []
    ensures b in l[1..] <==> b in l && b != l[0]
  {
    assert forall i :: 1 <= i < |l| ==> l[0].base < l[i].base;
  }

  /** Consecutive free pages always lie in one block. */
  lemma RunInBlock(l: seq<Block>, q: nat, n: nat) returns (j: nat)
    requires Separate(l) && n > 0 && Range(q, n) <= Pages(l)
    ensures j < |l| && l[j].base <= q && q + n <= End(l[j])
  {
    assert q in Range(q, n);
    PageIn(l, q);
    j :| 0 <= j < |l| && l[j].base <= q < End(l[j]);
    MemberIsMaximal(l, j);
    var e := End(l[j]);
    assert q + n > e ==> e in Range(q, n);
  }

  /** If no block is long enough there are no `n` consecutive free pages. */
  lemma NoFit(l: seq<Block>, n: nat)
    requires Separate(l) && n > 0 && forall k :: 0 <= k < |l| ==> l[k].len < n
    ensures forall q: nat :: !(Range(q, n) <= Pages(l))
  {
    forall q: nat | Range(q, n) <= Pages(l) ensures false {
      var j := RunInBlock(l, q, n);
    }
  }

  // ---------------------------------------------------------------- editing lists

  lemma RemovedSeparate(l: seq<Block>, i: nat)
    requires Separate(l) && i < |l|
    ensures Separate(l[..i] + l[i + 1..]) && AllApart(l[..i] + l[i + 1..], l[i])
  {
    var m := l[..i] + l[i + 1..];
    assert forall k :: 0 <= k < |m| ==> m[k] == l[if k < i then k else k + 1];
  }

  lemma RemovedLoose(l: seq<Block>, i: nat)
    requires Loose(l) && i < |l|
    ensures Loose(l[..i] + l[i + 1..]) && forall b :: b in l[..i] + l[i + 1..] ==> Clear(b, l[i]) && b.len > 0
    ensures Sorted(l) ==> Sorted(l[..i] + l[i + 1..])
    ensures Range(l[i].base, l[i].len) !! Pages(l[..i] + l[i + 1..])
  {
    var m := l[..i] + l[i + 1..];
    assert forall k :: 0 <= k < |m| ==> m[k] == l[if k < i then k else k + 1];
    forall p | p in Range(l[i].base, l[i].len) ensures p !in Pages(m) {
      PageIn(m, p);
    }
  }

  lemma InsertedSeparate(l: seq<Block>, b: Block, i: nat)
    requires Separate(l) && AllApart(l, b) && b.len > 0 && i <= |l|
    ensures Separate(l[..i] + [b] + l[i..])
  {
    var m := l[..i] + [b] + l[i..];
    assert forall k :: 0 <= k < |m| ==> m[k] == if k < i then l[k] else if k == i then b else l[k - 1];
  }

  lemma InsertedPages(l: seq<Block>, b: Block, i: nat)
    requires i <= |l|
    ensures Pages(l[..i] + [b] + l[i..]) == Pages(l) + Range(b.base, b.len)
  {
    hide Pages, Range;
    var m := l[..i] + [b] + l[i..];
    PagesSplit(m, i);
    assert m[..i] + m[i + 1..] == l;
  }

  lemma InsertedSorted(l: seq<Block>, b: Block, i: nat)
    requires Sorted(l) && i <= |l|
    requires (forall k :: 0 <= k < i ==> l[k].base < b.base) && (i < |l| ==> b.base < l[i].base)
    ensures Sorted(l[..i] + [b] + l[i..])
  {
    var m := l[..i] + [b] + l[i..];
    assert forall k :: 0 <= k < |m| ==> m[k] == if k < i then l[k] else if k == i then b else l[k - 1];
    assert forall k :: i <= k < |l| ==> b.base < l[k].base;
  }

  /** A block apart from two blocks that touch is apart from their union. */
  lemma ApartFromUnion(l: seq<Block>, a: Block, b: Block)
    requires AllApart(l, a) && AllApart(l, b) && End(a) == b.base
    ensures AllApart(l, Block(a.base, a.len + b.len))
  {
  }

  lemma RangesJoin(a: Block, b: Block)
    requires End(a) == b.base
    ensures Range(a.base, a.len + b.len) == Range(a.base, a.len) + Range(b.base, b.len)
  {
  }

  lemma HeadsRemoved(l: seq<Block>, i: nat)
    requires Loose(l) && i < |l|
    ensures Heads(l[..i] + l[i + 1..]) == Heads(l) - {l[i].base}
  {
    var m := l[..i] + l[i + 1..];
    assert forall b :: b in l ==> b == l[i] || b in m;
    assert forall b :: b in m ==> b in l && b.base != l[i].base by { RemovedLoose(l, i); }
  }

  lemma HeadsInserted(l: seq<Block>, b: Block, i: nat)
    requires i <= |l|
    ensures Heads(l[..i] + [b] + l[i..]) == Heads(l) + {b.base}
  {
    var m := l[..i] + [b] + l[i..];
    assert forall c :: c in m <==> c in l || c == b by {
      assert l == l[..i] + l[i..];
    }
  }

  /** The list after the first `n` pages of block `i` are handed out; what is left of it goes to place `k`. */
  ghost function Carved(l: seq<Block>, i: nat, n: nat, k: nat): seq<Block>
    requires i < |l| && k < |l| && n <= l[i].len
  {
    var m := l[..i] + l[i + 1..];
    if l[i].len == n then m else m[..k] + [Block(l[i].base + n, l[i].len - n)] + m[k..]
  }

  /** Carving takes exactly those pages out of the set. */
  lemma CarvedPages(l: seq<Block>, i: nat, n: nat, k: nat)
    requires Loose(l) && i < |l| && k < |l| && 0 < n <= l[i].len
    ensures Range(l[i].base, n) <= Pages(l)
    ensures Pages(Carved(l, i, n, k)) == Pages(l) - Range(l[i].base, n)
  {
    hide Pages, Loose;
    var b, m := l[i], l[..i] + l[i + 1..];
    var gone, all := Range(b.base, n), Range(b.base, b.len);
    assert Pages(l) == Pages(m) + all && all !! Pages(m) by {
      RemovedLoose(l, i);
      PagesSplit(l, i);
    }
    if b.len != n {
      var rest := Block(b.base + n, b.len - n);
      var left := Range(rest.base, rest.len);
      assert all == gone + left && gone !! left by { RangesJoin(Block(b.base, n), rest); }
      assert Pages(Carved(l, i, n, k)) == Pages(m) + left by { InsertedPages(m, rest, k); }
    }
  }

  lemma CarvedShape(l: seq<Block>, i: nat, n: nat, k: nat)
    requires Separate(l) && i < |l| && k < |l| && 0 < n <= l[i].len
    ensures Separate(Carved(l, i, n, k))
  {
    var m := l[..i] + l[i + 1..];
    RemovedSeparate(l, i);
    if l[i].len != n {
      InsertedSeparate(m, Block(l[i].base + n, l[i].len - n), k);
    }
  }

  lemma CarvedLoose(l: seq<Block>, i: nat, n: nat, k: nat)
    requires Loose(l) && i < |l| && k < |l| && 0 < n <= l[i].len
    ensures Loose(Carved(l, i, n, k))
  {
    var m := l[..i] + l[i + 1..];
    RemovedLoose(l, i);
    if l[i].len != n {
      var rest := Block(l[i].base + n, l[i].len - n);
      InsertedLoose(m, rest, k);
    }
  }

  lemma InsertedLoose(l: seq<Block>, b: Block, i: nat)
    requires Loose(l) && (forall c :: c in l ==> Clear(c, b)) && b.len > 0 && i <= |l|
    ensures Loose(l[..i] + [b] + l[i..])
  {
    var m := l[..i] + [b] + l[i..];
    forall x | 0 <= x < |m| ensures m[x].len > 0 {
      InsertedAt(l, b, i, x);
    }
    forall x, y | 0 <= x < y < |m| ensures Clear(m[x], m[y]) {
      InsertedAt(l, b, i, x);
      InsertedAt(l, b, i, y);
    }
  }

  lemma InsertedAt(l: seq<Block>, b: Block, i: nat, k: nat)
    requires i <= |l| && k <= |l|
    ensures var m := l[..i] + [b] + l[i..];
      && |m| == |l| + 1 && (k < i ==> m[k] == l[k] && l[k] in l)
      && (k == i ==> m[k] == b) && (k > i ==> m[k] == l[k - 1] && l[k - 1] in l)
  {
  }

  lemma CarvedHeads(l: seq<Block>, i: nat, n: nat, k: nat)
    requires Loose(l) && i < |l| && k < |l| && 0 < n <= l[i].len
    ensures Heads(Carved(l, i, n, k)) == Heads(l) + (if l[i].len == n then {} else {l[i].base + n}) - {l[i].base}
  {
    var m := l[..i] + l[i + 1..];
    HeadsRemoved(l, i);
    if l[i].len != n {
      HeadsInserted(m, Block(l[i].base + n, l[i].len - n), k);
    }
  }

  lemma CarvedSorted(l: seq<Block>, i: nat, n: nat)
    requires Loose(l) && Sorted(l) && i < |l| && 0 < n <= l[i].len
    ensures Sorted(Carved(l, i, n, i))
  {
    var m := l[..i] + l[i + 1..];
    RemovedLoose(l, i);
    if l[i].len != n {
      InsertedSorted(m, Block(l[i].base + n, l[i].len - n), i);
    }
  }

  /** The merging pass: `b` is the freed block as far as it has grown. */
  ghost predicate Sweeping(l: seq<Block>, b: Block, pages: set<nat>) {
    Loose(l) && b.len > 0 && Range(b.base, b.len) !! Pages(l) && Pages(l) + Range(b.base, b.len) == pages
  }

  /** On a list of maximal runs, moreover, the first `i` blocks do not touch it. */
  ghost predicate Merging(l: seq<Block>, i: nat, b: Block, pages: set<nat>) {
    i <= |l| && Separate(l) && AllApart(l[..i], b) && Sweeping(l, b, pages)
  }

  /** Blocks with different pages do not overlap. */
  lemma ClearOf(l: seq<Block>, b: Block)
    requires Loose(l) && b.len > 0 && Range(b.base, b.len) !! Pages(l)
    ensures forall c :: c in l ==> Clear(c, b)
  {
    forall i | 0 <= i < |l| ensures Clear(l[i], b) {
      PagesSplit(l, i);
      var c := l[i];
      assert b.base in Range(b.base, b.len) && c.base in Range(c.base, c.len);
      assert c.base <= b.base < End(c) ==> b.base in Range(c.base, c.len);
      assert b.base <= c.base < End(b) ==> c.base in Range(b.base, b.len);
    }
  }

  /** What the merging pass makes of the list and the freed block. */
  ghost function Swept(l: seq<Block>, b: Block): (seq<Block>, Block) {
    if l == [] then (l, b)
    else if End(b) == l[0].base then Swept(l[1..], Block(b.base, b.len + l[0].len))
    else if End(l[0]) == b.base then Swept(l[1..], Block(l[0].base, l[0].len + b.len))
    else ([l[0]] + Swept(l[1..], b).0, Swept(l[1..], b).1)
  }

  /** The first block beyond the freed one, as far as that has grown, still touches it. */
  ghost predicate Obstructed(l: seq<Block>, b: Block) {
    var m, c := Swept(l, b).0, Swept(l, b).1;
    exists i :: FirstBeyond(m, i, c) && m[i].base == End(c)
  }

  /** Block `i` is the first that does not start before `b` ends. */
  ghost predicate FirstBeyond(l: seq<Block>, i: int, b: Block) {
    0 <= i < |l| && l[i].base >= End(b) && forall k :: 0 <= k < i ==> l[k].base < End(b)
  }

  /** The block grows upwards only over a block that starts where it ends. */
  lemma {:induction false} EndStays(l: seq<Block>, b: Block)
    requires forall c :: c in l ==> c.base != End(b) && c.len > 0
    ensures End(Swept(l, b).1) == End(b)
  {
    if l != [] {
      if End(l[0]) == b.base {
        EndStays(l[1..], Block(l[0].base, l[0].len + b.len));
      } else {
        EndStays(l[1..], b);
      }
    }
  }

  lemma {:induction false} EndGrows(l: seq<Block>, b: Block)
    ensures End(Swept(l, b).1) >= End(b)
  {
    if l != [] {
      if End(b) == l[0].base {
        EndGrows(l[1..], Block(b.base, b.len + l[0].len));
      } else if End(l[0]) == b.base {
        EndGrows(l[1..], Block(l[0].base, l[0].len + b.len));
      } else {
        EndGrows(l[1..], b);
      }
    }
  }

  /** On a sorted list nothing is left that starts where the grown block ends. */
  lemma {:induction false} SortedFits(l: seq<Block>, b: Block)
    requires Sorted(l) && forall c :: c in l ==> c.len > 0
    ensures forall c :: c in Swept(l, b).0 ==> c.base != End(Swept(l, b).1)
  {
    if l != [] {
      SortedTail(l);
      if End(b) == l[0].base {
        SortedFits(l[1..], Block(b.base, b.len + l[0].len));
      } else if End(l[0]) == b.base {
        SortedFits(l[1..], Block(l[0].base, l[0].len + b.len));
      } else {
        SortedFits(l[1..], b);
        FirstFits(l, b);
      }
    }
  }

  lemma SortedTail(l: seq<Block>)
    requires l != [] && Sorted(l)
    ensures Sorted(l[1..]) && forall c :: c in l[1..] ==> c in l && l[0].base < c.base
  {
  }

  /** A first block that is passed over does not start where the block ends when it has grown over the others. */
  lemma FirstFits(l: seq<Block>, b: Block)
    requires l != [] && Sorted(l) && (forall c :: c in l ==> c.len > 0) && End(b) != l[0].base
    ensures End(Swept(l[1..], b).1) != l[0].base
  {
    hide Swept, Sorted;
    SortedTail(l);
    EndGrows(l[1..], b);
    if forall c :: c in l[1..] ==> c.base != End(b) {
      EndStays(l[1..], b);
    } else {
      var c :| c in l[1..] && c.base == End(b);
    }
  }

  lemma SortedNeverObstructed(l: seq<Block>, b: Block)
    requires Sorted(l) && Loose(l)
    ensures !Obstructed(l, b)
  {
    SortedFits(l, b);
  }

  ghost function Union(a: Block, b: Block): Block {
    Block(if a.base < b.base then a.base else b.base, a.len + b.len)
  }

  lemma MergeStep(l: seq<Block>, i: nat, b: Block, pages: set<nat>)
    requires Sweeping(l, b, pages) && i < |l| && (End(b) == l[i].base || End(l[i]) == b.base)
    ensures Sweeping(l[..i] + l[i + 1..], Union(b, l[i]), pages)
    ensures Merging(l, i, b, pages) ==> Merging(l[..i] + l[i + 1..], i, Union(b, l[i]), pages)
    ensures End(b) == l[i].base ==> Union(b, l[i]) == Block(b.base, b.len + l[i].len)
    ensures End(l[i]) == b.base ==> Union(b, l[i]) == Block(l[i].base, l[i].len + b.len)
    ensures Heads(l[..i] + l[i + 1..]) == Heads(l) - {l[i].base} && b.base !in Heads(l) && b.base != l[i].base
    ensures Sorted(l) ==> Sorted(l[..i] + l[i + 1..])
  {
    RemovedLoose(l, i);
    HeadsRemoved(l, i);
    MergeSweeping(l, i, b, pages);
    if Merging(l, i, b, pages) { MergeMerging(l, i, b, pages); }
    assert b.base in Range(b.base, b.len);
    HeadsArePages(l, b.base);
  }

  lemma MergeSweeping(l: seq<Block>, i: nat, b: Block, pages: set<nat>)
    requires Sweeping(l, b, pages) && i < |l| && (End(b) == l[i].base || End(l[i]) == b.base)
    ensures Sweeping(l[..i] + l[i + 1..], Union(b, l[i]), pages)
  {
    hide Pages, Range;
    RemovedLoose(l, i);
    PagesSplit(l, i);
    if End(b) == l[i].base { RangesJoin(b, l[i]); } else { RangesJoin(l[i], b); }
  }

  lemma MergeMerging(l: seq<Block>, i: nat, b: Block, pages: set<nat>)
    requires Merging(l, i, b, pages) && i < |l| && (End(b) == l[i].base || End(l[i]) == b.base)
    ensures Merging(l[..i] + l[i + 1..], i, Union(b, l[i]), pages)
  {
    hide Pages, Range, AllApart;
    var m := l[..i] + l[i + 1..];
    RemovedSeparate(l, i);
    MergeSweeping(l, i, b, pages);
    assert m[..i] == l[..i];
    if End(b) == l[i].base {
      ApartFromUnion(l[..i], b, l[i]);
    } else {
      ApartFromUnion(l[..i], l[i], b);
    }
  }

  lemma HeadsArePages(l: seq<Block>, p: nat)
    requires Loose(l)
    ensures p in Heads(l) ==> p in Pages(l)
  {
    PageIn(l, p);
  }

  /** A block the merging pass leaves alone neither touches nor overlaps the freed block. */
  lemma MergeSkip(l: seq<Block>, i: nat, b: Block, pages: set<nat>)
    requires Merging(l, i, b, pages) && i < |l| && End(b) != l[i].base && End(l[i]) != b.base
    ensures Merging(l, i + 1, b, pages)
  {
    ClearOf(l, b);
    assert l[i] in l;
  }
}
