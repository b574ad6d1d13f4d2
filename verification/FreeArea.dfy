/**
  The first-fit and best-fit page allocators (kern/mm/firstfit_pmm.c, kern/mm/bestfit_pmm.c).  Both keep the
  free blocks on one list and share the merging pass that frees pages; they differ in how they choose.
*/
module FreeArea {
  import opened Options
  import opened FreeLists

  /** The blocks do not overlap, the flags mark their first pages, and the count is right. */
  ghost predicate Accurate(list: seq<Block>, nrFree: nat, flagged: set<nat>, reserved: set<nat>) {
    Loose(list) && flagged == Heads(list) && nrFree == |Pages(list)| && Pages(list) !! reserved
  }

  class Area {
    var list: seq<Block>        // free_list, each entry with its `property`
    var nrFree: nat
    var flagged: set<nat>       // pages with PG_property set
    var reserved: set<nat>      // pages with PG_reserved set

    /** The set of free pages, which is what the list stands for. */
    ghost function Free(): set<nat>
      reads this
    {
      Pages(list)
    }

    /** What holds in any case. */
    ghost predicate Sane()
      reads this
    {
      Accurate(list, nrFree, flagged, reserved)
    }

    /** Moreover the blocks are the maximal runs of free pages. */
    ghost predicate Valid()
      reads this
    {
      Sane() && Separate(list)
    }

    /** firstfit_init, best_init */
    constructor (reserved: set<nat>)
      ensures Valid() && Free() == {} && list == [] && this.reserved == reserved
    {
      list, nrFree, flagged, this.reserved := [], 0, {}, reserved;
    }

    /**
      firstfit_init_memmap, best_init_memmap: a further stretch of reserved memory becomes free.  It is linked in as
      it is, so the list holds the maximal runs if and only if the stretch touches none of those there already.
    */
    method InitMemmap(base: nat, n: nat)
      requires Sane() && n > 0 && Range(base, n) <= reserved
      modifies this
      ensures Sane() && list == old(list) + [Block(base, n)] && reserved == old(reserved) - Range(base, n)
      ensures Free() == old(Free()) + Range(base, n)
      ensures Valid() <==> old(Valid() && AllApart(list, Block(base, n)))
      ensures old(Sorted(list)) && (forall b :: b in old(list) ==> b.base < base) ==> Sorted(list)
    {
      hide Separate, Loose, Heads, Pages, AllApart;
      ghost var was := reserved;
      var p := base;
      while p != base + n
        invariant base <= p <= base + n && reserved == was - Range(base, p - base)
        invariant list == old(list) && nrFree == old(nrFree) && flagged == old(flagged)
        decreases base + n - p
      {
        assert p in Range(base, n);
        reserved := reserved - {p};
        p := p + 1;
      }
      Appended(list, Block(base, n));
      flagged := flagged + {base};
      nrFree := nrFree + n;
      list := list + [Block(base, n)];
    }

    /** firstfit_alloc_pages */
    method FirstFit(n: nat) returns (page: Option<nat>)
      requires Sane() && n > 0
      modifies this
      ensures Sane() && reserved == old(reserved) && (old(Valid()) ==> Valid())
      ensures page.None? <==> forall k :: 0 <= k < |old(list)| ==> old(list)[k].len < n
      ensures page.None? ==> list == old(list)
      ensures page.None? && old(Valid()) ==> forall q: nat :: !(Range(q, n) <= Free())
      ensures page.Some? ==> Range(page.value, n) <= old(Free()) && Free() == old(Free()) - Range(page.value, n)
      ensures page.Some? && old(Valid() && Sorted(list)) ==>
        forall q: nat :: Range(q, n) <= old(Free()) ==> page.value <= q
      ensures old(Sorted(list)) ==> Sorted(list)
      ensures page.Some? ==> exists i: nat ::
        FirstWithRoom(old(list), i, n) && page.value == old(list)[i].base && list == Carved(old(list), i, n, i)
    {
      if n > nrFree {
        NoRoom(list, n);
        AllShort(list, n);
        return None;
      }
      var i := 0;
      while i < |list| && list[i].len < n
        invariant i <= |list| && forall k :: 0 <= k < i ==> list[k].len < n
      {
        i := i + 1;
      }
      if i == |list| {
        if Separate(list) { NoFit(list, n); }
        return None;
      }
      if Separate(list) { Lowest(list, i, n); }
      assert FirstWithRoom(list, i, n);
      page := Some(list[i].base);
      Take(i, n, i + 1);
    }

    /** best_alloc_pages */
    method BestFit(n: nat) returns (page: Option<nat>)
      requires Sane() && n > 0
      modifies this
      ensures Sane() && reserved == old(reserved) && (old(Valid()) ==> Valid())
      ensures page.None? <==> forall k :: 0 <= k < |old(list)| ==> old(list)[k].len < n
      ensures page.None? ==> list == old(list)
      ensures page.None? && old(Valid()) ==> forall q: nat :: !(Range(q, n) <= Free())
      ensures page.Some? ==> Range(page.value, n) <= old(Free()) && Free() == old(Free()) - Range(page.value, n)
      ensures page.Some? && old(Valid()) ==> Tightest(old(Free()), page.value, n)
      ensures page.Some? ==> exists i: nat ::
        && Chosen(old(list), |old(list)|, i, n) && page.value == old(list)[i].base
        && list == Carved(old(list), i, n, 0)
    {
      if n > nrFree {
        NoRoom(list, n);
        AllShort(list, n);
        return None;
      }
      var i := 0;
      var best: Option<nat> := None;
      while i < |list|
        invariant i <= |list|
        invariant best.None? ==> forall k :: 0 <= k < i ==> list[k].len < n
        invariant best.Some? ==> Chosen(list, i, best.value, n)
      {
        if list[i].len >= n && (best.None? || list[i].len < list[best.value].len) {
          best := Some(i);
        }
        i := i + 1;
      }
      if best.None? {
        if Separate(list) { NoFit(list, n); }
        return None;
      }
      if Separate(list) { ChosenIsTightest(list, best.value, n); }
      page := Some(list[best.value].base);
      Take(best.value, n, 0);
    }

    /** Hand out the first `n` pages of block `i`; the rest is linked in at place `k` before the block is unlinked. */
    method Take(i: nat, n: nat, k: nat)
      requires Sane() && i < |list| && 0 < n <= list[i].len && (k == i + 1 || k == 0)
      modifies this`list, this`nrFree, this`flagged
      ensures Sane() && (old(Valid()) ==> Valid()) && Range(old(list[i].base), n) <= old(Free())
      ensures Free() == old(Free()) - Range(old(list[i].base), n)
      ensures k == i + 1 && old(Sorted(list)) ==> Sorted(list)
      ensures list == Carved(old(list), i, n, if k == 0 then 0 else i)
    {
      hide Separate, Loose, Heads, Pages, Range, Sorted, CarvedTo;
      ghost var l', flagged' := Taken(list, nrFree, flagged, reserved, i, n, if k == 0 then 0 else i);
      Unlink(i, n, k, l', flagged');
    }

    /** Link the remainder in, then unlink the block. */
    method Unlink(i: nat, n: nat, k: nat, ghost l': seq<Block>, ghost flagged': set<nat>)
      requires i < |list| && 0 < n <= list[i].len && n <= nrFree && (k == i + 1 || k == 0)
      requires CarvedTo(list, flagged, i, n, if k == 0 then 0 else i, l', flagged')
      modifies this`list, this`nrFree, this`flagged
      ensures list == l' && nrFree == old(nrFree) - n && flagged == flagged'
    {
      var b := list[i];
      if b.len > n {
        var rest := Block(b.base + n, b.len - n);
        InsertThenRemove(list, i, k, rest);
        flagged := flagged + {b.base + n};
        list := list[..k] + [rest] + list[k..];
        var here := if k == 0 then i + 1 else i;
        list := list[..here] + list[here + 1..];
      } else {
        list := list[..i] + list[i + 1..];
      }
      nrFree := nrFree - n;
      flagged := flagged - {b.base};
    }

    /**
      firstfit_free_pages, best_free_pages.  The assertion of the second loop fails exactly if the merging pass left a
      block that the freed one had grown up to; not on a list of maximal runs, nor on a sorted list.
    */
    method FreePages(base: nat, n: nat) returns (panics: bool)
      requires Sane() && n > 0 && Range(base, n) !! Free() && Range(base, n) !! reserved
      modifies this
      ensures panics <==> Obstructed(old(list), Block(base, n))
      ensures !panics ==> Sane() && Free() == old(Free()) + Range(base, n) && reserved == old(reserved)
      ensures old(Valid()) ==> !panics && Valid()
      ensures old(Sorted(list)) ==> !panics && Sorted(list)
      ensures !panics ==> var (rest, b) := Swept(old(list), Block(base, n)); LinkedBefore(rest, b, list)
    {
      hide Separate, Loose, Heads, Pages, Range, Sorted, AllApart, Swept, FirstBeyond, LinkedBefore;
      CheckPages(base, n);
      ghost var l, all := list, Pages(list) + Range(base, n);
      Starts(list, Block(base, n), all);
      flagged := flagged + {base};
      var b := Coalesce(Block(base, n), all);
      nrFree := nrFree + n;
      panics := Insert(b, all);
      if Sorted(l) { SortedNeverObstructed(l, Block(base, n)); }
    }

    /** The assertions of the first loop of freeing hold: no page of the block is reserved or heads a free block. */
    method CheckPages(base: nat, n: nat)
      requires Sane() && Range(base, n) !! Free() && Range(base, n) !! reserved
      ensures forall p: nat :: base <= p < base + n ==> p !in reserved && p !in flagged
    {
      var p := base;
      while p != base + n
        invariant base <= p <= base + n
        invariant forall q: nat :: base <= q < p ==> q !in reserved && q !in flagged
        decreases base + n - p
      {
        assert p in Range(base, n);
        HeadsArePages(list, p);
        assert p !in reserved && p !in flagged;
        p := p + 1;
      }
    }

    /** The two branches of the merging pass that grow the freed block by its neighbour `list[i]`. */
    method Absorb(i: nat, b: Block, ghost all: set<nat>) returns (b': Block)
      requires Sweeping(list, b, all) && flagged == Heads(list) + {b.base}
      requires i < |list| && (End(b) == list[i].base || End(list[i]) == b.base)
      modifies this`list, this`flagged
      ensures Sweeping(list, b', all) && flagged == Heads(list) + {b'.base} && list == old(list[..i] + list[i + 1..])
      ensures b' == if End(b) == old(list[i].base) then Block(b.base, b.len + old(list[i].len))
        else Block(old(list[i].base), old(list[i].len) + b.len)
      ensures old(Merging(list, i, b, all)) ==> Merging(list, i, b', all)
      ensures old(Sorted(list)) ==> Sorted(list)
    {
      hide Merging, Sweeping, Sorted;
      var p := list[i];
      MergeStep(list, i, b, all);
      if End(b) == p.base {
        b' := Block(b.base, b.len + p.len);
        flagged := flagged - {p.base};
      } else {
        b' := Block(p.base, p.len + b.len);
        flagged := flagged - {b.base};
      }
      list := list[..i] + list[i + 1..];
    }

    /** The merging pass: one walk over the list, growing the freed block. */
    method Coalesce(b0: Block, ghost all: set<nat>) returns (b: Block)
      requires Sweeping(list, b0, all) && flagged == Heads(list) + {b0.base}
      modifies this`list, this`flagged
      ensures Sweeping(list, b, all) && flagged == Heads(list) + {b.base} && (list, b) == Swept(old(list), b0)
      ensures old(Separate(list)) ==> Separate(list) && AllApart(list, b)
      ensures old(Sorted(list)) ==> Sorted(list)
    {
      hide Sweeping, Merging, Sorted, Swept, Separate, AllApart;
      b := b0;
      var i := 0;
      ghost var l := list;
      SweepStarts(l, b, all);
      while i < |list|
        invariant i <= |list| && Sweeping(list, b, all) && flagged == Heads(list) + {b.base}
        invariant Separate(l) ==> Merging(list, i, b, all)
        invariant Swept(l, b0) == (list[..i] + Swept(list[i..], b).0, Swept(list[i..], b).1)
        invariant Sorted(l) ==> Sorted(list)
        decreases |list| - i
      {
        var p := list[i];
        SweptStep(list, i, b);
        if End(b) == p.base || End(p) == b.base {
          b := Absorb(i, b, all);
        } else {
          if Separate(l) { MergeSkip(list, i, b, all); }
          i := i + 1;
        }
      }
      SweepEnds(list, i, b, all);
    }

    /** The second loop of freeing: link the block in before the first one that lies beyond it. */
    method Insert(b: Block, ghost all: set<nat>) returns (panics: bool)
      requires Sweeping(list, b, all) && flagged == Heads(list) + {b.base}
      modifies this`list
      ensures panics <==> exists i :: FirstBeyond(old(list), i, b) && old(list)[i].base == End(b)
      ensures !panics ==> Loose(list) && flagged == Heads(list) && Pages(list) == all
      ensures old(Separate(list) && AllApart(list, b)) ==> !panics && Separate(list)
      ensures !panics && old(Sorted(list)) ==> Sorted(list)
      ensures !panics ==> LinkedBefore(old(list), b, list)
    {
      hide Sweeping, Loose, Separate, Sorted, Heads, Pages;
      var i := 0;
      while i < |list| && End(b) > list[i].base
        invariant i <= |list| && forall k :: 0 <= k < i ==> End(b) > list[k].base
      {
        i := i + 1;
      }
      if i < |list| && End(b) == list[i].base {
        assert FirstBeyond(list, i, b);
        return true;
      }
      LinkedIn(list, b, i, all);
      list := list[..i] + [b] + list[i..];
      panics := false;
    }
  }

  /** Block `i` is the first that is long enough. */
  ghost predicate FirstWithRoom(l: seq<Block>, i: nat, n: nat) {
    i < |l| && l[i].len >= n && forall k :: 0 <= k < i ==> l[k].len < n
  }

  /** `l2` is `l` with `b` linked in before the first block that lies beyond it. */
  ghost predicate LinkedBefore(l: seq<Block>, b: Block, l2: seq<Block>) {
    exists i: nat :: i <= |l| && l2 == l[..i] + [b] + l[i..]
      && (i < |l| ==> End(b) < l[i].base) && forall k :: 0 <= k < i ==> End(b) > l[k].base
  }

  /** Linking `rest` in at place `k` and then unlinking block `i`. */
  lemma InsertThenRemove(l: seq<Block>, i: nat, k: nat, rest: Block)
    requires i < |l| && (k == i + 1 || k == 0)
    ensures var here, at := if k == 0 then i + 1 else i, if k == 0 then 0 else i;
      var l1, m := l[..k] + [rest] + l[k..], l[..i] + l[i + 1..];
      l1[..here] + l1[here + 1..] == m[..at] + [rest] + m[at..]
  {
    var l1, m := l[..k] + [rest] + l[k..], l[..i] + l[i + 1..];
    if k == 0 {
      assert l1 == [rest] + l;
      assert l1[..i + 1] == [rest] + l[..i] && l1[i + 2..] == l[i + 1..];
    } else {
      assert l1[..i] == l[..i] && l1[i + 1..] == [rest] + l[i + 1..];
      assert m[..i] == l[..i] && m[i..] == l[i + 1..];
    }
  }

  lemma Starts(l: seq<Block>, b: Block, all: set<nat>)
    requires Loose(l) && b.len > 0 && Range(b.base, b.len) !! Pages(l) && all == Pages(l) + Range(b.base, b.len)
    ensures Sweeping(l, b, all) && |all| == |Pages(l)| + b.len
  {
    Counted(l, b);
  }

  lemma SweepStarts(l: seq<Block>, b: Block, all: set<nat>)
    requires Sweeping(l, b, all)
    ensures Separate(l) ==> Merging(l, 0, b, all)
    ensures Swept(l, b) == (l[..0] + Swept(l[0..], b).0, Swept(l[0..], b).1)
  {
    assert l[0..] == l && l[..0] + Swept(l, b).0 == Swept(l, b).0;
  }

  /** One turn of the merging pass. */
  lemma SweptStep(l: seq<Block>, i: nat, b: Block)
    requires i < |l|
    ensures var p, rest := l[i], l[i + 1..];
      && (l[..i] + rest)[..i] == l[..i] && (l[..i] + rest)[i..] == rest
      && (End(b) == p.base ==> Swept(l[i..], b) == Swept(rest, Block(b.base, b.len + p.len)))
      && (End(b) != p.base && End(p) == b.base ==> Swept(l[i..], b) == Swept(rest, Block(p.base, p.len + b.len)))
      && (End(b) != p.base && End(p) != b.base ==>
        && Swept(l[i..], b).1 == Swept(rest, b).1
        && l[..i] + Swept(l[i..], b).0 == l[..i + 1] + Swept(rest, b).0)
  {
    var t, rest := l[i..], l[i + 1..];
    assert t != [] && t[0] == l[i] && t[1..] == rest;
    Rejoined(l, i, Swept(rest, b).0);
  }

  lemma Rejoined(l: seq<Block>, i: nat, r: seq<Block>)
    requires i < |l|
    ensures (l[..i] + l[i + 1..])[..i] == l[..i] && (l[..i] + l[i + 1..])[i..] == l[i + 1..]
    ensures l[..i] + ([l[i]] + r) == l[..i + 1] + r
  {
  }

  /** The grown block is linked in before the first block beyond it, which it does not touch. */
  lemma LinkedIn(l: seq<Block>, b: Block, i: nat, all: set<nat>)
    requires Sweeping(l, b, all) && i <= |l| && (i < |l| ==> End(b) < l[i].base)
    requires forall k :: 0 <= k < i ==> End(b) > l[k].base
    ensures var l' := l[..i] + [b] + l[i..];
      && Loose(l') && Heads(l') == Heads(l) + {b.base} && Pages(l') == all
      && (Separate(l) && AllApart(l, b) ==> Separate(l')) && (Sorted(l) ==> Sorted(l'))
  {
    hide Pages, Heads;
    ClearOf(l, b);
    assert forall k :: 0 <= k < |l| ==> l[k] in l && Clear(l[k], b);
    InsertedLoose(l, b, i);
    if Separate(l) && AllApart(l, b) { InsertedSeparate(l, b, i); }
    InsertedPages(l, b, i);
    HeadsInserted(l, b, i);
    if Sorted(l) { InsertedSorted(l, b, i); }
  }

  lemma SweepEnds(l: seq<Block>, i: nat, b: Block, all: set<nat>)
    requires i == |l|
    ensures (l[..i] + Swept(l[i..], b).0, Swept(l[i..], b).1) == (l, b)
    ensures Merging(l, i, b, all) ==> Separate(l) && AllApart(l, b)
  {
    assert l[..i] == l && l[i..] == [] && l + [] == l;
  }

  lemma AllShort(l: seq<Block>, n: nat)
    requires |Pages(l)| < n
    ensures forall k :: 0 <= k < |l| ==> l[k].len < n
  {
    forall k | 0 <= k < |l| ensures l[k].len < n {
      PagesSplit(l, k);
      RangeSize(l[k].base, l[k].len);
      SubsetSize(Range(l[k].base, l[k].len), Pages(l));
    }
  }

  lemma Appended(l: seq<Block>, b: Block)
    requires Loose(l) && b.len > 0 && Range(b.base, b.len) !! Pages(l)
    ensures Loose(l + [b])
    ensures Pages(l + [b]) == Pages(l) + Range(b.base, b.len) && |Pages(l + [b])| == |Pages(l)| + b.len
    ensures Heads(l + [b]) == Heads(l) + {b.base}
    ensures Separate(l + [b]) <==> Separate(l) && AllApart(l, b)
  {
    hide Loose, Heads, Pages, Separate, AllApart;
    ClearOf(l, b);
    InsertedLoose(l, b, |l|);
    InsertedPages(l, b, |l|);
    HeadsInserted(l, b, |l|);
    Counted(l, b);
    assert l[..|l|] + [b] + l[|l|..] == l + [b];
    if Separate(l) && AllApart(l, b) { InsertedSeparate(l, b, |l|); }
    if Separate(l + [b]) { SeparateParts(l, b); }
  }

  lemma SeparateParts(l: seq<Block>, b: Block)
    requires Separate(l + [b])
    ensures Separate(l) && AllApart(l, b)
  {
    var m := l + [b];
    assert forall i :: 0 <= i < |l| ==> m[i] == l[i];
    forall i | 0 <= i < |l| ensures Apart(l[i], b) {
      assert Apart(m[i], m[|l|]);
    }
  }

  lemma Counted(l: seq<Block>, b: Block)
    requires Range(b.base, b.len) !! Pages(l) || AllApart(l, b)
    ensures Range(b.base, b.len) !! Pages(l)
    ensures |Pages(l) + Range(b.base, b.len)| == |Pages(l)| + b.len
  {
    forall p | p in Range(b.base, b.len) ensures p !in Pages(l) {
      PageIn(l, p);
    }
    RangeSize(b.base, b.len);
    DisjointSize(Pages(l), Range(b.base, b.len));
  }

  lemma CarvedMeaning(l: seq<Block>, i: nat, n: nat, k: nat, l': seq<Block>)
    requires Loose(l) && i < |l| && k < |l| && 0 < n <= l[i].len && l' == Carved(l, i, n, k)
    ensures Loose(l') && (Separate(l) ==> Separate(l'))
    ensures Heads(l') == Heads(l) + (if l[i].len == n then {} else {l[i].base + n}) - {l[i].base}
    ensures Range(l[i].base, n) <= Pages(l) && Pages(l') == Pages(l) - Range(l[i].base, n)
    ensures |Pages(l)| == |Pages(l')| + n
    ensures k == i && Sorted(l) ==> Sorted(l')
  {
    CarvedPages(l, i, n, k);
    CarvedLoose(l, i, n, k);
    if Separate(l) { CarvedShape(l, i, n, k); }
    CarvedHeads(l, i, n, k);
    CarvedCount(l, i, n, k);
    if k == i && Sorted(l) { CarvedSorted(l, i, n); }
  }

  ghost predicate CarvedTo(l: seq<Block>, flagged: set<nat>, i: nat, n: nat, k: nat, l': seq<Block>, flagged': set<nat>)
    requires i < |l| && k < |l| && 0 < n <= l[i].len
  {
    && l' == Carved(l, i, n, k)
    && flagged' == flagged + (if l[i].len == n then {} else {l[i].base + n}) - {l[i].base}
  }

  lemma Taken(l: seq<Block>, nr: nat, flagged: set<nat>, reserved: set<nat>, i: nat, n: nat, k: nat)
    returns (l': seq<Block>, flagged': set<nat>)
    requires Accurate(l, nr, flagged, reserved) && i < |l| && k < |l| && 0 < n <= l[i].len
    ensures CarvedTo(l, flagged, i, n, k, l', flagged') && l' == Carved(l, i, n, k)
    ensures nr >= n && Accurate(l', nr - n, flagged', reserved) && (Separate(l) ==> Separate(l'))
    ensures Range(l[i].base, n) <= Pages(l) && Pages(l') == Pages(l) - Range(l[i].base, n)
    ensures k == i && Sorted(l) ==> Sorted(l')
  {
    l', flagged' := Carved(l, i, n, k), flagged + (if l[i].len == n then {} else {l[i].base + n}) - {l[i].base};
    CarvedMeaning(l, i, n, k, l');
  }

  lemma CarvedCount(l: seq<Block>, i: nat, n: nat, k: nat)
    requires Loose(l) && i < |l| && k < |l| && 0 < n <= l[i].len
    ensures |Pages(l)| == |Pages(Carved(l, i, n, k))| + n
  {
    CarvedPages(l, i, n, k);
    var gone := Range(l[i].base, n);
    RangeSize(l[i].base, n);
    DisjointSize(Pages(l) - gone, gone);
    assert Pages(l) - gone + gone == Pages(l);
  }

  /** Fewer than `n` free pages hold no run of `n`. */
  lemma NoRoom(l: seq<Block>, n: nat)
    requires |Pages(l)| < n
    ensures forall q: nat :: !(Range(q, n) <= Pages(l))
  {
    forall q: nat ensures !(Range(q, n) <= Pages(l)) {
      RangeSize(q, n);
      SubsetSize(Range(q, n), Pages(l));
    }
  }

  lemma SubsetSize<T>(a: set<T>, b: set<T>)
    ensures a <= b ==> |a| <= |b|
  {
    if a <= b {
      assert b == a + (b - a);
      DisjointSize(a, b - a);
    }
  }

  /** On a sorted list the first block that is long enough starts at the lowest address with room for `n` pages. */
  lemma Lowest(l: seq<Block>, i: nat, n: nat)
    requires Separate(l) && i < |l| && n > 0 && forall k :: 0 <= k < i ==> l[k].len < n
    ensures Sorted(l) ==> forall q: nat :: Range(q, n) <= Pages(l) ==> l[i].base <= q
  {
    if Sorted(l) {
      forall q: nat | Range(q, n) <= Pages(l) ensures l[i].base <= q {
        var j := RunInBlock(l, q, n);
      }
    }
  }

  /** Block `i` is the first of the shortest long enough blocks among the first `m`. */
  ghost predicate Chosen(l: seq<Block>, m: nat, i: nat, n: nat) {
    && i < m <= |l| && l[i].len >= n
    && (forall k :: 0 <= k < m && l[k].len >= n ==> l[i].len <= l[k].len)
    && (forall k :: 0 <= k < i ==> l[k].len < n || l[i].len < l[k].len)
  }

  /** The pages from `p` on start a maximal free run, and no maximal run with room for `n` is shorter. */
  ghost predicate Tightest(free: set<nat>, p: nat, n: nat) {
    exists len: nat :: n <= len && MaximalRun(free, Block(p, len)) && ShortestRun(free, len, n)
  }

  ghost predicate ShortestRun(free: set<nat>, len: nat, n: nat) {
    forall c :: MaximalRun(free, c) && c.len >= n ==> len <= c.len
  }

  lemma ChosenIsTightest(l: seq<Block>, i: nat, n: nat)
    requires Separate(l) && Chosen(l, |l|, i, n)
    ensures Tightest(Pages(l), l[i].base, n)
  {
    MemberIsMaximal(l, i);
    assert l[i] == Block(l[i].base, l[i].len);
    forall c | MaximalRun(Pages(l), c) && c.len >= n ensures l[i].len <= c.len {
      MembersAreMaximalRuns(l, c);
    }
    assert ShortestRun(Pages(l), l[i].len, n);
  }

  /** Freeing what first-fit just handed out restores the identical list. */
  method AllocateAndFree(a: Area, n: nat)
    requires a.Valid() && Sorted(a.list) && n > 0
    modifies a
    ensures a.list == old(a.list) && a.nrFree == old(a.nrFree) && a.flagged == old(a.flagged)
  {
    hide Pages, Range, Separate, Heads;
    var page := a.FirstFit(n);
    if page.Some? {
      ghost var free := old(a.Free());
      assert Range(page.value, n) !! a.Free() && Range(page.value, n) !! a.reserved;
      var _ := a.FreePages(page.value, n);
      assert a.Free() == free;
      CanonicalUnique(a.list, old(a.list));
    }
  }

  /** Two stretches of one page that touch: the list holds two blocks where the free pages are one run. */
  method TouchingStretches() returns (a: Area)
    ensures fresh(a) && a.list == [Block(0, 1), Block(1, 1)] && a.Free() == Range(0, 2) && !a.Valid()
  {
    hide Accurate, Range, Pages, Heads;
    a := new Area(FirstTwo());
    a.InitMemmap(0, 1);
    assert !Apart(a.list[0], Block(1, 1));
    a.InitMemmap(1, 1);
    assert a.list == [Block(0, 1)] + [Block(1, 1)];
  }

  /** Pages 0 and 1. */
  function FirstTwo(): (s: set<nat>)
    ensures Range(0, 1) <= s && Range(1, 1) <= s - Range(0, 1) && Range(0, 1) + Range(1, 1) == s == Range(0, 2)
  {
    {0, 1}
  }

  /**
    Stretches that touch, added downwards: freeing the page below them merges with the second one and then finds the
    first one where the freed block ends, so the assertion fails.
  */
  method ObstructedExample() returns (panics: bool)
    ensures panics
  {
    hide Accurate, Range, Pages, Heads;
    var a := new Area(OneAndTwo());
    a.InitMemmap(2, 1);
    a.InitMemmap(1, 1);
    assert a.list == [Block(2, 1), Block(1, 1)];
    DownwardsObstructed();
    panics := a.FreePages(0, 1);
  }

  lemma DownwardsObstructed()
    ensures Obstructed([Block(2, 1), Block(1, 1)], Block(0, 1))
  {
    var l, m := [Block(2, 1), Block(1, 1)], [Block(2, 1)];
    assert l[1..] == [Block(1, 1)] && [Block(1, 1)][1..] == [];
    assert Swept([Block(1, 1)], Block(0, 1)) == ([], Block(0, 2));
    assert m + [] == m;
    assert Swept(l, Block(0, 1)).0 == m && Swept(l, Block(0, 1)).1 == Block(0, 2);
    assert FirstBeyond(m, 0, Block(0, 2));
  }

  /** Pages 1 and 2. */
  function OneAndTwo(): (s: set<nat>)
    ensures Range(2, 1) <= s && Range(1, 1) <= s - Range(2, 1) && s - Range(2, 1) - Range(1, 1) == {}
    ensures Range(0, 1) !! Range(2, 1) + Range(1, 1)
  {
    {1, 2}
  }
}
