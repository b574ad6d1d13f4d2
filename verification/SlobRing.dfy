/**
  The free ring of the SLOB heap (kern/mm/kmalloc.c): blocks of units chained by address through `next`,
  the last one back to the first.  The list of its blocks in address order is the canonical free list.
*/
module SlobRing {
  import opened FreeLists

  function Succ(i: nat, n: nat): (j: nat)
    requires i < n
    ensures j < n
  {
    if i + 1 == n then 0 else i + 1
  }

  /** Steps forward along a ring of `n` from place `i` to place `t`. */
  function Distance(i: nat, t: nat, n: nat): nat
    requires i < n && t < n
  {
    if i <= t then t - i else n - i + t
  }

  ghost predicate LinkedAt(l: seq<Block>, next: map<nat, nat>, i: nat)
    requires i < |l|
  {
    l[i].base in next && next[l[i].base] == l[Succ(i, |l|)].base
  }

  ghost predicate SizedAt(l: seq<Block>, units: map<nat, nat>, i: nat)
    requires i < |l|
  {
    l[i].base in units && units[l[i].base] == l[i].len
  }

  /** The fields `units` and `next` in memory form one address-ordered cycle through the blocks of `l`. */
  ghost predicate Ring(l: seq<Block>, units: map<nat, nat>, next: map<nat, nat>) {
    && Canonical(l) && l != []
    && (forall i :: 0 <= i < |l| ==> SizedAt(l, units, i))
    && (forall i :: 0 <= i < |l| ==> LinkedAt(l, next, i))
  }

  // ---------------------------------------------------------------- where a freed block goes

  /** slob_free's loop stops at `cur`. */
  predicate StopsAt(cur: nat, next: nat, b: nat) {
    (b > cur && b < next) || (cur >= next && (b > cur || b < next))
  }

  /** Place `i` is the one after which the block at `b` belongs, in ring order. */
  ghost predicate Before(l: seq<Block>, i: nat, b: nat) {
    && i < |l|
    && (if i + 1 < |l| then l[i].base < b < l[i + 1].base else l[i].base < b || b < l[0].base)
  }

  lemma StopsThere(l: seq<Block>, i: nat, b: nat)
    requires Sorted(l) && i < |l|
    ensures StopsAt(l[i].base, l[Succ(i, |l|)].base, b) <==> Before(l, i, b)
  {
  }

  /** Every address that heads no block has such a place. */
  lemma {:induction false} PlaceExists(l: seq<Block>, b: nat) returns (i: nat)
    requires Sorted(l) && l != [] && forall c :: c in l ==> c.base != b
    ensures Before(l, i, b)
  {
    if l[|l| - 1].base < b || b < l[0].base {
      i := |l| - 1;
    } else {
      assert l[|l| - 1] in l;
      var m := l[..|l| - 1];
      i := PlaceExists(m, b);
      assert i + 1 < |m| ==> m[i + 1] == l[i + 1];
    }
  }

  /** How many blocks lie below `b`. */
  ghost function Rank(l: seq<Block>, i: nat, b: nat): nat
    requires i < |l|
  {
    if l[i].base < b then i + 1 else 0
  }

  ghost predicate TouchesRight(l: seq<Block>, k: nat, b: Block) {
    k < |l| && End(b) == l[k].base
  }

  ghost predicate TouchesLeft(l: seq<Block>, k: nat, b: Block) {
    0 < k <= |l| && End(l[k - 1]) == b.base
  }

  ghost function Lo(l: seq<Block>, k: nat, b: Block): nat
    requires k <= |l|
  {
    if TouchesLeft(l, k, b) then k - 1 else k
  }

  ghost function Hi(l: seq<Block>, k: nat, b: Block): nat
    requires k <= |l|
  {
    if TouchesRight(l, k, b) then k + 1 else k
  }

  /** The freed block with whatever it touches. */
  ghost function Grown(l: seq<Block>, k: nat, b: Block): Block
    requires k <= |l|
  {
    var c := GrownRight(l, k, b);
    if TouchesLeft(l, k, b) then Block(l[k - 1].base, l[k - 1].len + c.len) else c
  }

  /** The list with block `b` freed at rank `k`. */
  ghost function Freed(l: seq<Block>, k: nat, b: Block): seq<Block>
    requires k <= |l|
  {
    l[..Lo(l, k, b)] + [Grown(l, k, b)] + l[Hi(l, k, b)..]
  }

  /** The blocks below rank `k` end at or before `b`, the others start at or after its end. */
  ghost predicate Fits(l: seq<Block>, k: nat, b: Block) {
    && k <= |l| && b.len > 0
    && (forall i :: 0 <= i < k ==> End(l[i]) <= b.base)
    && (forall i :: k <= i < |l| ==> End(b) <= l[i].base)
  }

  lemma FitsThere(l: seq<Block>, i: nat, b: Block)
    requires Canonical(l) && Before(l, i, b.base) && b.len > 0 && Range(b.base, b.len) !! Pages(l)
    ensures Fits(l, Rank(l, i, b.base), b)
  {
    forall j | 0 <= j < |l| ensures End(l[j]) <= b.base || End(b) <= l[j].base {
      OutsideBlock(l, j, b);
    }
  }

  lemma OutsideBlock(l: seq<Block>, j: nat, b: Block)
    requires j < |l| && l[j].len > 0 && b.len > 0 && Range(b.base, b.len) !! Pages(l)
    ensures End(l[j]) <= b.base || End(b) <= l[j].base
  {
    hide Pages;
    var p := if l[j].base < b.base then b.base else l[j].base;
    PageIn(l, p);
    assert p < End(l[j]) ==> p in Pages(l);
    assert p < End(b) ==> p in Range(b.base, b.len);
  }

  /** Each block ends before the next one begins. */
  ghost predicate Increasing(l: seq<Block>) {
    (forall i :: 0 <= i < |l| ==> l[i].len > 0) && forall i, j :: 0 <= i < j < |l| ==> End(l[i]) < l[j].base
  }

  lemma CanonicalIsIncreasing(l: seq<Block>)
    ensures Canonical(l) <==> Increasing(l)
  {
    if Canonical(l) {
      forall i, j | 0 <= i < j < |l| ensures End(l[i]) < l[j].base {
        assert Apart(l[i], l[j]) && l[i].base < l[j].base;
      }
    }
  }

  lemma Spliced(l: seq<Block>, lo: nat, hi: nat, u: Block)
    requires Increasing(l) && lo <= hi <= |l| && u.len > 0
    requires (forall i :: 0 <= i < lo ==> End(l[i]) < u.base) && (forall i :: hi <= i < |l| ==> End(u) < l[i].base)
    ensures Increasing(l[..lo] + [u] + l[hi..])
  {
    var m := l[..lo] + [u] + l[hi..];
    assert forall i :: 0 <= i < |m| ==> m[i] == if i < lo then l[i] else if i == lo then u else l[i - lo - 1 + hi];
    forall i, j | 0 <= i < j < |m| ensures End(m[i]) < m[j].base {
      assert j < lo || lo < i ==> End(m[i]) < m[j].base;
    }
  }

  lemma FreedCanonical(l: seq<Block>, k: nat, b: Block)
    requires Canonical(l) && Fits(l, k, b)
    ensures Canonical(Freed(l, k, b))
  {
    var lo, hi, u := Lo(l, k, b), Hi(l, k, b), Grown(l, k, b);
    assert forall i :: 0 <= i < lo ==> End(l[i]) < u.base by {
      if lo < k { assert forall i :: 0 <= i < lo ==> Apart(l[i], l[k - 1]); }
    }
    assert forall i :: hi <= i < |l| ==> End(u) < l[i].base by {
      if k < hi { assert forall i :: hi <= i < |l| ==> Apart(l[k], l[i]); }
    }
    CanonicalIsIncreasing(l);
    Spliced(l, lo, hi, u);
    CanonicalIsIncreasing(Freed(l, k, b));
  }

  /** Freeing adds exactly the pages of the block. */
  lemma FreedPages(l: seq<Block>, k: nat, b: Block)
    requires Canonical(l) && Fits(l, k, b)
    ensures Pages(Freed(l, k, b)) == Pages(l) + Range(b.base, b.len)
  {
    hide Pages, Range;
    var lo, hi, u := Lo(l, k, b), Hi(l, k, b), Grown(l, k, b);
    var rest := l[..lo] + l[hi..];
    assert Pages(Freed(l, k, b)) == Pages(rest) + Range(u.base, u.len) by {
      assert rest[..lo] == l[..lo] && rest[lo..] == l[hi..];
      InsertedPages(rest, u, lo);
    }
    RightPages(l, k, b);
    LeftPages(l, k, b);
  }

  ghost function GrownRight(l: seq<Block>, k: nat, b: Block): Block {
    if TouchesRight(l, k, b) then Block(b.base, b.len + l[k].len) else b
  }

  lemma RightPages(l: seq<Block>, k: nat, b: Block)
    requires k <= |l|
    ensures var c := GrownRight(l, k, b);
      Pages(l[..k] + l[Hi(l, k, b)..]) + Range(c.base, c.len) == Pages(l) + Range(b.base, b.len)
  {
    hide Pages, Range;
    if TouchesRight(l, k, b) {
      RangesJoin(b, l[k]);
      PagesSplit(l, k);
    } else {
      assert l[..k] + l[k..] == l;
    }
  }

  lemma LeftPages(l: seq<Block>, k: nat, b: Block)
    requires k <= |l|
    ensures var c, u, hi := GrownRight(l, k, b), Grown(l, k, b), Hi(l, k, b);
      Pages(l[..Lo(l, k, b)] + l[hi..]) + Range(u.base, u.len) == Pages(l[..k] + l[hi..]) + Range(c.base, c.len)
  {
    hide Pages, Range;
    if TouchesLeft(l, k, b) {
      RangesJoin(l[k - 1], GrownRight(l, k, b));
      var t := l[..k] + l[Hi(l, k, b)..];
      assert t[k - 1] == l[k - 1] && t[..k - 1] + t[k..] == l[..k - 1] + l[Hi(l, k, b)..];
      PagesSplit(t, k - 1);
    }
  }

  // ---------------------------------------------------------------- relinking

  /** The fields of all blocks in memory. */
  datatype Memory = Memory(units: map<nat, nat>, next: map<nat, nat>)

  /** slob_free's first conditional: let `b` swallow the block after it, or point to it. */
  ghost function LinkRight(m: Memory, cur: nat, b: nat): Memory
    requires cur in m.next && b in m.units && m.next[cur] in m.units && m.next[cur] in m.next
  {
    var nxt := m.next[cur];
    if b + m.units[b] == nxt
    then Memory(m.units[b := m.units[b] + m.units[nxt]], m.next[b := m.next[nxt]])
    else Memory(m.units, m.next[b := nxt])
  }

  /** slob_free's second conditional: let `cur` swallow `b`, or point to it. */
  ghost function LinkLeft(m: Memory, cur: nat, b: nat): Memory
    requires cur in m.units && b in m.units && b in m.next
  {
    if cur + m.units[cur] == b
    then Memory(m.units[cur := m.units[cur] + m.units[b]], m.next[cur := m.next[b]])
    else Memory(m.units, m.next[cur := b])
  }

  /** In memory, block `b` hangs where place `k` is: it is not linked in yet but points to what follows. */
  ghost predicate Hanging(l: seq<Block>, i: nat, k: nat, hi: nat, c: Block, m: Memory) {
    && i < |l| && k <= hi <= |l| && (k == i + 1 || (k == 0 && i == |l| - 1 && hi < |l|))
    && (forall j :: 0 <= j < |l| ==> SizedAt(l, m.units, j))
    && (forall j :: 0 <= j < |l| ==> LinkedAt(l, m.next, j))
    && c.base in m.units && m.units[c.base] == c.len
    && c.base in m.next && m.next[c.base] == l[if hi < |l| then hi else 0].base
  }

  lemma LinkRightHangs(l: seq<Block>, i: nat, b: Block, m: Memory)
    requires Ring(l, m.units, m.next) && Before(l, i, b.base) && Fits(l, Rank(l, i, b.base), b) && b.base in m.units
    requires m.units[b.base] == b.len
    requires TouchesRight(l, Rank(l, i, b.base), b) ==> |l| > 1
    ensures l[i].base in m.next && m.next[l[i].base] in m.units && m.next[l[i].base] in m.next
    ensures var k := Rank(l, i, b.base);
      Hanging(l, i, k, Hi(l, k, b), GrownRight(l, k, b), LinkRight(m, l[i].base, b.base))
  {
    var k := Rank(l, i, b.base);
    var s := Succ(i, |l|);
    assert LinkedAt(l, m.next, i) && LinkedAt(l, m.next, s) && SizedAt(l, m.units, s);
    var m' := LinkRight(m, l[i].base, b.base);
    assert forall j :: 0 <= j < |l| ==> l[j].base != b.base;
    forall j | 0 <= j < |l| ensures SizedAt(l, m'.units, j) && LinkedAt(l, m'.next, j) {
      assert SizedAt(l, m.units, j) && LinkedAt(l, m.next, j);
    }
  }

  /** `l2` is `l` with the blocks from `lo` to `hi` replaced by `u`. */
  ghost predicate Replaces(l: seq<Block>, lo: nat, hi: nat, u: Block, l2: seq<Block>) {
    && lo <= hi <= |l| && |l2| == lo + 1 + |l| - hi
    && (forall j :: 0 <= j < lo ==> l2[j] == l[j]) && l2[lo] == u
    && (forall j :: lo < j < |l2| ==> l2[j] == l[j - lo - 1 + hi])
  }

  /** The field updates that a replacement needs: `u` gets its fields, and the block before it points to it. */
  ghost predicate Rewired(l: seq<Block>, lo: nat, hi: nat, u: Block, l2: seq<Block>, m: Memory, m2: Memory)
    requires Replaces(l, lo, hi, u, l2)
  {
    && u.base in m2.units && m2.units[u.base] == u.len
    && u.base in m2.next && m2.next[u.base] == l2[Succ(lo, |l2|)].base
    && forall j :: 0 <= j < |l| && (j < lo || hi <= j) ==> RewiredAt(l, lo, u, m, m2, j)
  }

  ghost predicate RewiredAt(l: seq<Block>, lo: nat, u: Block, m: Memory, m2: Memory, j: nat)
    requires j < |l|
  {
    var a := l[j].base;
    && SizedAt(l, m.units, j) && LinkedAt(l, m.next, j)
    && a in m2.units && m2.units[a] == m.units[a]
    && a in m2.next && m2.next[a] == if j == (if lo > 0 then lo - 1 else |l| - 1) then u.base else m.next[a]
  }

  lemma RewiredCloses(l: seq<Block>, lo: nat, hi: nat, u: Block, l2: seq<Block>, m: Memory, m2: Memory, j: nat)
    requires Replaces(l, lo, hi, u, l2) && Rewired(l, lo, hi, u, l2, m, m2) && j < |l2|
    ensures SizedAt(l2, m2.units, j) && LinkedAt(l2, m2.next, j)
  {
    if j != lo {
      var o := if j < lo then j else j - lo - 1 + hi;
      assert RewiredAt(l, lo, u, m, m2, o);
    }
  }

  lemma FreedReplaces(l: seq<Block>, k: nat, b: Block)
    requires k <= |l|
    ensures Lo(l, k, b) <= Hi(l, k, b) <= |l| && Replaces(l, Lo(l, k, b), Hi(l, k, b), Grown(l, k, b), Freed(l, k, b))
  {
    hide Grown;
    assert Lo(l, k, b) <= Hi(l, k, b) <= |l|;
  }

  lemma LinkLeftCloses(l: seq<Block>, i: nat, k: nat, b: Block, m: Memory)
    requires Canonical(l) && Fits(l, k, b) && Hanging(l, i, k, Hi(l, k, b), GrownRight(l, k, b), m)
    ensures SizedAt(l, m.units, i)
    ensures Ring(Freed(l, k, b), LinkLeft(m, l[i].base, b.base).units, LinkLeft(m, l[i].base, b.base).next)
  {
    hide LinkLeft, Fits, Canonical, Rewired, Freed, Grown, Lo, Hi;
    assert SizedAt(l, m.units, i);
    FreedCanonical(l, k, b);
    FreedReplaces(l, k, b);
    var m2, l2 := LinkLeft(m, l[i].base, b.base), Freed(l, k, b);
    var lo, hi, u := Lo(l, k, b), Hi(l, k, b), Grown(l, k, b);
    LinkLeftRewires(l, i, k, b, m, lo, hi, u, l2, m2);
    forall j | 0 <= j < |l2| ensures SizedAt(l2, m2.units, j) && LinkedAt(l2, m2.next, j) {
      RewiredCloses(l, lo, hi, u, l2, m, m2, j);
    }
  }

  lemma LinkLeftRewires(l: seq<Block>, i: nat, k: nat, b: Block, m: Memory, lo: nat, hi: nat, u: Block, l2: seq<Block>,
                        m2: Memory)
    requires Canonical(l) && Fits(l, k, b) && Hanging(l, i, k, hi, GrownRight(l, k, b), m)
    requires lo == Lo(l, k, b) && hi == Hi(l, k, b) && u == Grown(l, k, b) && Replaces(l, lo, hi, u, l2)
    requires SizedAt(l, m.units, i) && m2 == LinkLeft(m, l[i].base, b.base)
    ensures Rewired(l, lo, hi, u, l2, m, m2)
  {
    NewRewired(l, i, k, b, m, lo, hi, u, l2, m2);
    forall j | 0 <= j < |l| && (j < lo || hi <= j) ensures RewiredAt(l, lo, u, m, m2, j) {
      OthersRewired(l, i, k, b, m, lo, hi, u, m2, j);
    }
  }

  lemma OthersRewired(l: seq<Block>, i: nat, k: nat, b: Block, m: Memory, lo: nat, hi: nat, u: Block, m2: Memory,
                      j: nat)
    requires Canonical(l) && Fits(l, k, b) && Hanging(l, i, k, hi, GrownRight(l, k, b), m)
    requires lo == Lo(l, k, b) && hi == Hi(l, k, b) && u == Grown(l, k, b) && j < |l| && (j < lo || hi <= j)
    requires SizedAt(l, m.units, i) && m2 == LinkLeft(m, l[i].base, b.base)
    ensures RewiredAt(l, lo, u, m, m2, j)
  {
    assert SizedAt(l, m.units, j) && LinkedAt(l, m.next, j);
    assert l[j].base != b.base;
    assert j != i ==> l[j].base != l[i].base;
  }

  lemma NewRewired(l: seq<Block>, i: nat, k: nat, b: Block, m: Memory, lo: nat, hi: nat, u: Block, l2: seq<Block>,
                   m2: Memory)
    requires Canonical(l) && Fits(l, k, b) && Hanging(l, i, k, hi, GrownRight(l, k, b), m)
    requires lo == Lo(l, k, b) && hi == Hi(l, k, b) && u == Grown(l, k, b) && Replaces(l, lo, hi, u, l2)
    requires SizedAt(l, m.units, i) && m2 == LinkLeft(m, l[i].base, b.base)
    ensures u.base in m2.units && m2.units[u.base] == u.len
    ensures u.base in m2.next && m2.next[u.base] == l2[Succ(lo, |l2|)].base
  {
    hide Canonical, Freed;
    var cur := l[i].base;
    assert SizedAt(l, m.units, i);
    if TouchesLeft(l, k, b) {
      assert cur + m.units[cur] == b.base && m2.next[cur] == m.next[b.base];
    } else {
      assert cur + m.units[cur] != b.base && m2.next[b.base] == m.next[b.base];
    }
  }

  // ---------------------------------------------------------------- allocating

  /** slob_alloc on a block it can use: hand out the front of `cur`, or all of it. */
  ghost function Took(m: Memory, prev: nat, cur: nat, u: nat): Memory
    requires prev in m.next && cur in m.next && cur in m.units && u <= m.units[cur]
  {
    if m.units[cur] == u then Memory(m.units, m.next[prev := m.next[cur]])
    else
      var rest := cur + u;
      var next := m.next[prev := rest];  // when prev is cur, this is what the next line reads
      Memory(m.units[rest := m.units[cur] - u][cur := u], next[rest := next[cur]])
  }

  /**
    Taking `u` units from a block of any ring leaves the ring of what remains, unless that block is the only one
    and is taken whole.
  */
  /** The front of the only block is cut off. */
  lemma TookOnly(l: seq<Block>, u: nat, m: Memory)
    requires |l| == 1 && 0 < u < l[0].len && SizedAt(l, m.units, 0) && LinkedAt(l, m.next, 0)
    ensures var l2, m2 := Carved(l, 0, u, 0), Took(m, l[0].base, l[0].base, u);
      |l2| == 1 && SizedAt(l2, m2.units, 0) && LinkedAt(l2, m2.next, 0)
  {
    assert Carved(l, 0, u, 0) == [Block(l[0].base + u, l[0].len - u)];
  }

  lemma TookRing(l: seq<Block>, p: nat, u: nat, m: Memory)
    requires Ring(l, m.units, m.next) && p < |l| && 0 < u <= l[Succ(p, |l|)].len && (|l| > 1 || u < l[0].len)
    ensures var c := Succ(p, |l|);
      && SizedAt(l, m.units, c) && LinkedAt(l, m.next, c) && LinkedAt(l, m.next, p)
      && Ring(Carved(l, c, u, c), Took(m, l[p].base, l[c].base, u).units, Took(m, l[p].base, l[c].base, u).next)
  {
    var c := Succ(p, |l|);
    assert SizedAt(l, m.units, c) && LinkedAt(l, m.next, c) && LinkedAt(l, m.next, p);
    hide Separate, Loose, Sorted, Carved, Took;
    SeparateLoose(l);
    CarvedShape(l, c, u, c);
    CarvedSorted(l, c, u);
    var l2, m2 := Carved(l, c, u, c), Took(m, l[p].base, l[c].base, u);
    if |l| == 1 {
      TookOnly(l, u, m);
    } else if l[c].len == u {
      TookAll(l, p, u, m, l2, m2);
    } else {
      TookFront(l, p, u, m, l2, m2);
    }
  }

  /** After taking `u` units behind place `p`, some ring holds what was free except those units. */
  ghost predicate LeftTheRing(l: seq<Block>, p: nat, u: nat, m: Memory) {
    p < |l| && exists l2 :: Ring(l2, m.units, m.next) && Pages(l2) == Pages(l) - Range(l[Succ(p, |l|)].base, u)
  }

  /**
    For every ring, place and size: the units handed out leave the ring if and only if the block was not the only
    one or was not taken whole.  If they do not leave, the ring is the one before, with the block still in it.
    The new `slobfree`, the block before, is still in the ring if and only if there was another block.
  */
  lemma TookExactly(l: seq<Block>, p: nat, u: nat, m: Memory)
    requires Ring(l, m.units, m.next) && p < |l| && 0 < u <= l[Succ(p, |l|)].len
    ensures var c := Succ(p, |l|); var prev, cur := l[p].base, l[c].base;
      && prev in m.next && cur in m.next && cur in m.units && m.units[cur] == l[c].len
      && var m2 := Took(m, prev, cur, u);
      && (LeftTheRing(l, p, u, m2) <==> |l| > 1 || u < l[c].len)
      && (|l| == 1 && u == l[c].len ==> m2 == m)
      && (prev in Heads(Carved(l, c, u, c)) <==> |l| > 1)
  {
    var c := Succ(p, |l|);
    assert SizedAt(l, m.units, c) && LinkedAt(l, m.next, c) && LinkedAt(l, m.next, p);
    var m2 := Took(m, l[p].base, l[c].base, u);
    CarvedPages(l, c, u, c);
    if |l| > 1 || u < l[c].len {
      TookRing(l, p, u, m);
    } else {
      LastBlockStays(m, l[c].base);
      NothingLeft(l, u);
      forall l2 | Ring(l2, m2.units, m2.next) ensures Pages(l2) != {} {
        HeadInPages(l2, l2[0]);
      }
    }
    FollowsOn(l, p, u);
  }

  lemma NothingLeft(l: seq<Block>, u: nat)
    requires |l| == 1 && u == l[0].len
    ensures Pages(l) - Range(l[0].base, u) == {}
  {
    assert l == [l[0]];
    PagesOne(l[0]);
  }

  lemma HeadInPages(l: seq<Block>, b: Block)
    requires b in l && b.len > 0
    ensures b.base in Pages(l)
  {
    PageIn(l, b.base);
  }

  lemma FollowsOn(l: seq<Block>, p: nat, u: nat)
    requires Canonical(l) && p < |l| && 0 < u <= l[Succ(p, |l|)].len
    ensures l[p].base in Heads(Carved(l, Succ(p, |l|), u, Succ(p, |l|))) <==> |l| > 1
  {
    var c := Succ(p, |l|);
    CarvedHeads(l, c, u, c);
    assert l[p] in l && l[c] in l;
    assert p < c || c < p ==> l[p].base != l[c].base;
  }

  lemma TookWhole(l: seq<Block>, p: nat, u: nat, m: Memory, l2: seq<Block>, m2: Memory, j: nat)
    requires Ring(l, m.units, m.next) && |l| > 1 && p < |l|
    requires LinkedAt(l, m.next, p) && LinkedAt(l, m.next, Succ(p, |l|))
    requires l2 == l[..Succ(p, |l|)] + l[Succ(p, |l|) + 1..] && j < |l2|
    requires m2 == Memory(m.units, m.next[l[p].base := m.next[l[Succ(p, |l|)].base]])
    ensures SizedAt(l2, m2.units, j) && LinkedAt(l2, m2.next, j)
  {
    var c := Succ(p, |l|);
    var o := if j < c then j else j + 1;
    assert SizedAt(l, m.units, o) && LinkedAt(l, m.next, o);
    assert o != p ==> l[o].base != l[p].base;
  }

  lemma TookAll(l: seq<Block>, p: nat, u: nat, m: Memory, l2: seq<Block>, m2: Memory)
    requires Ring(l, m.units, m.next) && |l| > 1 && p < |l| && u == l[Succ(p, |l|)].len
    requires var c := Succ(p, |l|); SizedAt(l, m.units, c) && LinkedAt(l, m.next, c) && LinkedAt(l, m.next, p)
    requires l2 == Carved(l, Succ(p, |l|), u, Succ(p, |l|)) && m2 == Took(m, l[p].base, l[Succ(p, |l|)].base, u)
    ensures l2 != [] && forall j :: 0 <= j < |l2| ==> SizedAt(l2, m2.units, j) && LinkedAt(l2, m2.next, j)
  {
    hide Ring, LinkedAt;
    forall j | 0 <= j < |l2| ensures SizedAt(l2, m2.units, j) && LinkedAt(l2, m2.next, j) {
      TookWhole(l, p, u, m, l2, m2, j);
    }
  }

  lemma TookFront(l: seq<Block>, p: nat, u: nat, m: Memory, l2: seq<Block>, m2: Memory)
    requires Ring(l, m.units, m.next) && |l| > 1 && p < |l| && 0 < u < l[Succ(p, |l|)].len
    requires var c := Succ(p, |l|); SizedAt(l, m.units, c) && LinkedAt(l, m.next, c) && LinkedAt(l, m.next, p)
    requires l2 == Carved(l, Succ(p, |l|), u, Succ(p, |l|)) && m2 == Took(m, l[p].base, l[Succ(p, |l|)].base, u)
    ensures forall j :: 0 <= j < |l2| ==> SizedAt(l2, m2.units, j) && LinkedAt(l2, m2.next, j)
  {
    hide Took, Carved, Ring;
    var c := Succ(p, |l|);
    var rest := Block(l[c].base + u, l[c].len - u);
    FrontReplaced(l, p, u, m, l2, m2);
    forall j | 0 <= j < |l| && (j < c || c + 1 <= j) ensures RewiredAt(l, c, rest, m, m2, j) {
      OthersStay(l, p, u, m, m2, j);
    }
    forall j | 0 <= j < |l2| ensures SizedAt(l2, m2.units, j) && LinkedAt(l2, m2.next, j) {
      RewiredCloses(l, c, c + 1, rest, l2, m, m2, j);
    }
  }

  lemma FrontReplaced(l: seq<Block>, p: nat, u: nat, m: Memory, l2: seq<Block>, m2: Memory)
    requires Ring(l, m.units, m.next) && |l| > 1 && p < |l| && 0 < u < l[Succ(p, |l|)].len
    requires var c := Succ(p, |l|); SizedAt(l, m.units, c) && LinkedAt(l, m.next, c) && LinkedAt(l, m.next, p)
    requires l2 == Carved(l, Succ(p, |l|), u, Succ(p, |l|)) && m2 == Took(m, l[p].base, l[Succ(p, |l|)].base, u)
    ensures var c := Succ(p, |l|);
      var rest := Block(l[c].base + u, l[c].len - u);
      && Replaces(l, c, c + 1, rest, l2)
      && rest.base in m2.units && m2.units[rest.base] == rest.len
      && rest.base in m2.next && m2.next[rest.base] == l2[Succ(c, |l2|)].base
  {
    var c := Succ(p, |l|);
    FrontShape(l, c, u, l2);
    FrontFields(m, l[p].base, l[c].base, u, l[c].len, l[Succ(c, |l|)].base);
  }

  lemma FrontShape(l: seq<Block>, c: nat, u: nat, l2: seq<Block>)
    requires |l| > 1 && c < |l| && 0 < u < l[c].len && l2 == Carved(l, c, u, c)
    ensures Replaces(l, c, c + 1, Block(l[c].base + u, l[c].len - u), l2)
    ensures l2[Succ(c, |l2|)].base == l[Succ(c, |l|)].base
  {
    var rest := l[..c] + l[c + 1..];
    assert rest[..c] == l[..c] && rest[c..] == l[c + 1..];
  }

  lemma FrontFields(m: Memory, prev: nat, cur: nat, u: nat, len: nat, after: nat)
    requires prev != cur && prev in m.next && cur in m.next && cur in m.units && m.units[cur] == len
    requires m.next[cur] == after && 0 < u < len
    ensures var m2 := Took(m, prev, cur, u);
      cur + u in m2.units && m2.units[cur + u] == len - u && cur + u in m2.next && m2.next[cur + u] == after
  {
  }

  lemma OthersStay(l: seq<Block>, p: nat, u: nat, m: Memory, m2: Memory, j: nat)
    requires Ring(l, m.units, m.next) && |l| > 1 && p < |l| && 0 < u < l[Succ(p, |l|)].len && j < |l|
    requires j != Succ(p, |l|)
    requires var c := Succ(p, |l|); SizedAt(l, m.units, c) && LinkedAt(l, m.next, c) && LinkedAt(l, m.next, p)
    requires m2 == Took(m, l[p].base, l[Succ(p, |l|)].base, u)
    ensures var c := Succ(p, |l|); RewiredAt(l, c, Block(l[c].base + u, l[c].len - u), m, m2, j)
  {
    var c := Succ(p, |l|);
    assert SizedAt(l, m.units, j) && LinkedAt(l, m.next, j);
    assert Apart(l[j], l[c]);
    assert j != p ==> l[j].base != l[p].base;
  }

  /** A ring of one block that is taken whole still holds it: the pointer update has no effect. */
  lemma LastBlockStays(m: Memory, a: nat)
    requires a in m.units && a in m.next && m.next[a] == a
    ensures Took(m, a, a, m.units[a]) == m
  {
    assert m.next[a := a] == m.next;
  }
}
