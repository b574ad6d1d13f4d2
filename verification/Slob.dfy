/**
  The SLOB heap (kern/mm/kmalloc.c): slob_alloc and slob_free on the ring, and kmalloc and kfree for objects
  smaller than a page.  Addresses are counted in units of eight bytes; a page is 512 of them.
*/
module Slob {
  import opened Options
  import opened FreeLists
  import opened SlobRing

  const UNIT: nat := 8
  const PAGE_SIZE: nat := 4096
  const PAGE_UNITS: nat := 512

  /** SLOB_UNITS */
  function Units(size: nat): nat {
    (size + UNIT - 1) / UNIT
  }

  ghost predicate InUse(p: nat, b: nat, live: map<nat, nat>)
    requires b in live
  {
    b <= p < b + live[b]
  }

  /** The units of all live blocks. */
  ghost function Used(live: map<nat, nat>): set<nat> {
    set b, p: nat | b in live && b <= p < b + live[b] && InUse(p, b, live) :: p
  }

  ghost predicate Disjoint(live: map<nat, nat>, free: set<nat>) {
    && (forall b :: b in live ==> live[b] >= 1 && Range(b, live[b]) !! free)
    && (forall b, c :: b in live && c in live && b != c ==> Range(b, live[b]) !! Range(c, live[c]))
  }

  /** Nothing the heap manages touches the arena block. */
  ghost predicate Isolated(arena: nat, managed: set<nat>) {
    arena + 1 !in managed && (arena > 0 ==> arena - 1 !in managed)
  }

  /** The heap's units are split between the ring and the live blocks; the arena block stays in the ring. */
  ghost predicate Partition(l: seq<Block>, live: map<nat, nat>, managed: set<nat>, arena: nat) {
    && Disjoint(live, Pages(l)) && Pages(l) + Used(live) == managed
    && Block(arena, 1) in l && Isolated(arena, managed)
  }

  /** Live blocks still carry their size. */
  ghost predicate Headers(live: map<nat, nat>, units: map<nat, nat>) {
    forall b :: b in live ==> b in units && units[b] == live[b]
  }

  ghost predicate SameOutside(s: set<nat>, units: map<nat, nat>, units': map<nat, nat>) {
    forall a :: a !in s && a in units ==> a in units' && units'[a] == units[a]
  }

  /** Going round the ring from behind the block at `from`, the first with room for `u` units comes after place `p`. */
  ghost predicate NextFit(l: seq<Block>, from: nat, u: nat, p: nat) {
    p < |l| && exists s :: 0 <= s < |l| && l[s].base == from && PassedOver(l, s, u, p)
  }

  ghost predicate PassedOver(l: seq<Block>, s: nat, u: nat, p: nat)
    requires s < |l| && p < |l|
  {
    l[Succ(p, |l|)].len >= u && NoneOnTheWay(l, s, u, Succ(p, |l|))
  }

  /** No block on the way from behind place `s` to place `c` has room. */
  ghost predicate NoneOnTheWay(l: seq<Block>, s: nat, u: nat, c: nat)
    requires s < |l| && c < |l|
  {
    forall j :: 0 <= j < |l| && Distance(j, s, |l|) > Distance(c, s, |l|) ==> l[j].len < u
  }

  lemma WayStarts(l: seq<Block>, s: nat, u: nat)
    requires s < |l|
    ensures NoneOnTheWay(l, s, u, Succ(s, |l|))
  {
  }

  lemma WayGoesOn(l: seq<Block>, s: nat, u: nat, c: nat)
    requires s < |l| && c < |l| && NoneOnTheWay(l, s, u, c) && l[c].len < u
    ensures c != s ==> NoneOnTheWay(l, s, u, Succ(c, |l|)) && Distance(Succ(c, |l|), s, |l|) < Distance(c, s, |l|)
    ensures c == s ==> forall j :: 0 <= j < |l| ==> l[j].len < u
  {
  }

  /** That block starts at `base`, and the one before it at `prev`. */
  ghost predicate ServedBy(l: seq<Block>, from: nat, u: nat, base: nat, prev: nat) {
    exists p: nat :: NextFit(l, from, u, p) && l[Succ(p, |l|)].base == base && l[p].base == prev
  }

  /** `base` is where the run of units of which the new page is part begins. */
  ghost predicate StartsRun(free: set<nat>, base: nat, page: nat) {
    base <= page && Range(base, page - base) <= free && (base > 0 ==> base - 1 !in free)
  }

  class Heap {
    var units: map<nat, nat>    // b->units
    var next: map<nat, nat>     // b->next
    var slobfree: nat
    const arena: nat
    ghost var l: seq<Block>
    ghost var live: map<nat, nat>
    ghost var managed: set<nat>

    ghost predicate Valid()
      reads this
    {
      && Ring(l, units, next) && slobfree in Heads(l)
      && Partition(l, live, managed, arena) && Headers(live, units)
    }

    /** The statically initialised arena. */
    constructor (arena: nat)
      ensures Valid() && live == map[] && managed == {arena} && this.arena == arena
    {
      this.arena := arena;
      units, next, slobfree := map[arena := 1], map[arena := arena], arena;
      l, live, managed := [Block(arena, 1)], map[], {arena};
      PagesOne(Block(arena, 1));
      assert Range(arena, 1) == {arena};
    }

    /** One turn around the ring: the first block after slobfree that has room, and the block before it. */
    method Search(u: nat) returns (found: bool, prev: nat, cur: nat, ghost p: nat)
      requires Ring(l, units, next) && slobfree in Heads(l)
      ensures !found ==> forall j :: 0 <= j < |l| ==> l[j].len < u
      ensures found ==> p < |l| && prev == l[p].base && cur == l[Succ(p, |l|)].base && l[Succ(p, |l|)].len >= u
      ensures found ==> NextFit(l, slobfree, u, p)
      ensures u <= 1 ==> found && prev == slobfree && slobfree in next && cur == next[slobfree]
    {
      ghost var n := |l|;
      ghost var s := Index(l, slobfree);
      p := s;
      prev := slobfree;
      assert LinkedAt(l, next, p);
      cur := next[prev];
      ghost var c := Succ(p, n);
      WayStarts(l, s, u);
      hide Distance, NoneOnTheWay;
      while true
        invariant p < n && c == Succ(p, n) && prev == l[p].base && cur == l[c].base
        invariant NoneOnTheWay(l, s, u, c)
        invariant u <= 1 ==> prev == slobfree && slobfree in next && cur == next[slobfree]
        decreases Distance(c, s, n)
      {
        assert SizedAt(l, units, c) && LinkedAt(l, next, c);
        if units[cur] >= u {
          assert PassedOver(l, s, u, p) && NextFit(l, slobfree, u, p);
          return true, prev, cur, p;
        }
        WayGoesOn(l, s, u, c);
        if cur == slobfree {
          assert c == s;
          return false, prev, cur, p;
        }
        prev, cur := cur, next[cur];
        p, c := c, Succ(c, n);
      }
    }

    /** slob_free's search for the block after which `b` belongs. */
    method FindPlace(b: nat) returns (cur: nat, ghost i: nat)
      requires Ring(l, units, next) && slobfree in Heads(l) && b !in Heads(l)
      ensures Before(l, i, b) && cur == l[i].base
    {
      ghost var n := |l|;
      ghost var t := PlaceExists(l, b);
      i := Index(l, slobfree);
      cur := slobfree;
      assert LinkedAt(l, next, i);
      while !StopsAt(cur, next[cur], b)
        invariant i < n && cur == l[i].base && LinkedAt(l, next, i)
        decreases Distance(i, t, n)
      {
        StopsThere(l, i, b);
        cur := next[cur];
        i := Succ(i, n);
      }
      StopsThere(l, i, b);
    }

    /** slob_free's two conditionals. */
    method Link(cur: nat, b: nat)
      requires cur in units && cur in next && b in units && next[cur] in units && next[cur] in next
      modifies this`units, this`next, this`slobfree
      ensures Memory(units, next) == LinkLeft(LinkRight(Memory(old(units), old(next)), cur, b), cur, b)
      ensures slobfree == cur
    {
      if b + units[b] == next[cur] {
        units := units[b := units[b] + units[next[cur]]];
        next := next[b := next[next[cur]]];
      } else {
        next := next[b := next[cur]];
      }
      if cur + units[cur] == b {
        units := units[cur := units[cur] + units[b]];
        next := next[cur := next[b]];
      } else {
        next := next[cur := b];
      }
      slobfree := cur;
    }

    /** slob_free: give the ring the block at `b`, of `size` bytes, or of the size it carries. */
    method Free(b: nat, size: nat)
      requires Ring(l, units, next) && slobfree in Heads(l) && (size == 0 ==> b in units)
      requires Freeable(l, arena, Block(b, if size == 0 then units[b] else Units(size)))
      modifies this`units, this`next, this`slobfree, this`l
      ensures Ring(l, units, next) && slobfree in Heads(l) && Block(arena, 1) in l
      ensures var len := if size == 0 then old(units[b]) else Units(size);
        Pages(l) == old(Pages(l)) + Range(b, len) && exists j :: 0 <= j < |l| && l[j].len >= len
      ensures SameOutside(Pages(l), old(units), units)
      ensures exists i: nat :: Before(old(l), i, b) && slobfree == old(l)[i].base
    {
      if size != 0 {
        units := units[b := Units(size)];
      }
      ghost var block := Block(b, units[b]);
      NotAHead(l, old(units), units, next, block);
      var cur;
      ghost var i;
      cur, i := FindPlace(b);
      ghost var m := Memory(units, next);
      ghost var l' := FreedRing(l, i, block, arena, m);
      Link(cur, b);
      l := l';
    }

    /** slob_alloc once it has found a block: unlink it, or cut its front off. */
    method Take(prev: nat, cur: nat, u: nat, ghost p: nat)
      requires Ring(l, units, next) && Block(arena, 1) in l && p < |l| && prev == l[p].base
      requires cur == l[Succ(p, |l|)].base
      requires 1 <= u <= l[Succ(p, |l|)].len && cur != arena
      modifies this`units, this`next, this`slobfree, this`l
      ensures Ring(l, units, next) && slobfree in Heads(l) && Block(arena, 1) in l
      ensures Range(cur, u) <= old(Pages(l)) && Pages(l) == old(Pages(l)) - Range(cur, u)
      ensures cur in units && units[cur] == u && SameOutside(old(Pages(l)), old(units), units) && slobfree == prev
    {
      hide Ring, Pages, Range, Heads;
      ghost var l' := TakenRing(l, p, u, arena, Memory(units, next));
      CutOff(prev, cur, u);
      l := l';
    }

    /** The writes to memory that this takes. */
    method CutOff(prev: nat, cur: nat, u: nat)
      requires prev in next && cur in next && cur in units && u <= units[cur]
      modifies this`units, this`next, this`slobfree
      ensures Memory(units, next) == old(Took(Memory(units, next), prev, cur, u)) && slobfree == prev
    {
      if units[cur] == u {
        next := next[prev := next[cur]];
      } else {
        next := next[prev := cur + u];
        units := units[next[prev] := units[cur] - u];
        next := next[next[prev] := next[cur]];
        units := units[cur := u];
      }
      slobfree := prev;
    }

    /** The page fetched when no block has room becomes part of the heap. */
    method Grow(page: nat)
      requires Valid() && Range(page, PAGE_UNITS) !! managed && Isolated(arena, Range(page, PAGE_UNITS))
      modifies this
      ensures Valid() && live == old(live) && managed == old(managed) + Range(page, PAGE_UNITS)
      ensures Pages(l) == old(Pages(l)) + Range(page, PAGE_UNITS)
      ensures exists j :: 0 <= j < |l| && l[j].len >= PAGE_UNITS
    {
      PageIsFreeable(l, live, managed, arena, page);
      Free(page, PAGE_SIZE);
      GrownPartition(old(l), l, live, managed, arena, page);
      HeadersKept(live, old(units), units, l);
      managed := managed + Range(page, PAGE_UNITS);
    }

    /** What the page allocator may hand to the heap: units it does not manage, away from the arena. */
    ghost predicate Fetchable(page: Option<nat>)
      reads this
    {
      page.Some? ==> Range(page.value, PAGE_UNITS) !! managed && Isolated(arena, Range(page.value, PAGE_UNITS))
    }

    /** A request for one unit is given the arena block. */
    predicate TakesArena(u: nat)
      reads this
    {
      u == 1 && slobfree in next && next[slobfree] == arena
    }

    /**
      slob_alloc with align 0; `page` is what fetching a page would return, and it is fetched at most once.  The block
      handed out is the front of the next one in the ring that has room, and the next search begins where this one
      ended.  A request for one unit may be given the arena block; the invariant is then lost.
    */
    method Alloc(size: nat, page: Option<nat>) returns (r: Option<nat>)
      requires Valid() && size + UNIT < PAGE_SIZE && size > 0 && Fetchable(page)
      modifies this
      ensures old(TakesArena(Units(size))) ==> r == Some(arena) && LosesArena(old(Memory(units, next)), old(slobfree))
      ensures !old(TakesArena(Units(size))) ==> Valid()
      ensures r.None? <==> page.None? && NoRoomFor(old(Pages(l)), Units(size))
      ensures r.None? ==> live == old(live) && managed == old(managed)
      ensures r.Some? && !old(TakesArena(Units(size))) ==>
        && r.value !in old(live) && live == old(live)[r.value := Units(size)]
        && Range(r.value, Units(size)) !! Used(old(live))
        && managed == old(managed) + if NoRoomFor(old(Pages(l)), Units(size)) then Range(page.value, PAGE_UNITS) else {}
      ensures r.Some? ==>
        if NoRoomFor(old(Pages(l)), Units(size)) then StartsRun(old(Pages(l)), r.value, page.value)
        else ServedBy(old(l), old(slobfree), Units(size), r.value, slobfree)
    {
      var u := Units(size);
      ghost var free := Pages(l);
      var found, prev, cur;
      ghost var p;
      found, prev, cur, p := Search(u);
      if !found {
        NoFit(l, u);
        assert NoRoomFor(free, u);
        if page.None? {
          return None;
        }
        Grow(page.value);
        found, prev, cur, p := Search(u);
        assert found;
        PageServes(free, l, p, u, page.value);
        OnlyArena(l, live, managed, arena, p);
        HandOut(prev, cur, u, p);
      } else {
        FoundRoom(l, p, u);
        assert ServedBy(l, slobfree, u, cur, prev);
        OnlyArena(l, live, managed, arena, p);
        if TakesArena(u) {
          InMemory(l, units, next, p);
          CutOff(prev, cur, u);
        } else {
          HandOut(prev, cur, u, p);
        }
      }
      return Some(cur);
    }

    /** The memory is that after the arena block was cut out behind `prev`. */
    ghost predicate LosesArena(m: Memory, prev: nat)
      reads this
    {
      prev in m.next && arena in m.next && arena in m.units && 1 <= m.units[arena]
      && Memory(units, next) == Took(m, prev, arena, 1) && slobfree == prev
    }

    method HandOut(prev: nat, cur: nat, u: nat, ghost p: nat)
      requires Valid() && p < |l| && prev == l[p].base && cur == l[Succ(p, |l|)].base && 1 <= u <= l[Succ(p, |l|)].len
      requires cur != arena
      modifies this
      ensures Valid() && managed == old(managed) && cur !in old(live) && live == old(live)[cur := u]
      ensures Range(cur, u) !! Used(old(live)) && Range(cur, u) <= old(Pages(l)) && slobfree == prev
    {
      ghost var was := l;
      Take(prev, cur, u, p);
      TakenPartition(was, l, live, managed, arena, cur, u);
      HeadersKept(live, old(units), units, was);
      live := live[cur := u];
    }

    /** kfree of a small object: its header says how large it is. */
    method Kfree(block: nat)
      requires Valid() && block > 0 && block - 1 in live
      modifies this
      ensures Valid() && live == old(live) - {block - 1} && managed == old(managed)
      ensures exists i: nat :: Before(old(l), i, block - 1) && slobfree == old(l)[i].base
    {
      var b := block - 1;
      ghost var was := l;
      LiveIsFreeable(l, live, managed, arena, b);
      Free(b, 0);
      FreedPartition(was, l, live, managed, arena, b);
      HeadersKept(live - {b}, old(units), units, l);
      live := live - {b};
    }

    /**
      kmalloc on its branch for small objects: the payload follows a one-unit header and lies in a live block of its
      own.  The eight largest sizes of that branch fail the assertion in slob_alloc.  Size 0 is given the arena block
      exactly if that comes next in the ring.
    */
    method Kmalloc(size: nat, page: Option<nat>) returns (r: Option<nat>, panics: bool)
      requires Valid() && size < PAGE_SIZE - UNIT && Fetchable(page)
      modifies this
      ensures old(size == 0 && TakesArena(1)) ==>
        r == Some(arena + 1) && LosesArena(old(Memory(units, next)), old(slobfree))
      ensures !old(size == 0 && TakesArena(1)) ==> Valid()
      ensures panics <==> size >= PAGE_SIZE - UNIT - UNIT
      ensures r.None? <==> panics || (page.None? && NoRoomFor(old(Pages(l)), Units(size + UNIT)))
      ensures r.None? ==> live == old(live) && managed == old(managed)
      ensures r.Some? && !old(size == 0 && TakesArena(1)) ==>
        && r.value > 0 && r.value - 1 !in old(live) && live == old(live)[r.value - 1 := 1 + Units(size)]
        && Range(r.value - 1, 1 + Units(size)) !! Used(old(live))
        && managed == old(managed) + if NoRoomFor(old(Pages(l)), Units(size + UNIT))
          then Range(page.value, PAGE_UNITS) else {}
      ensures r.Some? ==>
        && r.value > 0
        && if NoRoomFor(old(Pages(l)), Units(size + UNIT)) then StartsRun(old(Pages(l)), r.value - 1, page.value)
           else ServedBy(old(l), old(slobfree), Units(size + UNIT), r.value - 1, slobfree)
    {
      hide Partition, Ring, Headers, Used, Pages, Range, ServedBy, StartsRun;
      assert Units(size + UNIT) == 1 + Units(size);
      if size + UNIT + UNIT >= PAGE_SIZE {
        return None, true;
      }
      var m := Alloc(size + UNIT, page);
      r, panics := if m.None? then None else Some(m.value + 1), false;
    }
  }

  ghost predicate NoRoomFor(free: set<nat>, u: nat) {
    forall q: nat :: !(Range(q, u) <= free)
  }

  /** Where there was no room before, the block with room is the one that the new page is part of. */
  lemma PageServes(free: set<nat>, l: seq<Block>, p: nat, u: nat, page: nat)
    requires Separate(l) && Pages(l) == free + Range(page, PAGE_UNITS) && p < |l| && 0 < u <= l[Succ(p, |l|)].len
    requires NoRoomFor(free, u) && Range(page, PAGE_UNITS) !! free
    ensures StartsRun(free, l[Succ(p, |l|)].base, page)
  {
    var c := Succ(p, |l|);
    var b := l[c];
    assert !(Range(b.base, u) <= free);
    MembersAreMaximalRuns(l, b);
    var x :| x in Range(b.base, u) && x !in free;
    assert x in Range(b.base, b.len);
    var j := RunInBlock(l, page, PAGE_UNITS);
    MembersAreMaximalRuns(l, l[j]);
    OneMaximalRun(Pages(l), b, l[j], x);
    assert Range(b.base, page - b.base) <= Range(b.base, b.len);
  }

  lemma FoundRoom(l: seq<Block>, p: nat, u: nat)
    requires p < |l| && u <= l[Succ(p, |l|)].len
    ensures !NoRoomFor(Pages(l), u)
  {
    var b := l[Succ(p, |l|)];
    PagesSplit(l, Succ(p, |l|));
    assert Range(b.base, u) <= Range(b.base, b.len);
  }

  /** The block at the arena's address is the arena block of one unit. */
  lemma OnlyArena(l: seq<Block>, live: map<nat, nat>, managed: set<nat>, arena: nat, p: nat)
    requires Separate(l) && Partition(l, live, managed, arena) && p < |l|
    ensures l[Succ(p, |l|)].base == arena ==> l[Succ(p, |l|)].len == 1
  {
    var a :| 0 <= a < |l| && l[a] == Block(arena, 1);
  }

  lemma InMemory(l: seq<Block>, units: map<nat, nat>, next: map<nat, nat>, p: nat)
    requires Ring(l, units, next) && p < |l|
    ensures l[p].base in next && l[Succ(p, |l|)].base in next && l[Succ(p, |l|)].base in units
    ensures units[l[Succ(p, |l|)].base] == l[Succ(p, |l|)].len
  {
    var c := Succ(p, |l|);
    assert SizedAt(l, units, c) && LinkedAt(l, next, c) && LinkedAt(l, next, p);
  }

  /** A block that can be given to the ring: outside it, and not touching the arena block. */
  ghost predicate Freeable(l: seq<Block>, arena: nat, b: Block) {
    b.len > 0 && Range(b.base, b.len) !! Pages(l) && Block(arena, 1) in l && Apart(Block(arena, 1), b)
  }

  lemma NotAHead(l: seq<Block>, units: map<nat, nat>, units': map<nat, nat>, next: map<nat, nat>, b: Block)
    requires Ring(l, units, next) && b.len > 0 && Range(b.base, b.len) !! Pages(l)
    requires units' == units || units' == units[b.base := b.len]
    ensures b.base !in Heads(l) && Ring(l, units', next)
  {
    assert b.base in Range(b.base, b.len);
    HeadsArePages(l, b.base);
    forall j | 0 <= j < |l| ensures SizedAt(l, units', j) {
      assert SizedAt(l, units, j) && l[j] in l;
    }
  }

  /** Freeing after place `i` gives the ring of the old blocks and the new one, merged. */
  lemma FreedRing(l: seq<Block>, i: nat, b: Block, arena: nat, m: Memory) returns (l': seq<Block>)
    requires Ring(l, m.units, m.next) && Before(l, i, b.base) && Freeable(l, arena, b)
    requires b.base in m.units && m.units[b.base] == b.len
    ensures var cur := l[i].base;
      && cur in m.units && cur in m.next && m.next[cur] in m.units && m.next[cur] in m.next
      && var m' := LinkLeft(LinkRight(m, cur, b.base), cur, b.base);
      && Ring(l', m'.units, m'.next) && cur in Heads(l') && Block(arena, 1) in l'
      && Pages(l') == Pages(l) + Range(b.base, b.len) && (exists j :: 0 <= j < |l'| && l'[j].len >= b.len)
      && SameOutside(Pages(l'), m.units, m'.units)
  {
    hide LinkLeft, LinkRight, Freed, Grown;
    FitsThere(l, i, b);
    var k := Rank(l, i, b.base);
    assert SizedAt(l, m.units, i) && LinkedAt(l, m.next, i);
    ArenaStays(l, i, k, b, arena);
    LinkRightHangs(l, i, b, m);
    LinkLeftCloses(l, i, k, b, LinkRight(m, l[i].base, b.base));
    FreedPages(l, k, b);
    l' := Freed(l, k, b);
    LongEnough(l, k, b);
    LinkUnits(l, i, b, m);
  }

  lemma LongEnough(l: seq<Block>, k: nat, b: Block)
    requires k <= |l|
    ensures exists j :: 0 <= j < |Freed(l, k, b)| && Freed(l, k, b)[j].len >= b.len
  {
    assert Freed(l, k, b)[Lo(l, k, b)].len >= b.len;
  }

  /** Linking writes sizes only in the block itself and at the head of the one before it. */
  lemma LinkUnits(l: seq<Block>, i: nat, b: Block, m: Memory)
    requires Canonical(l) && i < |l| && b.len > 0 && b.base in m.units
    requires var cur := l[i].base; cur in m.units && cur in m.next && m.next[cur] in m.units && m.next[cur] in m.next
    ensures var cur := l[i].base;
      SameOutside(Pages(l) + Range(b.base, b.len), m.units, LinkLeft(LinkRight(m, cur, b.base), cur, b.base).units)
  {
    assert b.base in Range(b.base, b.len);
    assert l[i].base in Pages(l) by { HeadsArePages(l, l[i].base); assert l[i] in l; }
  }

  lemma ArenaStays(l: seq<Block>, i: nat, k: nat, b: Block, arena: nat)
    requires Canonical(l) && i < |l| && k == Rank(l, i, b.base) && Fits(l, k, b) && Before(l, i, b.base)
    requires Freeable(l, arena, b)
    ensures TouchesRight(l, k, b) ==> |l| > 1
    ensures Block(arena, 1) in Freed(l, k, b) && l[i].base in Heads(Freed(l, k, b))
  {
    hide Pages, Range, Canonical;
    var a :| 0 <= a < |l| && l[a] == Block(arena, 1);
    var lo, hi, u := Lo(l, k, b), Hi(l, k, b), Grown(l, k, b);
    assert TouchesRight(l, k, b) ==> a != k;
    assert TouchesLeft(l, k, b) ==> a != k - 1;
    Kept(l, lo, hi, u, a);
    PlaceKept(l, i, k, b);
  }

  lemma PlaceKept(l: seq<Block>, i: nat, k: nat, b: Block)
    requires i < |l| && k == Rank(l, i, b.base) && k <= |l| && Before(l, i, b.base)
    requires TouchesRight(l, k, b) ==> |l| > 1
    requires forall j :: k <= j < |l| ==> End(b) <= l[j].base
    requires b.len > 0
    ensures l[i].base in Heads(Freed(l, k, b))
  {
    var lo, hi, u := Lo(l, k, b), Hi(l, k, b), Grown(l, k, b);
    if lo <= i < hi {
      assert u.base == l[i].base && u in Freed(l, k, b);
    } else {
      Kept(l, lo, hi, u, i);
    }
  }

  lemma Kept(l: seq<Block>, lo: nat, hi: nat, u: Block, j: nat)
    requires lo <= hi <= |l| && j < |l| && (j < lo || hi <= j)
    ensures l[j] in l[..lo] + [u] + l[hi..] && u in l[..lo] + [u] + l[hi..]
  {
    if j < lo {
      assert l[..lo][j] == l[j];
    } else {
      assert l[hi..][j - hi] == l[j];
    }
  }

  lemma TakenRing(l: seq<Block>, p: nat, u: nat, arena: nat, m: Memory) returns (l': seq<Block>)
    requires Ring(l, m.units, m.next) && Block(arena, 1) in l && p < |l| && 1 <= u <= l[Succ(p, |l|)].len
    requires l[Succ(p, |l|)].base != arena
    ensures var prev, cur := l[p].base, l[Succ(p, |l|)].base;
      && prev in m.next && cur in m.next && cur in m.units && m.units[cur] == l[Succ(p, |l|)].len && prev != cur
      && var m' := Took(m, prev, cur, u);
      && Ring(l', m'.units, m'.next) && prev in Heads(l') && Block(arena, 1) in l'
      && Range(cur, u) <= Pages(l) && Pages(l') == Pages(l) - Range(cur, u)
      && m'.units[cur] == u && SameOutside(Pages(l), m.units, m'.units)
  {
    var c := Succ(p, |l|);
    assert SizedAt(l, m.units, c) && LinkedAt(l, m.next, c) && LinkedAt(l, m.next, p);
    OthersKept(l, p, u, arena);
    TookRing(l, p, u, m);
    CarvedPages(l, c, u, c);
    TookUnits(l, p, u, m);
    l' := Carved(l, c, u, c);
  }

  lemma OthersKept(l: seq<Block>, p: nat, u: nat, arena: nat)
    requires Canonical(l) && Block(arena, 1) in l && p < |l| && 1 <= u <= l[Succ(p, |l|)].len
    requires l[Succ(p, |l|)].base != arena
    ensures var c := Succ(p, |l|);
      |l| > 1 && p != c && l[p].base != l[c].base && Block(arena, 1) in Carved(l, c, u, c)
        && l[p].base in Heads(Carved(l, c, u, c))
  {
    var c := Succ(p, |l|);
    var a :| 0 <= a < |l| && l[a] == Block(arena, 1);
    assert a != c;
    CarvedKeeps(l, c, u, a);
    CarvedKeeps(l, c, u, p);
  }

  lemma TookUnits(l: seq<Block>, p: nat, u: nat, m: Memory)
    requires Ring(l, m.units, m.next) && p < |l| && 0 < u <= l[Succ(p, |l|)].len
    requires var c := Succ(p, |l|); SizedAt(l, m.units, c) && LinkedAt(l, m.next, c) && LinkedAt(l, m.next, p)
    ensures var c := Succ(p, |l|); var m' := Took(m, l[p].base, l[c].base, u);
      l[c].base in m'.units && m'.units[l[c].base] == u && SameOutside(Pages(l), m.units, m'.units)
  {
    var c := Succ(p, |l|);
    var mine := Range(l[c].base, l[c].len);
    assert mine <= Pages(l) by { PagesSplit(l, c); }
    assert u < l[c].len ==> l[c].base + u in mine;
    assert l[c].base in mine;
  }

  lemma CarvedKeeps(l: seq<Block>, c: nat, u: nat, j: nat)
    requires c < |l| && j < |l| && j != c && u <= l[c].len
    ensures l[j] in Carved(l, c, u, c)
  {
    var m := l[..c] + l[c + 1..];
    assert m[if j < c then j else j - 1] == l[j];
    if l[c].len != u {
      var o := if j < c then j else j - 1;
      assert (m[..c] + [Block(l[c].base + u, l[c].len - u)] + m[c..])[j] == m[o];
    }
  }

  lemma PageIsFreeable(l: seq<Block>, live: map<nat, nat>, managed: set<nat>, arena: nat, page: nat)
    requires Partition(l, live, managed, arena) && Range(page, PAGE_UNITS) !! managed
    requires Isolated(arena, Range(page, PAGE_UNITS))
    ensures Units(PAGE_SIZE) == PAGE_UNITS && Freeable(l, arena, Block(page, PAGE_UNITS))
  {
    assert arena in managed by { HeadInPages(l, Block(arena, 1)); }
    ApartFromArena(arena, Block(page, PAGE_UNITS));
  }

  /** A stretch of units that neither contains the arena nor the units beside it does not touch it. */
  lemma ApartFromArena(arena: nat, b: Block)
    requires b.len > 0 && arena !in Range(b.base, b.len) && Isolated(arena, Range(b.base, b.len))
    ensures Apart(Block(arena, 1), b)
  {
    var mine := Range(b.base, b.len);
    assert b.base <= arena < End(b) ==> arena in mine;
    assert b.base == arena + 1 ==> arena + 1 in mine;
    assert arena > 0 && End(b) == arena ==> arena - 1 in mine;
  }

  lemma GrownPartition(l: seq<Block>, l': seq<Block>, live: map<nat, nat>, managed: set<nat>, arena: nat, page: nat)
    requires Partition(l, live, managed, arena) && Range(page, PAGE_UNITS) !! managed
    requires Isolated(arena, Range(page, PAGE_UNITS))
    requires Pages(l') == Pages(l) + Range(page, PAGE_UNITS) && Block(arena, 1) in l'
    ensures Partition(l', live, managed + Range(page, PAGE_UNITS), arena)
  {
    forall b | b in live ensures Range(b, live[b]) !! Pages(l') {
      UsedHolds(live, b);
    }
  }

  lemma UsedBy(live: map<nat, nat>, p: nat) returns (b: nat)
    requires p in Used(live)
    ensures b in live && p in Range(b, live[b])
  {
    b :| b in live && b <= p < b + live[b] && InUse(p, b, live);
    assert Within(p, b, live[b]);
  }

  lemma UsedAdded(live: map<nat, nat>, b: nat, u: nat)
    requires b !in live
    ensures Used(live[b := u]) == Used(live) + Range(b, u)
  {
    var live' := live[b := u];
    UsedHolds(live', b);
    forall p: nat | p in Used(live') ensures p in Used(live) || p in Range(b, u) {
      var c := UsedBy(live', p);
      if c != b { UsedHolds(live, c); }
    }
    forall p: nat | p in Used(live) ensures p in Used(live') {
      var c := UsedBy(live, p);
      UsedHolds(live', c);
    }
  }

  lemma UsedRemoved(live: map<nat, nat>, b: nat, free: set<nat>)
    requires b in live && Disjoint(live, free)
    ensures Used(live - {b}) == Used(live) - Range(b, live[b])
  {
    var rest := live - {b};
    assert rest[b := live[b]] == live;
    UsedAdded(rest, b, live[b]);
    forall p: nat | p in Used(rest) ensures p !in Range(b, live[b]) {
      var c := UsedBy(rest, p);
    }
  }

  lemma FromFree(live: map<nat, nat>, free: set<nat>, b: nat, u: nat)
    requires Disjoint(live, free) && Range(b, u) <= free && u >= 1
    ensures b !in live && Range(b, u) !! Used(live) && Disjoint(live[b := u], free - Range(b, u))
  {
    assert b in Range(b, u);
    assert b in live ==> b in Range(b, live[b]);
    forall p: nat | p in Used(live) ensures p !in Range(b, u) {
      var c := UsedBy(live, p);
    }
    var live' := live[b := u];
    forall c | c in live && c != b ensures Range(c, live'[c]) !! Range(b, u) && Range(c, live'[c]) !! free {
    }
  }

  lemma TakenPartition(l: seq<Block>, l': seq<Block>, live: map<nat, nat>, managed: set<nat>, arena: nat, b: nat,
                       u: nat)
    requires Partition(l, live, managed, arena) && Range(b, u) <= Pages(l) && u >= 1
    requires Pages(l') == Pages(l) - Range(b, u) && Block(arena, 1) in l'
    ensures b !in live && Range(b, u) !! Used(live) && Partition(l', live[b := u], managed, arena)
  {
    FromFree(live, Pages(l), b, u);
    UsedAdded(live, b, u);
    assert Pages(l') + Used(live[b := u]) == managed;
  }

  lemma LiveIsFreeable(l: seq<Block>, live: map<nat, nat>, managed: set<nat>, arena: nat, b: nat)
    requires Partition(l, live, managed, arena) && b in live
    ensures Freeable(l, arena, Block(b, live[b]))
  {
    UsedHolds(live, b);
    HeadInPages(l, Block(arena, 1));
    ApartFromArena(arena, Block(b, live[b]));
  }

  lemma FreedPartition(l: seq<Block>, l': seq<Block>, live: map<nat, nat>, managed: set<nat>, arena: nat, b: nat)
    requires Partition(l, live, managed, arena) && b in live
    requires Pages(l') == Pages(l) + Range(b, live[b]) && Block(arena, 1) in l'
    ensures Partition(l', live - {b}, managed, arena)
  {
    UsedHolds(live, b);
    UsedRemoved(live, b, Pages(l));
  }

  lemma UsedHolds(live: map<nat, nat>, b: nat)
    requires b in live
    ensures Range(b, live[b]) <= Used(live)
  {
    forall p | p in Range(b, live[b]) ensures p in Used(live) {
      assert InUse(p, b, live);
    }
  }

  /** Sizes of live blocks survive changes inside the ring. */
  lemma HeadersKept(live: map<nat, nat>, units: map<nat, nat>, units': map<nat, nat>, l: seq<Block>)
    requires Headers(live, units) && SameOutside(Pages(l), units, units') && Disjoint(live, Pages(l))
    ensures Headers(live, units')
  {
    forall b | b in live ensures b in units' && units'[b] == live[b] {
      assert b in Range(b, live[b]);
    }
  }

  lemma Index(l: seq<Block>, b: nat) returns (i: nat)
    requires b in Heads(l)
    ensures i < |l| && l[i].base == b
  {
    var c :| c in l && c.base == b;
    i :| 0 <= i < |l| && l[i] == c;
  }

  /** Freeing what kmalloc just returned restores the ring, block for block, unless a page had to be fetched. */
  method AllocateAndFree(h: Heap, size: nat, page: Option<nat>)
    requires h.Valid() && !(size == 0 && h.TakesArena(1)) && size + UNIT + UNIT < PAGE_SIZE && h.Fetchable(page)
    requires !NoRoomFor(Pages(h.l), Units(size + UNIT))
    modifies h
    ensures h.Valid() && h.live == old(h.live) && h.l == old(h.l)
  {
    hide ServedBy, StartsRun, Before, NextFit;
    var r, _ := h.Kmalloc(size, page);
    h.Kfree(r.value);
    assert h.live == old(h.live);
    assert old(Pages(h.l)) ==
      old(h.managed) - Used(old(h.live)) by { FreeIsRest(old(h.l), old(h.live), old(h.managed), h.arena); }
    FreeIsRest(h.l, h.live, h.managed, h.arena);
    CanonicalUnique(h.l, old(h.l));
  }

  lemma FreeIsRest(l: seq<Block>, live: map<nat, nat>, managed: set<nat>, arena: nat)
    requires Partition(l, live, managed, arena)
    ensures Pages(l) == managed - Used(live)
  {
    forall p: nat | p in Used(live) ensures p !in Pages(l) {
      var b := UsedBy(live, p);
    }
  }

  /**
    kmalloc(0) asks for one unit.  From the initial ring it is given the arena block, the only one, taken whole: by
    `TookExactly` the block stays in the ring and is handed out again.
  */
  lemma ZeroBytes(arena: nat)
    ensures Units(0 + UNIT) == 1
    ensures var l, m := [Block(arena, 1)], Memory(map[arena := 1], map[arena := arena]);
      Ring(l, m.units, m.next) && Took(m, arena, arena, 1) == m && !LeftTheRing(l, 0, 1, Took(m, arena, arena, 1))
  {
    var l, m := [Block(arena, 1)], Memory(map[arena := 1], map[arena := arena]);
    assert SizedAt(l, m.units, 0) && LinkedAt(l, m.next, 0);
    TookExactly(l, 0, 1, m);
  }
}
