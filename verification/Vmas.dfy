/**
  The virtual memory areas of a process (kern/mm/vmm.c): a list sorted by address, with a one-entry cache for
  lookups.
*/
module Vmas {
  import opened Machine
  import opened Options

  const PGSIZE: nat := 4096
  const USERBASE: nat := 0x0020_0000
  const USERTOP: nat := 0xB000_0000

  /** VM_READ, VM_WRITE, VM_EXEC, VM_STACK */
  datatype Flags = Flags(read: bool, write: bool, exec: bool, stack: bool)

  datatype Vma = Vma(start: nat, end: nat, flags: Flags)

  predicate Contains(v: Vma, a: nat) {
    v.start <= a < v.end
  }

  /** No address lies in both. */
  ghost predicate Apart(v: Vma, w: Vma) {
    v.end <= w.start || w.end <= v.start
  }

  /** Nonempty areas in the order of their addresses, without overlap. */
  ghost predicate Sorted(l: seq<Vma>) {
    && (forall i :: 0 <= i < |l| ==> l[i].start < l[i].end)
    && (forall i, j :: 0 <= i < j < |l| ==> l[i].end <= l[j].start)
  }

  /** The area that a scan of the list finds for an address. */
  ghost function Scan(l: seq<Vma>, a: nat): Option<Vma> {
    if l == [] then None
    else if Contains(l[0], a) then Some(l[0])
    else Scan(l[1..], a)
  }

  lemma {:induction false} ScanFinds(l: seq<Vma>, a: nat)
    ensures Scan(l, a).Some? ==> Scan(l, a).value in l && Contains(Scan(l, a).value, a)
    ensures Scan(l, a).None? ==> forall v :: v in l ==> !Contains(v, a)
  {
    if l != [] {
      ScanFinds(l[1..], a);
      assert forall v :: v in l ==> v == l[0] || v in l[1..];
    }
  }

  /** At most one area contains an address. */
  lemma OnlyOne(l: seq<Vma>, v: Vma, w: Vma, a: nat)
    requires Sorted(l) && v in l && w in l && Contains(v, a) && Contains(w, a)
    ensures v == w
  {
    var i :| 0 <= i < |l| && l[i] == v;
    var j :| 0 <= j < |l| && l[j] == w;
  }

  /** `v` overlaps no area of the list. */
  ghost predicate Fits(l: seq<Vma>, v: Vma) {
    v.start < v.end && forall i :: 0 <= i < |l| ==> Apart(l[i], v)
  }

  ghost function InsertAt(l: seq<Vma>, v: Vma, i: nat): seq<Vma>
    requires i <= |l|
  {
    l[..i] + [v] + l[i..]
  }

  ghost predicate IsInsertion(l: seq<Vma>, v: Vma, l': seq<Vma>) {
    exists i: nat :: i <= |l| && l' == InsertAt(l, v, i)
  }

  lemma InsertedSorted(l: seq<Vma>, v: Vma, i: nat)
    requires Sorted(l) && i <= |l| && v.start < v.end
    requires (i > 0 ==> l[i - 1].end <= v.start) && (i < |l| ==> v.end <= l[i].start)
    ensures Sorted(InsertAt(l, v, i)) && Fits(l, v)
  {
    forall k | 0 <= k < |l| ensures if k < i then l[k].end <= v.start else v.end <= l[k].start {
      assert k < i ==> k < i - 1 ==> l[k].end <= l[i - 1].start;
      assert i < k ==> l[i].end <= l[k].start;
    }
    InsertedInOrder(l, v, i, InsertAt(l, v, i));
  }

  lemma InsertedInOrder(l: seq<Vma>, v: Vma, i: nat, m: seq<Vma>)
    requires Sorted(l) && i <= |l| && v.start < v.end && m == InsertAt(l, v, i)
    requires forall k :: 0 <= k < |l| ==> if k < i then l[k].end <= v.start else v.end <= l[k].start
    ensures Sorted(m)
  {
    forall j | 0 <= j < |m| ensures m[j].start < m[j].end && forall k :: j < k < |m| ==> m[j].end <= m[k].start {
      forall k | j < k < |m| ensures m[j].end <= m[k].start {
        assert m[j] == InsertedAt(l, v, i, j) && m[k] == InsertedAt(l, v, i, k);
      }
    }
  }

  ghost function InsertedAt(l: seq<Vma>, v: Vma, i: nat, k: nat): Vma
    requires i <= |l| && k <= |l|
  {
    if k < i then l[k] else if k == i then v else l[k - 1]
  }

  lemma OverlapSeen(l: seq<Vma>, v: Vma, i: nat)
    requires Sorted(l) && i <= |l| && v.start < v.end
    requires (forall k :: 0 <= k < i ==> l[k].start <= v.start) && (i < |l| ==> v.start < l[i].start)
    ensures Fits(l, v) ==> (i > 0 ==> l[i - 1].end <= v.start) && (i < |l| ==> v.end <= l[i].start)
  {
    if Fits(l, v) {
      assert i > 0 ==> Apart(l[i - 1], v);
      assert i < |l| ==> Apart(l[i], v);
    }
  }

  class Mm {
    var list: seq<Vma>
    var cache: Option<Vma>            // mmap_cache
    var mapCount: nat

    ghost predicate Valid()
      reads this
    {
      Sorted(list) && (cache.Some? ==> cache.value in list) && mapCount == |list|
    }

    constructor ()
      ensures Valid() && list == []
    {
      list, cache, mapCount := [], None, 0;
    }

    /** find_vma: the cache makes no difference to what is found. */
    method FindVma(addr: nat) returns (r: Option<Vma>)
      requires Valid()
      modifies this`cache
      ensures Valid() && r == Scan(list, addr)
    {
      ScanFinds(list, addr);
      if cache.Some? && Contains(cache.value, addr) {
        assert Scan(list, addr).Some?;
        OnlyOne(list, cache.value, Scan(list, addr).value, addr);
        r := cache;
      } else {
        r := Walk(addr);
      }
      if r.Some? {
        cache := r;
      }
    }

    /** The scan that find_vma makes when the cache does not help. */
    method Walk(addr: nat) returns (r: Option<Vma>)
      ensures r == Scan(list, addr)
    {
      var i := 0;
      while i < |list|
        invariant i <= |list| && Scan(list, addr) == Scan(list[i..], addr)
      {
        if Contains(list[i], addr) {
          return Some(list[i]);
        }
        assert list[i..][1..] == list[i + 1..];
        i := i + 1;
      }
      return None;
    }

    /** insert_vma_struct; false if one of its assertions fails, which happens exactly if the area overlaps another. */
    method Insert(v: Vma) returns (ok: bool)
      requires Valid()
      modifies this
      ensures ok <==> old(Fits(list, v))
      ensures ok ==> Valid() && IsInsertion(old(list), v, list)
      ensures !ok ==> Valid() && list == old(list)
    {
      if v.start >= v.end {
        return false;
      }
      var i := 0;
      while i < |list| && list[i].start <= v.start
        invariant i <= |list| && forall k :: 0 <= k < i ==> list[k].start <= v.start
      {
        i := i + 1;
      }
      OverlapSeen(list, v, i);
      if (i > 0 && list[i - 1].end > v.start) || (i < |list| && v.end > list[i].start) {
        return false;
      }
      InsertedSorted(list, v, i);
      list := list[..i] + [v] + list[i..];
      mapCount := mapCount + 1;
      ok := true;
      assert list == InsertAt(old(list), v, i);
      assert cache.Some? ==> cache.value in list by { StillThere(old(list), v, i); }
    }

    /** mm_map */
    method Map(addr: nat, len: nat, flags: Flags) returns (r: Mapping)
      requires Valid()
      modifies this
      ensures Valid()
      ensures r.Invalid? <==> !UserAccess(PageDown(addr), PageUp(addr + len)) || old(Scan(list, PageDown(addr))).Some?
      ensures !r.Invalid? ==> (r.Panics? <==> !old(Fits(list, Vma(PageDown(addr), PageUp(addr + len), flags))))
      ensures if r.Mapped? then IsInsertion(old(list), Vma(PageDown(addr), PageUp(addr + len), flags), list)
        else list == old(list)
    {
      var start, end := PageDown(addr), PageUp(addr + len);
      if !UserAccess(start, end) {
        return Invalid;
      }
      var found := FindVma(start);
      ScanFinds(list, start);
      if found.Some? && end > found.value.start {
        return Invalid;
      }
      var ok := Insert(Vma(start, end, flags));
      r := if ok then Mapped else Panics;
    }

    /** dup_mmap into an address space without areas: the same areas in the same order, and no assertion fails. */
    method Duplicate(from: Mm)
      requires Valid() && from.Valid() && list == [] && from != this
      modifies this
      ensures Valid() && list == from.list
    {
      hide Sorted, Fits, IsInsertion;
      var i := |from.list|;
      while i > 0
        invariant 0 <= i <= |from.list| && Valid() && list == from.list[i..]
      {
        i := i - 1;
        var v := from.list[i];
        ghost var was := list;
        FitsBefore(from.list, i);
        var ok := Insert(v);
        AtFront(was, v, list);
        assert list == [v] + from.list[i + 1..];
      }
    }

    /** user_mem_check */
    method UserMemCheck(addr: nat, len: nat, write: bool) returns (ok: bool)
      requires Valid()
      modifies this`cache
      ensures Valid()
      ensures ok <==> UserAccess(addr, (addr + len) % WORD) && forall a :: addr <= a < (addr + len) % WORD ==>
        Accessible(list, addr, a, write)
    {
      var start, end := addr, (addr + len) % WORD;
      if !UserAccess(start, end) {
        return false;
      }
      while start < end
        invariant addr <= start && Valid()
        invariant forall a :: addr <= a < start ==> Accessible(list, addr, a, write)
        invariant start > addr ==> exists v :: v in list && v.end == start
        decreases end - start
      {
        var r := FindVma(start);
        ScanFinds(list, start);
        if r.None? || start < r.value.start {
          assert !Accessible(list, addr, start, write);
          return false;
        }
        var v := r.value;
        Refused(list, addr, start, v, write);
        if !(if write then v.flags.write else v.flags.read) {
          return false;
        }
        if write && v.flags.stack && start < v.start + PGSIZE {
          return false;
        }
        Granted(list, addr, start, v, write);
        start := v.end;
      }
      return true;
    }
  }

  datatype Mapping = Mapped | Invalid | Panics

  function PageDown(a: nat): nat {
    a - a % 4096
  }

  /** ROUNDUP in 32-bit arithmetic. */
  function PageUp(a: nat): nat {
    PageDown((a + 4095) % WORD)
  }

  predicate UserAccess(start: nat, end: nat) {
    USERBASE <= start < end <= USERTOP
  }

  /** Address `a` lies in an area with the needed right; writing to a stack must not start in its lowest page. */
  ghost predicate Accessible(l: seq<Vma>, addr: nat, a: nat, write: bool) {
    exists v :: v in l && Contains(v, a) && Allows(v, addr, write)
  }

  ghost predicate Allows(v: Vma, addr: nat, write: bool) {
    if write then v.flags.write && (v.flags.stack ==> addr >= v.start + PGSIZE) else v.flags.read
  }

  /** Within one area all addresses are accessible or none. */
  lemma Granted(l: seq<Vma>, addr: nat, start: nat, v: Vma, write: bool)
    requires v in l && Contains(v, start) && Allows(v, addr, write)
    ensures forall a :: start <= a < v.end ==> Accessible(l, addr, a, write)
  {
    forall a | start <= a < v.end ensures Accessible(l, addr, a, write) {
      assert Contains(v, a);
    }
  }

  lemma Refused(l: seq<Vma>, addr: nat, start: nat, v: Vma, write: bool)
    requires Sorted(l) && v in l && Contains(v, start)
    ensures Accessible(l, addr, start, write) <==> Allows(v, addr, write)
  {
    if Accessible(l, addr, start, write) {
      var w :| w in l && Contains(w, start) && Allows(w, addr, write);
      OnlyOne(l, v, w, start);
    }
  }

  /** Each area fits before those that follow it. */
  lemma FitsBefore(l: seq<Vma>, i: nat)
    requires Sorted(l) && i < |l|
    ensures Fits(l[i + 1..], l[i]) && (l[i + 1..] != [] ==> l[i].end <= l[i + 1..][0].start)
    ensures l[i..] == [l[i]] + l[i + 1..]
  {
    var rest := l[i + 1..];
    assert forall k :: 0 <= k < |rest| ==> rest[k] == l[i + 1 + k];
  }

  lemma AtFront(l: seq<Vma>, v: Vma, l': seq<Vma>)
    requires IsInsertion(l, v, l') && Sorted(l') && (l != [] ==> v.end <= l[0].start)
    ensures l' == [v] + l
  {
    var i: nat :| i <= |l| && l' == InsertAt(l, v, i);
    var head, mine := l'[0], l'[i];
    assert mine == v && head == (l[..i] + [v])[0];
  }

  lemma StillThere(l: seq<Vma>, v: Vma, i: nat)
    requires i <= |l|
    ensures forall w :: w in InsertAt(l, v, i) <==> w in l || w == v
  {
    assert l == l[..i] + l[i..];
  }

  /** mm_map looks only at the area that contains the start: one that begins inside the new area makes it panic. */
  method MapIntoNext(flags: Flags) returns (mm: Mm, r: Mapping)
    ensures r.Panics? && fresh(mm) && mm.list == [Vma(0x0040_0000, 0x0040_1000, flags)]
  {
    mm := new Mm();
    assert Scan([], 0x0040_0000) == None;
    r := mm.Map(0x0040_0000, 0x1000, flags);
    ghost var v := Vma(0x0040_0000, 0x0040_1000, flags);
    OnlyArea(v, mm.list);
    assert Scan([v], 0x003F_F000) == None;
    assert !Fits([v], Vma(0x003F_F000, 0x0040_1000, flags)) by { assert !Apart([v][0],
      Vma(0x003F_F000, 0x0040_1000, flags)); }
    r := mm.Map(0x003F_F000, 0x2000, flags);
  }

  lemma OnlyArea(v: Vma, l: seq<Vma>)
    ensures IsInsertion([], v, l) ==> l == [v]
  {
  }
}
