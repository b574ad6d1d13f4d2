/**
  The bit and index macros of kern/mm/buddy_pmm.c, and what they mean: rounding to powers of two, and
  the correspondence between node numbers of the implicit binary tree and intervals of pages.
*/
module BuddyArithmetic {
  import opened Machine
  import opened Bits

  // ---------------------------------------------------------------- UINT32_* macros

  function ShrOr(a: nat, n: nat): nat { Or(a, Shr(a, n)) }

  /** UINT32_MASK */
  function Mask(a: nat): nat { ShrOr(ShrOr(ShrOr(ShrOr(ShrOr(a, 1), 2), 4), 8), 16) }

  /** UINT32_REMAINDER */
  function Remainder(a: nat): nat { And(a, Shr(Mask(a), 1)) }

  /** UINT32_ROUND_UP; the shift is a 32-bit one, so its result is taken modulo 2^32. */
  function RoundUp(a: nat): nat {
    if Remainder(a) != 0 && Remainder(a) <= a then (2 * (a - Remainder(a))) % WORD else a
  }

  /** UINT32_ROUND_DOWN */
  function RoundDown(a: nat): nat {
    if Remainder(a) != 0 && Remainder(a) <= a then a - Remainder(a) else a
  }

  /** Some bit of `a` in the positions i, ..., e-1 is set. */
  ghost predicate SetBetween(a: nat, i: nat, e: nat) {
    exists j: nat :: i <= j < e && Bit(a, j)
  }

  /** Every bit of `x` is the or of the `m` bits of `a` from there upwards. */
  ghost predicate Smears(a: nat, x: nat, m: nat) {
    forall i: nat :: Bit(x, i) <==> SetBetween(a, i, i + m)
  }

  lemma SmearStep(a: nat, x: nat, m: nat)
    requires Smears(a, x, m)
    ensures Smears(a, ShrOr(x, m), 2 * m)
  {
    forall i: nat ensures Bit(ShrOr(x, m), i) <==> SetBetween(a, i, i + 2 * m) {
      OrBit(x, Shr(x, m), i);
      ShrBit(x, m, i);
      assert Bit(x, i) <==> SetBetween(a, i, i + m);
      assert Bit(x, i + m) <==> SetBetween(a, i + m, i + m + m);
    }
  }

  lemma MaskSmears(a: nat)
    ensures Smears(a, Mask(a), 32)
  {
    assert Smears(a, a, 1);
    SmearStep(a, a, 1);
    var b := ShrOr(a, 1);
    SmearStep(a, b, 2);
    var c := ShrOr(b, 2);
    SmearStep(a, c, 4);
    var d := ShrOr(c, 4);
    SmearStep(a, d, 8);
    SmearStep(a, ShrOr(d, 8), 16);
  }

  /** The mask of a 32-bit number with top bit `k` has exactly the bits 0..k. */
  lemma MaskBits(a: nat, k: nat, i: nat)
    requires Pow2(k) <= a < Pow2(k + 1) && k < 32
    ensures Bit(Mask(a), i) <==> i <= k
  {
    MaskSmears(a);
    assert Bit(Mask(a), i) <==> SetBetween(a, i, i + 32);
    DropTop(a, k, k);
    if i > k && Bit(Mask(a), i) {
      var j: nat :| i <= j < i + 32 && Bit(a, j);
      SmallHasNoHighBits(a, k + 1, j);
    }
  }

  /** The remainder is what is left of the number without its top bit. */
  lemma RemainderMeaning(a: nat, k: nat)
    requires Pow2(k) <= a < Pow2(k + 1) && k < 32
    ensures Remainder(a) == a - Pow2(k)
  {
    forall i: nat ensures Bit(Remainder(a), i) == Bit(a - Pow2(k), i) {
      AndBit(a, Shr(Mask(a), 1), i);
      ShrBit(Mask(a), 1, i);
      MaskBits(a, k, i + 1);
      DropTop(a, k, i);
      if i > k { SmallHasNoHighBits(a, k + 1, i); }
    }
    SameBits(Remainder(a), a - Pow2(k));
  }

  lemma {:induction false} WordIsPower()
    ensures Pow2(31) == WORD / 2 && Pow2(32) == WORD
  {
    assert Pow2(8) == 256;
    PowerProduct(8, 8);
    PowerProduct(16, 16);
    assert Pow2(32) == 2 * Pow2(31);
  }

  /** ROUND_DOWN: the largest power of two not above the argument, for every non-zero 32-bit number. */
  lemma RoundDownMeaning(a: nat) returns (k: nat)
    requires 0 < a < WORD
    ensures k < 32 && RoundDown(a) == Pow2(k) && Pow2(k) <= a < 2 * Pow2(k)
  {
    k := TopBit(a);
    RemainderMeaning(a, k);
  }

  /** ROUND_UP: the smallest power of two not below the argument -- if that fits 32 bits, and 0 otherwise. */
  lemma RoundUpMeaning(a: nat) returns (k: nat)
    requires 0 < a < WORD
    ensures Pow2(k) >= a && (k > 0 ==> Pow2(k - 1) < a)
    ensures RoundUp(a) == (if a <= WORD / 2 then Pow2(k) else 0)
    ensures a <= WORD / 2 <==> k < 32
  {
    hide Pow2, Remainder;
    k := TopBit(a);
    RemainderMeaning(a, k);
    TopBitHalf(a, k);
    if a > Pow2(k) {
      k := k + 1;
    } else {
      PowerBefore(k);
    }
  }

  lemma PowerBefore(k: nat)
    ensures k > 0 ==> Pow2(k - 1) < Pow2(k)
  {
  }

  lemma TopBit(a: nat) returns (k: nat)
    requires 0 < a < WORD
    ensures k < 32 && Pow2(k) <= a < Pow2(k + 1) && Pow2(k + 1) == 2 * Pow2(k)
  {
    WordIsPower();
    k := LargeHasHighBit(a, 0);
    if k >= 32 { PowerMonotone(32, k); }
  }

  /** Where 2^31 lies relative to a number with top bit `k`. */
  lemma TopBitHalf(a: nat, k: nat)
    requires k < 32 && Pow2(k) <= a < Pow2(k + 1)
    ensures if k == 31 then Pow2(k) == WORD / 2 else Pow2(k + 1) <= WORD / 2
  {
    WordIsPower();
    if k < 31 { PowerMonotone(k + 1, 31); }
  }

  /** So ROUND_UP yields a power of two that covers the request exactly on requests of at most 2^31. */
  lemma RoundUpCovers(a: nat)
    requires 0 < a < WORD
    ensures RoundUp(a) >= a <==> a <= WORD / 2
  {
    var k := RoundUpMeaning(a);
  }

  // ---------------------------------------------------------------- nodes of the tree

  /** Depth of a node; the root 1 has depth 0. */
  function Level(b: nat): nat
    requires b >= 1
  {
    if b == 1 then 0 else 1 + Level(b / 2)
  }

  lemma {:induction false} LevelMeaning(b: nat)
    requires b >= 1
    ensures Pow2(Level(b)) <= b < 2 * Pow2(Level(b))
  {
    if b > 1 { LevelMeaning(b / 2); }
  }

  /** The nodes of a tree of height `h`, that is, for 2^h pages. */
  ghost predicate IsNode(h: nat, b: nat) {
    b >= 1 && Level(b) <= h
  }

  lemma NodeBound(h: nat, b: nat)
    requires b >= 1
    ensures IsNode(h, b) <==> b < 2 * Pow2(h)
    ensures IsNode(h, b) && Level(b) < h ==> b < Pow2(h)
    ensures IsNode(h, b) && Level(b) == h ==> b >= Pow2(h)
  {
    LevelMeaning(b);
    if Level(b) < h { PowerMonotone(Level(b) + 1, h); }
    if Level(b) > h { PowerMonotone(h + 1, Level(b)); }
  }

  /** Number of pages of a node. */
  ghost function Len(h: nat, b: nat): nat
    requires IsNode(h, b)
  {
    Pow2(h - Level(b))
  }

  /** First page of a node: a left child starts where its parent starts, a right child in its middle. */
  ghost function Begin(h: nat, b: nat): nat
    requires IsNode(h, b)
  {
    if b == 1 then 0
    else Begin(h, b / 2) + if b % 2 == 0 then 0 else Len(h, b)
  }

  lemma Children(h: nat, b: nat)
    requires IsNode(h, b) && Level(b) < h
    ensures (2 * b) / 2 == b && (2 * b + 1) / 2 == b
    ensures Level(2 * b) == Level(b) + 1 && Level(2 * b + 1) == Level(b) + 1
    ensures IsNode(h, 2 * b) && IsNode(h, 2 * b + 1)
    ensures 2 * Len(h, 2 * b) == Len(h, b) && Len(h, 2 * b + 1) == Len(h, 2 * b)
    ensures Begin(h, 2 * b) == Begin(h, b) && Begin(h, 2 * b + 1) == Begin(h, b) + Len(h, 2 * b)
  {
  }

  // BUDDY_LENGTH, BUDDY_BEGIN, BUDDY_END, BUDDY_BLOCK for a tree over `size` pages.
  function MacroLength(size: nat, a: nat): nat
    requires RoundDown(a) != 0
  {
    Ratio(size, RoundDown(a))
  }

  function Ratio(a: nat, d: nat): nat
    requires d != 0
  {
    a / d
  }

  function MacroBegin(size: nat, a: nat): nat
    requires RoundDown(a) != 0
  {
    Remainder(a) * MacroLength(size, a)
  }

  function MacroEnd(size: nat, a: nat): nat
    requires RoundDown(a) != 0
  {
    (Remainder(a) + 1) * MacroLength(size, a)
  }

  function MacroBlock(size: nat, begin: nat, end: nat): nat
    requires begin < end
  {
    size / (end - begin) + begin / (end - begin)
  }

  /** Closed form of `Begin`. */
  lemma {:induction false} BeginClosed(h: nat, b: nat)
    requires IsNode(h, b)
    ensures b >= Pow2(Level(b)) && Begin(h, b) == (b - Pow2(Level(b))) * Len(h, b)
  {
    hide Pow2, Level, Len;
    LevelMeaning(b);
    if b == 1 {
      RootLevel();
    } else {
      ParentHalves(h, b);
      BeginClosed(h, b / 2);
      HalfStep(b / 2 - Pow2(Level(b / 2)), Len(h, b), b % 2);
    }
  }

  lemma RootLevel()
    ensures Level(1) == 0 && Pow2(0) == 1
  {
  }

  lemma ParentHalves(h: nat, b: nat)
    requires IsNode(h, b) && b > 1
    ensures IsNode(h, b / 2) && Len(h, b / 2) == 2 * Len(h, b) && Pow2(Level(b)) == 2 * Pow2(Level(b / 2))
  {
    hide Pow2, Level;
    LevelStep(b);
    var l := Level(b / 2);
    NextPower(l);
    NextPower(h - l - 1);
  }

  lemma LevelStep(b: nat)
    requires b > 1
    ensures Level(b) == Level(b / 2) + 1
  {
  }

  lemma HalfStep(x: nat, d: nat, r: nat)
    requires r < 2
    ensures x * (2 * d) + (if r == 0 then 0 else d) == (2 * x + r) * d
  {
    Regroup(x, d);
    Distribute(2 * x, d);
  }

  lemma Regroup(x: nat, d: nat)
    ensures x * (2 * d) == (2 * x) * d
  {
  }

  lemma DivideExactly(q: nat, d: nat)
    requires d > 0
    ensures (q * d) / d == q
  {
    var x := (q * d) / d;
    assert q * d == d * x + (q * d) % d;
    assert d * (q - x) == (q * d) % d;
    if q - x >= 1 { Multiply(d, q - x); }
    assert d * (x - q) == -(d * (q - x));
    if x - q >= 1 { Multiply(d, x - q); }
  }

  lemma Multiply(d: nat, y: nat)
    requires y >= 1
    ensures d * y >= d
  {
  }

  /** The macros' ingredients for a node of the tree. */
  lemma NodeNumbers(h: nat, b: nat)
    requires IsNode(h, b) && h < 31
    ensures RoundDown(b) == Pow2(Level(b)) && Remainder(b) == b - Pow2(Level(b))
    ensures Pow2(h) / Pow2(Level(b)) == Len(h, b) && Pow2(h) / Len(h, b) == Pow2(Level(b))
  {
    hide Pow2, Level, Remainder, Mask;
    var l := Level(b);
    LevelMeaning(b);
    NextPower(l);
    RemainderMeaning(b, l);
    PowerProduct(l, h - l);
    PowerProduct(h - l, l);
    DivideExactly(Len(h, b), Pow2(l));
    DivideExactly(Pow2(l), Len(h, b));
  }

  /** BUDDY_LENGTH, BUDDY_BEGIN and BUDDY_END compute the length, first page and end of a node. */
  lemma MacrosMeaning(h: nat, b: nat)
    requires IsNode(h, b) && h < 31
    ensures RoundDown(b) != 0
    ensures MacroLength(Pow2(h), b) == Len(h, b)
    ensures MacroBegin(Pow2(h), b) == Begin(h, b)
    ensures MacroEnd(Pow2(h), b) == Begin(h, b) + Len(h, b)
  {
    NodeNumbers(h, b);
    BeginClosed(h, b);
    Distribute(Remainder(b), Len(h, b));
  }

  lemma Distribute(x: nat, d: nat)
    ensures (x + 1) * d == x * d + d
  {
  }

  /** BUDDY_BLOCK finds a node back from its interval, so intervals and nodes correspond one to one. */
  lemma BlockMeaning(h: nat, b: nat)
    requires IsNode(h, b) && h < 31
    ensures MacroBlock(Pow2(h), Begin(h, b), Begin(h, b) + Len(h, b)) == b
  {
    var x, d := b - Pow2(Level(b)), Len(h, b);
    NodeNumbers(h, b);
    BeginClosed(h, b);
    DivideExactly(x, d);
    assert Begin(h, b) / d == x;
  }

  /** Every node starts at a multiple of its length and lies inside the tree. */
  lemma {:induction false} NodeAligned(h: nat, b: nat)
    requires IsNode(h, b)
    ensures Begin(h, b) % Len(h, b) == 0
    ensures Begin(h, b) + Len(h, b) <= Pow2(h)
  {
    BeginClosed(h, b);
    MultipleHasNoRemainder(b - Pow2(Level(b)), Len(h, b));
    Inside(h, b);
  }

  lemma MultipleHasNoRemainder(q: nat, d: nat)
    requires d > 0
    ensures (q * d) % d == 0
  {
    DivideExactly(q, d);
  }

  lemma {:induction false} Inside(h: nat, b: nat)
    requires IsNode(h, b)
    ensures Begin(h, b) + Len(h, b) <= Pow2(h)
  {
    if b > 1 {
      Inside(h, b / 2);
      assert Len(h, b / 2) == 2 * Len(h, b);
    }
  }

  // ---------------------------------------------------------------- ancestors

  /** `a` is a proper ancestor of `b`. */
  ghost predicate Above(a: nat, b: nat)
    requires b >= 1
  {
    b > 1 && (a == b / 2 || Above(a, b / 2))
  }

  lemma {:induction false} AboveFromChild(a: nat, b: nat)
    requires a >= 1 && b >= 1 && (Above(2 * a, b) || Above(2 * a + 1, b) || b == 2 * a || b == 2 * a + 1)
    ensures Above(a, b)
    decreases b
  {
    if b != 2 * a && b != 2 * a + 1 && b / 2 != 2 * a && b / 2 != 2 * a + 1 {
      AboveFromChild(a, b / 2);
    }
  }

  lemma {:induction false} AboveIsShallower(a: nat, b: nat)
    requires a >= 1 && b >= 1 && Above(a, b)
    ensures Level(a) < Level(b) && a < b
    decreases b
  {
    if a != b / 2 { AboveIsShallower(a, b / 2); }
  }

  lemma {:induction false} SameLevelDisjoint(h: nat, a: nat, b: nat)
    requires IsNode(h, a) && IsNode(h, b) && Level(a) == Level(b) && a < b
    ensures Begin(h, a) + Len(h, a) <= Begin(h, b)
    decreases a
  {
    if a / 2 != b / 2 {
      SameLevelDisjoint(h, a / 2, b / 2);
      assert Len(h, a / 2) == 2 * Len(h, a);
    }
  }

  ghost predicate Apart(h: nat, a: nat, b: nat)
    requires IsNode(h, a) && IsNode(h, b)
  {
    Begin(h, a) + Len(h, a) <= Begin(h, b) || Begin(h, b) + Len(h, b) <= Begin(h, a)
  }

  /** Two nodes are nested or have no page in common. */
  lemma {:induction false} NestedOrApart(h: nat, a: nat, b: nat)
    requires IsNode(h, a) && IsNode(h, b) && Level(a) <= Level(b)
    ensures a == b || Above(a, b) || Apart(h, a, b)
    decreases b
  {
    if Level(a) == Level(b) {
      if a < b { SameLevelDisjoint(h, a, b); }
      if b < a { SameLevelDisjoint(h, b, a); }
    } else {
      NestedOrApart(h, a, b / 2);
      assert Len(h, b / 2) == 2 * Len(h, b);
    }
  }

  // ---------------------------------------------------------------- sizes chosen by buddy_init_size

  const PGSIZE: nat := 4096

  datatype Sizes = Sizes(physical: nat, virtual: nat, segment: nat, alloc: nat)

  function Min(a: nat, b: nat): nat { if a < b then a else b }

  /** buddy_init_size */
  function InitSize(n: nat): Sizes
    requires 1 < n < WORD / 8
  {
    if n < 512 then
      var v := RoundUp(n - 1);
      Sizes(n, v, 1, Min(v, n - 1))
    else
      var v := RoundDown(n);
      var g := v * 4 * 2 / PGSIZE;
      if n > v + 2 * g then Sizes(n, 2 * v, 2 * g, if n < 2 * g then 0 else Min(2 * v, n - 2 * g))
      else Sizes(n, v, g, if n < g then 0 else Min(v, n - g))
  }

  /**
    For every number of pages 1 < n < 2^29: the tree size is a power of two, the two words per page of
    the tree fit into the pages set aside for them, what is managed fits into the rest, and at
    least one page is managed.
  */
  lemma InitSizeFits(n: nat) returns (h: nat)
    requires 1 < n < WORD / 8
    ensures var s := InitSize(n);
      && h < 31 && s.virtual == Pow2(h)
      && 2 * s.virtual * 4 <= s.segment * PGSIZE
      && s.alloc + s.segment <= n
      && 0 < s.alloc == Min(s.virtual, n - s.segment)
  {
    hide Pow2;
    if n < 512 {
      h := SmallTree(n);
    } else {
      h := RoundDownMeaning(n);
      var g := LargeTree(n, h);
      assert 512 * g * 4 * 2 / PGSIZE == g;
      if n > Pow2(h) + 2 * g {
        NextPower(h);
        h := h + 1;
      }
    }
  }

  /** A tree over 2^k pages whose words are kept in `g` of the `n` pages, which are enough for them. */
  ghost predicate Feasible(n: nat, k: nat, g: nat) {
    2 * Pow2(k) * 4 <= g * PGSIZE && g <= n
  }

  /** The pages such a tree manages. */
  ghost function Managed(n: nat, k: nat, g: nat): nat
    requires g <= n
  {
    Min(Pow2(k), n - g)
  }

  /**
    The choice is the best possible: no tree of any other size, with its words in any number of pages that holds
    them, manages more pages, and none that is smaller manages as many.
  */
  lemma InitSizeBest(n: nat, k: nat, g: nat)
    requires 1 < n < WORD / 8 && Feasible(n, k, g)
    ensures Managed(n, k, g) <= InitSize(n).alloc
    ensures Managed(n, k, g) == InitSize(n).alloc ==> InitSize(n).virtual <= Pow2(k)
  {
    hide Pow2, RoundUp, RoundDown, InitSize;
    assert g > 0;
    if n < 512 {
      var j := RoundUpMeaning(n - 1);
      if k < j {
        PowerMonotone(k, j - 1);
      } else {
        PowerMonotone(j, k);
      }
      SmallBest(n, j, Pow2(k), g);
    } else {
      var h := RoundDownMeaning(n);
      var f := LargeTree(n, h);
      NextPower(h);
      NextPower(h + 1);
      if k < h {
        PowerMonotone(k, h - 1);
        NextPower(h - 1);
      } else if k > h + 1 {
        PowerMonotone(h + 2, k);
      }
      LargeBest(n, f, Pow2(k), g);
    }
  }

  lemma SmallBest(n: nat, j: nat, p: nat, g: nat)
    requires 1 < n < 512 && n < WORD / 8 && RoundUp(n - 1) == Pow2(j) >= n - 1 && 0 < g <= n
    requires p >= Pow2(j) || p < n - 1
    ensures Min(p, n - g) <= InitSize(n).alloc
    ensures Min(p, n - g) == InitSize(n).alloc ==> InitSize(n).virtual <= p
  {
    hide Pow2, RoundUp;
  }

  lemma LargeBest(n: nat, f: nat, p: nat, g: nat)
    requires f > 0 && 512 * f <= n < 1024 * f && 512 <= n < WORD / 8 && RoundDown(n) == 512 * f
    requires p <= 256 * f || p == 512 * f || p == 1024 * f || p >= 2048 * f
    requires 2 * p * 4 <= g * PGSIZE && 0 < g <= n
    ensures Min(p, n - g) <= InitSize(n).alloc
    ensures Min(p, n - g) == InitSize(n).alloc ==> InitSize(n).virtual <= p
  {
    assert 512 * f * 4 * 2 / PGSIZE == f;
  }

  lemma NextPower(h: nat)
    ensures Pow2(h + 1) == 2 * Pow2(h)
  {
  }

  lemma SmallTree(n: nat) returns (h: nat)
    requires 1 < n < 512
    ensures h <= 9 && RoundUp(n - 1) == Pow2(h) <= 512
  {
    h := RoundUpMeaning(n - 1);
    assert Pow2(9) == 512;
    if h > 9 { PowerMonotone(9, h - 1); }
    PowerMonotone(h, 9);
  }

  lemma LargeTree(n: nat, h: nat) returns (g: nat)
    requires 512 <= n < WORD / 8 && Pow2(h) <= n < 2 * Pow2(h)
    ensures 9 <= h < 29 && g > 0 && Pow2(h) == 512 * g
  {
    assert Pow2(9) == 512;
    if h < 9 { PowerMonotone(h + 1, 9); }
    PowerProduct(9, h - 9);
    g := Pow2(h - 9);
    WordIsPower();
    assert Pow2(31) == 4 * Pow2(29);
    if h >= 29 { PowerMonotone(29, h); }
  }
}
