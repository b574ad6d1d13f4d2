/**
  Bit operations on natural numbers, as far as the page allocators need them: bits, or, and, shifts
  and powers of two, with the laws that connect them to arithmetic.
*/
module Bits {

  function Pow2(k: nat): (r: nat)
    ensures r >= 1
  {
    if k == 0 then 1 else 2 * Pow2(k - 1)
  }

  predicate Bit(a: nat, k: nat) {
    if k == 0 then a % 2 == 1 else Bit(a / 2, k - 1)
  }

  /** a | b */
  function Or(a: nat, b: nat): nat
    decreases a + b
  {
    if a == 0 then b else if b == 0 then a
    else 2 * Or(a / 2, b / 2) + if a % 2 == 1 || b % 2 == 1 then 1 else 0
  }

  /** a & b */
  function And(a: nat, b: nat): nat
    decreases a + b
  {
    if a == 0 || b == 0 then 0
    else 2 * And(a / 2, b / 2) + if a % 2 == 1 && b % 2 == 1 then 1 else 0
  }

  /** a ^ b */
  function Xor(a: nat, b: nat): nat
    decreases a + b
  {
    if a == 0 then b else if b == 0 then a
    else 2 * Xor(a / 2, b / 2) + if a % 2 == b % 2 then 0 else 1
  }

  /** a >> n */
  function Shr(a: nat, n: nat): nat {
    if n == 0 then a else Shr(a / 2, n - 1)
  }

  lemma {:induction false} ZeroHasNoBits(k: nat)
    ensures !Bit(0, k)
  {
    if k > 0 { ZeroHasNoBits(k - 1); }
  }

  lemma {:induction false} OrBit(a: nat, b: nat, k: nat)
    ensures Bit(Or(a, b), k) <==> Bit(a, k) || Bit(b, k)
    decreases k
  {
    ZeroHasNoBits(k);
    if a != 0 && b != 0 {
      var r := Or(a / 2, b / 2);
      assert Or(a, b) / 2 == r;
      if k > 0 { OrBit(a / 2, b / 2, k - 1); }
    }
  }

  lemma {:induction false} AndBit(a: nat, b: nat, k: nat)
    ensures Bit(And(a, b), k) <==> Bit(a, k) && Bit(b, k)
    decreases k
  {
    ZeroHasNoBits(k);
    if a != 0 && b != 0 {
      assert And(a, b) / 2 == And(a / 2, b / 2);
      if k > 0 { AndBit(a / 2, b / 2, k - 1); }
    }
  }

  lemma {:induction false} XorBit(a: nat, b: nat, k: nat)
    ensures Bit(Xor(a, b), k) <==> Bit(a, k) != Bit(b, k)
    decreases k
  {
    ZeroHasNoBits(k);
    if a != 0 && b != 0 {
      assert Xor(a, b) / 2 == Xor(a / 2, b / 2);
      if k > 0 { XorBit(a / 2, b / 2, k - 1); }
    }
  }

  lemma {:induction false} ShrBit(a: nat, n: nat, k: nat)
    ensures Bit(Shr(a, n), k) <==> Bit(a, k + n)
    decreases n
  {
    if n > 0 { ShrBit(a / 2, n - 1, k); }
  }

  /** Numbers are determined by their bits. */
  lemma {:induction false} SameBits(a: nat, b: nat)
    requires forall k: nat :: Bit(a, k) == Bit(b, k)
    ensures a == b
    decreases a + b
  {
    assert Bit(a, 0) == Bit(b, 0);
    if a != 0 || b != 0 {
      forall k: nat ensures Bit(a / 2, k) == Bit(b / 2, k) {
        assert Bit(a, k + 1) == Bit(b, k + 1);
      }
      SameBits(a / 2, b / 2);
    }
  }

  lemma {:induction false} SmallHasNoHighBits(a: nat, j: nat, k: nat)
    requires a < Pow2(j) && j <= k
    ensures !Bit(a, k)
    decreases k
  {
    if k > 0 {
      if j > 0 { SmallHasNoHighBits(a / 2, j - 1, k - 1); } else { ZeroHasNoBits(k); }
    }
  }

  /** The highest bit of a number that is not below 2^j lies at j or above. */
  lemma {:induction false} LargeHasHighBit(a: nat, j: nat) returns (k: nat)
    requires Pow2(j) <= a
    ensures j <= k && Bit(a, k) && Pow2(k) <= a < Pow2(k + 1)
    decreases a
  {
    if a == 1 {
      k := 0;
    } else {
      k := LargeHasHighBit(a / 2, if j == 0 then 0 else j - 1);
      k := k + 1;
    }
  }

  lemma {:induction false} BitMeansLarge(a: nat, k: nat)
    requires Bit(a, k)
    ensures Pow2(k) <= a
  {
    if Pow2(k) > a { SmallHasNoHighBits(a, k, k); }
  }

  lemma {:induction false} PowerBits(j: nat, k: nat)
    ensures Bit(Pow2(j), k) <==> j == k
    decreases k
  {
    if j == 0 {
      if k > 0 { ZeroHasNoBits(k - 1); }
    } else if k > 0 {
      assert Pow2(j) / 2 == Pow2(j - 1);
      PowerBits(j - 1, k - 1);
    }
  }

  lemma {:induction false} PowerMonotone(j: nat, k: nat)
    requires j <= k
    ensures Pow2(j) <= Pow2(k)
    ensures j < k ==> 2 * Pow2(j) <= Pow2(k)
  {
    if j < k { PowerMonotone(j, k - 1); }
  }

  lemma {:induction false} PowerProduct(j: nat, k: nat)
    ensures Pow2(j) * Pow2(k) == Pow2(j + k)
  {
    if j > 0 {
      PowerProduct(j - 1, k);
      assert Pow2(j) * Pow2(k) == 2 * (Pow2(j - 1) * Pow2(k));
    } else {
      assert Pow2(0) * Pow2(k) == Pow2(k);
    }
  }

  /** Testing one bit with `&`. */
  lemma TestBit(a: nat, j: nat)
    ensures And(Pow2(j), a) != 0 <==> Bit(a, j)
  {
    AndBit(Pow2(j), a, j);
    PowerBits(j, j);
    if And(Pow2(j), a) != 0 {
      var k := LargeHasHighBit(And(Pow2(j), a), 0);
      AndBit(Pow2(j), a, k);
      PowerBits(j, k);
    } else {
      ZeroHasNoBits(j);
    }
  }

  /** `|` stays below a power of two exactly when both operands do. */
  lemma OrBelow(a: nat, b: nat, j: nat)
    ensures Or(a, b) < Pow2(j) <==> a < Pow2(j) && b < Pow2(j)
  {
    if Or(a, b) >= Pow2(j) {
      var k := LargeHasHighBit(Or(a, b), j);
      OrBit(a, b, k);
      if a < Pow2(j) { SmallHasNoHighBits(a, j, k); }
      if b < Pow2(j) { SmallHasNoHighBits(b, j, k); }
    } else {
      if a >= Pow2(j) {
        var k := LargeHasHighBit(a, j);
        OrBit(a, b, k);
        SmallHasNoHighBits(Or(a, b), j, k);
      }
      if b >= Pow2(j) {
        var k := LargeHasHighBit(b, j);
        OrBit(a, b, k);
        SmallHasNoHighBits(Or(a, b), j, k);
      }
    }
  }

  /** Removing the top bit. */
  lemma XorBelow(a: nat, b: nat, j: nat)
    requires a < Pow2(j) && b < Pow2(j)
    ensures Xor(a, b) < Pow2(j)
  {
    if Xor(a, b) >= Pow2(j) {
      var k := LargeHasHighBit(Xor(a, b), j);
      XorBit(a, b, k);
      SmallHasNoHighBits(a, j, k);
      SmallHasNoHighBits(b, j, k);
    }
  }

  lemma {:induction false} AllOnes(n: nat, k: nat)
    ensures Bit(Pow2(n) - 1, k) <==> k < n
    decreases n
  {
    if n == 0 {
      ZeroHasNoBits(k);
    } else {
      assert (Pow2(n) - 1) / 2 == Pow2(n - 1) - 1;
      if k > 0 { AllOnes(n - 1, k - 1); }
    }
  }

  lemma {:induction false} DropTop(a: nat, k: nat, i: nat)
    requires Pow2(k) <= a < Pow2(k + 1)
    ensures Bit(a - Pow2(k), i) <==> Bit(a, i) && i != k
    ensures Bit(a, k)
    decreases k
  {
    if k == 0 {
      assert a == 1;
      ZeroHasNoBits(i);
      if i > 0 { ZeroHasNoBits(i - 1); }
    } else {
      assert (a - Pow2(k)) / 2 == a / 2 - Pow2(k - 1);
      DropTop(a / 2, k - 1, if i == 0 then 0 else i - 1);
    }
  }

  /** A power of two and a smaller number share no bit, so `|` adds them. */
  lemma {:induction false} OrAdds(k: nat, r: nat)
    requires r < Pow2(k)
    ensures Or(Pow2(k), r) == Pow2(k) + r
    decreases k
  {
    if r != 0 {
      assert Pow2(k) / 2 == Pow2(k - 1);
      OrAdds(k - 1, r / 2);
    }
  }
}
