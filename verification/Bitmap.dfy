/**
  The bitmap of free disk blocks (kern/fs/sfs/bitmap.c): an array of 32-bit words in which a set bit marks a
  free block.
*/
module Bitmap {
  import opened Options
  import opened Bits

  const WORD_BITS: nat := 32

  ghost predicate BitOf(words: seq<nat>, i: nat) {
    i / 32 < |words| && Bit(words[i / 32], i % 32)
  }

  ghost function SetBits(words: seq<nat>): set<nat> {
    set i: nat | i < 32 * |words| && BitOf(words, i)
  }

  ghost predicate Words(words: seq<nat>) {
    forall k :: 0 <= k < |words| ==> words[k] < Pow2(32)
  }

  lemma Flipped(words: seq<nat>, k: nat, offset: nat)
    requires Words(words) && k < |words| && offset < 32
    ensures var words' := words[k := Xor(words[k], Pow2(offset))];
      && Words(words')
      && forall i: nat :: i < 32 * |words| ==>
        BitOf(words', i) == if i == 32 * k + offset then !BitOf(words, i) else BitOf(words, i)
  {
    var words' := words[k := Xor(words[k], Pow2(offset))];
    PowerMonotone(offset, 32);
    PowerMonotone(offset, 31);
    XorBelow(words[k], Pow2(offset), 32);
    forall i: nat | i < 32 * |words|
      ensures BitOf(words', i) == if i == 32 * k + offset then !BitOf(words, i) else BitOf(words, i)
    {
      XorBit(words[k], Pow2(offset), i % 32);
      PowerBits(offset, i % 32);
    }
  }

  lemma Lowered(words: seq<nat>, k: nat, offset: nat)
    requires Words(words) && k < |words| && offset < 32 && Bit(words[k], offset)
    ensures 32 * k + offset in SetBits(words)
    ensures SetBits(words[k := Xor(words[k], Pow2(offset))]) == SetBits(words) - {32 * k + offset}
  {
    Flipped(words, k, offset);
    assert BitOf(words, 32 * k + offset);
  }

  lemma Raised(words: seq<nat>, k: nat, offset: nat)
    requires Words(words) && k < |words| && offset < 32
    ensures var words' := words[k := Or(words[k], Pow2(offset))];
      && Words(words')
      && forall i: nat :: i < 32 * |words| ==> BitOf(words', i) == (i == 32 * k + offset || BitOf(words, i))
  {
    var words' := words[k := Or(words[k], Pow2(offset))];
    assert Pow2(offset) < Pow2(32) by { PowerMonotone(offset, 31); }
    OrBelow(words[k], Pow2(offset), 32);
    forall i: nat | i < 32 * |words| ensures BitOf(words', i) == (i == 32 * k + offset || BitOf(words, i)) {
      OrBit(words[k], Pow2(offset), i % 32);
      PowerBits(offset, i % 32);
    }
  }

  lemma RaisedSet(words: seq<nat>, k: nat, offset: nat)
    requires Words(words) && k < |words| && offset < 32
    ensures SetBits(words[k := Or(words[k], Pow2(offset))]) == SetBits(words) + {32 * k + offset}
  {
    Raised(words, k, offset);
    assert BitOf(words[k := Or(words[k], Pow2(offset))], 32 * k + offset);
  }

  class Bitmap {
    const nbits: nat
    const words: array<nat>

    /** The free blocks. */
    ghost function Free(): set<nat>
      reads words
    {
      SetBits(words[..])
    }

    ghost predicate Valid()
      reads words
    {
      && Words(words[..]) && nbits <= 32 * words.Length
      && forall i: nat :: i in Free() ==> i < nbits
    }

    /** bitmap_create: all blocks free, and no bits set beyond the last block. */
    constructor (nbits: nat)
      requires nbits > 0
      ensures Valid() && this.nbits == nbits && fresh(words) && words.Length == (nbits + 31) / 32
      ensures forall i: nat :: i in Free() <==> i < nbits
    {
      hide Bit, Xor;
      this.nbits := nbits;
      var nwords := (nbits + WORD_BITS - 1) / WORD_BITS;
      words := new nat[nwords](_ => Pow2(32) - 1);
      new;
      forall i: nat | i < 32 * nwords ensures BitOf(words[..], i) { AllOnes(32, i % 32); }
      if nbits != nwords * WORD_BITS {
        var ix := nwords - 1;
        var overbits := nbits - ix * WORD_BITS;
        assert nbits / WORD_BITS == ix && 0 < overbits < WORD_BITS;
        while overbits < WORD_BITS
          invariant 0 < overbits <= WORD_BITS && Words(words[..])
          invariant forall i: nat :: i < 32 * nwords ==> BitOf(words[..], i) == (i < nbits || i >= 32 * ix + overbits)
        {
          Flipped(words[..], ix, overbits);
          ghost var was := words[..];
          words[ix] := Xor(words[ix], Pow2(overbits));
          assert words[..] == was[ix := Xor(was[ix], Pow2(overbits))];
          overbits := overbits + 1;
        }
      }
    }

    /** bitmap_alloc: the lowest free block, no longer free; nothing when no block is free. */
    method Alloc() returns (r: Option<nat>)
      requires Valid()
      modifies words
      ensures Valid()
      ensures r.None? <==> old(Free()) == {}
      ensures r.None? ==> Free() == old(Free())
      ensures r.Some? ==> r.value in old(Free()) && Free() == old(Free()) - {r.value} && forall i: nat ::
        i in old(Free()) ==> r.value <= i
    {
      var ix := 0;
      while ix < words.Length
        invariant ix <= words.Length && words[..] == old(words[..])
        invariant forall i: nat :: i in Free() ==> i >= 32 * ix
      {
        if words[ix] != 0 {
          var offset := TakeLowest(ix);
          return Some(ix * WORD_BITS + offset);
        }
        forall i | i in Free() ensures i >= 32 * (ix + 1) { ZeroHasNoBits(i % 32); }
        ix := ix + 1;
      }
      return None;
    }

    method TakeLowest(ix: nat) returns (offset: nat)
      requires Valid() && ix < words.Length && words[ix] != 0 && forall i: nat :: i in Free() ==> i >= 32 * ix
      modifies words
      ensures Valid() && 32 * ix + offset in old(Free()) && Free() == old(Free()) - {32 * ix + offset}
      ensures forall i: nat :: i in old(Free()) ==> 32 * ix + offset <= i
    {
      ghost var was := words[..];
      assert was[ix] == words[ix] && Free() == SetBits(was);
      offset := Lowest(words[ix]);
      Flipped(was, ix, offset);
      Lowered(was, ix, offset);
      LowestIsLeast(was, ix, offset);
      words[ix] := Xor(words[ix], Pow2(offset));
      assert words[..] == was[ix := Xor(was[ix], Pow2(offset))];
    }

    /** bitmap_test */
    method Test(index: nat) returns (free: bool)
      requires Valid() && index < nbits
      ensures free <==> index in Free()
    {
      TestBit(words[index / WORD_BITS], index % WORD_BITS);
      free := And(Pow2(index % WORD_BITS), words[index / WORD_BITS]) != 0;
    }

    /** bitmap_free of a block that is in use. */
    method Release(index: nat)
      requires Valid() && index < nbits && index !in Free()
      modifies words
      ensures Valid() && Free() == old(Free()) + {index}
    {
      var ix, offset := index / WORD_BITS, index % WORD_BITS;
      ghost var was := words[..];
      Raised(was, ix, offset);
      RaisedSet(was, ix, offset);
      words[ix] := Or(words[ix], Pow2(offset));
      assert words[..] == was[ix := Or(was[ix], Pow2(offset))];
    }
  }

  /** The inner loop of bitmap_alloc; its assertion that a bit is found never fails. */
  method Lowest(w: nat) returns (offset: nat)
    requires 0 < w < Pow2(32)
    ensures offset < 32 && Bit(w, offset) && forall k :: 0 <= k < offset ==> !Bit(w, k)
  {
    ghost var top := LargeHasHighBit(w, 0);
    if top >= 32 { PowerMonotone(32, top); }
    offset := 0;
    while And(Pow2(offset), w) == 0
      invariant offset <= top && forall k :: 0 <= k < offset ==> !Bit(w, k)
      decreases top - offset
    {
      TestBit(w, offset);
      offset := offset + 1;
    }
    TestBit(w, offset);
  }

  lemma LowestIsLeast(words: seq<nat>, ix: nat, offset: nat)
    requires ix < |words| && offset < 32 && (forall k :: 0 <= k < offset ==> !Bit(words[ix], k))
    requires forall i: nat :: i in SetBits(words) ==> i >= 32 * ix
    ensures forall i: nat :: i in SetBits(words) ==> i >= 32 * ix + offset
  {
    forall i | i in SetBits(words) ensures i >= 32 * ix + offset {
      assert i / 32 == ix ==> Bit(words[ix], i % 32);
    }
  }
}
