/** The bytes of files, and writing over them piece by piece. */
module SfsBytes {
  import opened SfsLayout
  import opened SfsSteps
  import opened SfsFiles

  /** Byte `p` of file `ino`, read through its block map; where the file has no block it is zero. */
  ghost function ByteAt(s: Fs, ino: nat, p: nat): Byte
    requires IsDisk(s.disk) && ino in s.inodes && Mapped(s, ino)
  {
    if p / 4096 < NBLOCKS && p / 4096 < s.inodes[ino].blocks then
      var b := BlockOf(s.inodes[ino], s.disk, p / 4096);
      if b < |s.disk| then s.disk[b][p % 4096] else 0
    else 0
  }

  /** The contents of a file. */
  ghost function Contents(s: Fs, ino: nat): seq<Byte>
    requires IsDisk(s.disk) && ino in s.inodes && Mapped(s, ino)
  {
    seq(s.inodes[ino].size, p requires 0 <= p => ByteAt(s, ino, p))
  }

  ghost predicate OthersSame(s: Fs, s': Fs, ino: nat)
    requires IsDisk(s.disk)
  {
    s'.inodes.Keys == s.inodes.Keys && forall x :: x in s.inodes && x != ino ==> SameFile(s, s', x)
  }

  /** Byte `p` is as `data`, laid over the file at `off`, has it; so bytes of new blocks are zero. */
  ghost predicate LaidAt(s: Fs, s': Fs, ino: nat, off: nat, data: seq<Byte>, p: nat)
    requires IsDisk(s.disk) && IsDisk(s'.disk) && ino in s.inodes && ino in s'.inodes && Mapped(s, ino)
    requires Mapped(s', ino)
  {
    ByteAt(s', ino, p) ==
      if off <= p < off + |data| then data[p - off] else ByteAt(s, ino, p)
  }

  /** `s'` is `s` with `data` written over file `ino` at `off`, growing as needed; other files are untouched. */
  ghost predicate Overlay(s: Fs, s': Fs, ino: nat, off: nat, data: seq<Byte>)
    requires IsDisk(s.disk) && ino in s.inodes && Mapped(s, ino)
  {
    && IsDisk(s'.disk) && OthersSame(s, s', ino) && Mapped(s', ino)
    && s'.inodes[ino].size == s.inodes[ino].size && s.inodes[ino].blocks <= s'.inodes[ino].blocks
    && (data != [] ==> off + |data| <= s'.inodes[ino].blocks * 4096)
    && forall p: nat :: LaidAt(s, s', ino, off, data, p)
  }

  lemma NothingLaid(s: Fs, ino: nat, off: nat)
    requires IsDisk(s.disk) && AllDense(s) && ino in s.inodes && Mapped(s, ino)
    ensures Overlay(s, s, ino, off, [])
  {
    forall x | x in s.inodes && x != ino ensures SameFile(s, s, x) {
      forall j | 0 <= j < NBLOCKS ensures SameBlock(s, s, x, j) {
      }
    }
  }

  lemma SameFileTrans(s: Fs, s1: Fs, s2: Fs, x: nat)
    requires IsDisk(s.disk) && IsDisk(s1.disk) && SameFile(s, s1, x) && SameFile(s1, s2, x)
    ensures SameFile(s, s2, x)
  {
    forall j | 0 <= j < NBLOCKS ensures SameBlock(s, s2, x, j) {
      assert SameBlock(s, s1, x, j) && SameBlock(s1, s2, x, j);
    }
  }

  lemma OthersTrans(s: Fs, s1: Fs, s2: Fs, ino: nat)
    requires IsDisk(s.disk) && IsDisk(s1.disk) && OthersSame(s, s1, ino) && OthersSame(s1, s2, ino)
    ensures OthersSame(s, s2, ino)
  {
    forall x | x in s.inodes && x != ino ensures SameFile(s, s2, x) {
      SameFileTrans(s, s1, s2, x);
    }
  }

  /** Writing one piece after the other is writing both. */
  lemma OverlayTwice(s: Fs, s1: Fs, s2: Fs, ino: nat, off: nat, d1: seq<Byte>, d2: seq<Byte>)
    requires IsDisk(s.disk) && ino in s.inodes && Mapped(s, ino)
    requires Overlay(s, s1, ino, off, d1) && Overlay(s1, s2, ino, off + |d1|, d2)
    ensures Overlay(s, s2, ino, off, d1 + d2)
  {
    OthersTrans(s, s1, s2, ino);
    forall p: nat ensures LaidAt(s, s2, ino, off, d1 + d2, p) {
      assert LaidAt(s1, s2, ino, off + |d1|, d2, p) && LaidAt(s, s1, ino, off, d1, p);
    }
  }

  /** A block appended to a file adds zeros behind its bytes. */
  lemma AppendedLays(s: Fs, s': Fs, ino: nat, b: nat, off: nat)
    requires Sound(s, {}) && AllDense(s) && ino in s.inodes && Mapped(s, ino) && Appended(s, s', ino, b)
    ensures Overlay(s, s', ino, off, [])
  {
    var n := s.inodes[ino].blocks;
    forall p: nat ensures LaidAt(s, s', ino, off, [], p) {
      if p / 4096 < n && p / 4096 < NBLOCKS {
        assert SameBlock(s, s', ino, p / 4096);
        assert Recorded(s, ino) && RecordedAt(s, ino, p / 4096) && Dense(s, ino) && DenseAt(s, ino, p / 4096);
      }
    }
  }

  /** sfs_wbuf (or sfs_wblock) on block `i` of the file. */
  ghost function Patched(s: Fs, b: nat, at: nat, data: seq<Byte>): Fs
    requires IsDisk(s.disk) && b < |s.disk| && at + |data| <= BLKSIZE
  {
    s.(disk := s.disk[b := Patch(s.disk[b], at, data)])
  }

  lemma PatchedMapping(s: Fs, ino: nat, i: nat, at: nat, data: seq<Byte>, x: nat, j: nat)
    requires Sound(s, {}) && ino in s.inodes && i < NBLOCKS && Mapped(s, ino) && at + |data| <= BLKSIZE
    requires BlockOf(s.inodes[ino], s.disk, i) != 0 && x in s.inodes && j < NBLOCKS
    ensures var b := BlockOf(s.inodes[ino], s.disk, i);
      && b < |s.disk| && Mapped(s, x)
      && BlockOf(s.inodes[x], Patched(s, b, at, data).disk, j) == BlockOf(s.inodes[x], s.disk, j)
      && (BlockOf(s.inodes[x], s.disk, j) == b <==> x == ino && j == i)
  {
    var b := BlockOf(s.inodes[ino], s.disk, i);
    assert Recorded(s, ino) && RecordedAt(s, ino, i);
    assert Mapped(s, x) && Recorded(s, x) && RecordedAt(s, x, j);
    SameMapping(s, {}, b, Patch(s.disk[b], at, data), x, j);
  }

  lemma PatchedLays(s: Fs, ino: nat, i: nat, at: nat, data: seq<Byte>)
    requires Sound(s, {}) && AllDense(s) && ino in s.inodes && Mapped(s, ino) && i < s.inodes[ino].blocks
    requires at + |data| <= BLKSIZE && i < NBLOCKS
    ensures var b := BlockOf(s.inodes[ino], s.disk, i);
      0 < b < |s.disk| && Sound(Patched(s, b, at, data), {})
        && Overlay(s, Patched(s, b, at, data), ino, i * 4096 + at, data)
  {
    var b := BlockOf(s.inodes[ino], s.disk, i);
    assert Dense(s, ino) && DenseAt(s, ino, i) && Recorded(s, ino) && RecordedAt(s, ino, i);
    var s' := Patched(s, b, at, data);
    WrittenSound(s, {}, b, Patch(s.disk[b], at, data));
    forall x | x in s.inodes && x != ino ensures SameFile(s, s', x) {
      assert Mapped(s, x);
      forall j | 0 <= j < NBLOCKS ensures SameBlock(s, s', x, j) {
        PatchedMapping(s, ino, i, at, data, x, j);
      }
    }
    var off := i * 4096 + at;
    forall p: nat ensures LaidAt(s, s', ino, off, data, p) {
      PatchedByte(s, ino, i, at, data, p);
    }
    Inside(i, at, |data|, s.inodes[ino].blocks);
  }

  lemma Inside(i: nat, at: nat, len: nat, n: nat)
    requires i < n && at + len <= BLKSIZE
    ensures i * 4096 + at + len <= n * 4096
  {
  }

  lemma PatchedByte(s: Fs, ino: nat, i: nat, at: nat, data: seq<Byte>, p: nat)
    requires Sound(s, {}) && AllDense(s) && ino in s.inodes && Mapped(s, ino) && i < s.inodes[ino].blocks
    requires at + |data| <= BLKSIZE && i < NBLOCKS
    requires BlockOf(s.inodes[ino], s.disk, i) != 0 && BlockOf(s.inodes[ino], s.disk, i) < |s.disk|
    ensures LaidAt(s, Patched(s, BlockOf(s.inodes[ino], s.disk, i), at, data), ino, i * 4096 + at, data, p)
  {
    var b := BlockOf(s.inodes[ino], s.disk, i);
    var j, k := p / 4096, p % 4096;
    if j < NBLOCKS { PatchedMapping(s, ino, i, at, data, ino, j); }
    assert p == j * 4096 + k;
    PatchAt(s.disk[b], at, data, k);
  }

  lemma PatchedDense(s: Fs, ino: nat, i: nat, at: nat, data: seq<Byte>)
    requires Sound(s, {}) && AllDense(s) && ino in s.inodes && Mapped(s, ino) && i < s.inodes[ino].blocks
    requires at + |data| <= BLKSIZE && i < NBLOCKS
    requires var b := BlockOf(s.inodes[ino], s.disk, i); b != 0 && b < |s.disk|
    ensures AllDense(Patched(s, BlockOf(s.inodes[ino], s.disk, i), at, data))
  {
    var s' := Patched(s, BlockOf(s.inodes[ino], s.disk, i), at, data);
    forall x | x in s'.inodes ensures Mapped(s', x) && Dense(s', x) {
      assert Mapped(s, x) && Dense(s, x);
      forall j | 0 <= j < NBLOCKS ensures DenseAt(s', x, j) {
        assert DenseAt(s, x, j);
        PatchedMapping(s, ino, i, at, data, x, j);
      }
    }
  }

  /** The file has just the blocks its size takes. */
  ghost predicate Sized(s: Fs, ino: nat)
    requires ino in s.inodes
  {
    s.inodes[ino].blocks == BlocksFor(s.inodes[ino].size)
  }

  /** Every byte of the file lies in one of its blocks; it may have more blocks than that takes. */
  ghost predicate Covered(s: Fs, ino: nat)
    requires ino in s.inodes
  {
    BlocksFor(s.inodes[ino].size) <= s.inodes[ino].blocks
  }

  /** Every byte of the file lies in one of its blocks, or in the block after the last. */
  ghost predicate Near(s: Fs, ino: nat)
    requires ino in s.inodes
  {
    BlocksFor(s.inodes[ino].size) <= s.inodes[ino].blocks + 1
  }

  ghost predicate AllCovered(s: Fs) {
    forall ino :: ino in s.inodes ==> Covered(s, ino)
  }

  ghost predicate AllNear(s: Fs) {
    forall ino :: ino in s.inodes ==> Near(s, ino)
  }

  /** If only one file has changed it alone needs to be looked at. */
  lemma StillNear(s: Fs, s': Fs, ino: nat)
    requires IsDisk(s.disk) && AllNear(s) && OthersSame(s, s', ino) && (ino in s'.inodes ==> Near(s', ino))
    ensures AllNear(s')
  {
    forall x | x in s'.inodes ensures Near(s', x) {
      assert Near(s, x) && (x != ino ==> SameFile(s, s', x));
    }
  }

  lemma CoveredNear(s: Fs)
    requires AllCovered(s)
    ensures AllNear(s)
  {
    forall x | x in s.inodes ensures Near(s, x) { assert Covered(s, x); }
  }

  lemma InFile(p: nat, size: nat)
    requires p < size
    ensures p / 4096 < BlocksFor(size)
  {
  }

  ghost function Spliced(f: seq<Byte>, off: nat, d: seq<Byte>): seq<Byte>
    requires off <= |f|
  {
    f[..off] + d + if off + |d| <= |f| then f[off + |d|..] else []
  }

  /** Setting the size after a write at or before the end makes the file's contents the spliced ones. */
  lemma SplicedContents(s: Fs, s1: Fs, ino: nat, off: nat, data: seq<Byte>)
    requires IsDisk(s.disk) && ino in s.inodes && Mapped(s, ino) && off <= s.inodes[ino].size
    requires Overlay(s, s1, ino, off, data)
    ensures var s' := Resized(s1, ino, NewSize(s, ino, off, data), s1.inodes[ino].blocks);
      Mapped(s', ino) && Contents(s', ino) == Spliced(Contents(s, ino), off, data)
  {
    var n := NewSize(s, ino, off, data);
    var s', f := Resized(s1, ino, n, s1.inodes[ino].blocks), Contents(s, ino);
    hide ByteAt;
    forall p: nat | p < n ensures Contents(s', ino)[p] == Spliced(f, off, data)[p] {
      ResizedLays(s, s1, ino, off, data, n, p);
    }
  }

  /** Whatever the size is set to, the bytes in the blocks are those laid over the file. */
  lemma ResizedLays(s: Fs, s1: Fs, ino: nat, off: nat, data: seq<Byte>, size: nat, p: nat)
    requires IsDisk(s.disk) && ino in s.inodes && Mapped(s, ino) && Overlay(s, s1, ino, off, data)
    ensures var s' := Resized(s1, ino, size, s1.inodes[ino].blocks);
      Mapped(s', ino) && LaidAt(s, s', ino, off, data, p)
  {
    assert LaidAt(s, s1, ino, off, data, p);
    ResizedMapping(s1, ino, size, s1.inodes[ino].blocks, ino, if p / 4096 < NBLOCKS then p / 4096 else 0);
  }

  /** Where nothing is written the contents stay, even if the file has got a block. */
  lemma NothingNew(s: Fs, s': Fs, ino: nat, off: nat)
    requires IsDisk(s.disk) && ino in s.inodes && Mapped(s, ino) && Overlay(s, s', ino, off, [])
    ensures Contents(s', ino) == Contents(s, ino)
  {
    hide ByteAt;
    forall p: nat | p < s.inodes[ino].size ensures Contents(s', ino)[p] == Contents(s, ino)[p] {
      assert LaidAt(s, s', ino, off, [], p);
    }
  }

  ghost function NewSize(s: Fs, ino: nat, off: nat, data: seq<Byte>): nat
    requires ino in s.inodes
  {
    if off + |data| > s.inodes[ino].size then off + |data| else s.inodes[ino].size
  }

  lemma ResizedDense(s: Fs, ino: nat, size: nat)
    requires AllDense(s) && ino in s.inodes
    ensures AllDense(Resized(s, ino, size, s.inodes[ino].blocks))
  {
    var s' := Resized(s, ino, size, s.inodes[ino].blocks);
    forall x | x in s'.inodes ensures Mapped(s', x) && Dense(s', x) {
      assert Mapped(s, x) && Dense(s, x);
      forall j | 0 <= j < NBLOCKS ensures DenseAt(s', x, j) {
        assert DenseAt(s, x, j);
      }
    }
  }

  lemma ResizedOthers(s: Fs, s1: Fs, ino: nat, size: nat, blocks: nat)
    requires IsDisk(s.disk) && ino in s1.inodes && OthersSame(s, s1, ino)
    ensures OthersSame(s, Resized(s1, ino, size, blocks), ino)
  {
    var s' := Resized(s1, ino, size, blocks);
    forall x | x in s.inodes && x != ino ensures SameFile(s, s', x) {
      ResizedOther(s, s1, ino, size, blocks, x);
    }
  }

  /** A file that is the same has the same contents. */
  lemma SameContents(s: Fs, s': Fs, x: nat)
    requires Sound(s, {}) && AllDense(s) && x in s.inodes && SameFile(s, s', x)
    ensures Mapped(s, x) && Contents(s', x) == Contents(s, x)
  {
    assert Mapped(s, x) && Recorded(s, x) && Dense(s, x);
    forall p: nat | p < s.inodes[x].size ensures Contents(s', x)[p] == Contents(s, x)[p] {
      var j := p / 4096;
      if j < NBLOCKS { assert SameBlock(s, s', x, j) && RecordedAt(s, x, j) && DenseAt(s, x, j); }
    }
  }

  /** File `ino` may have lost blocks at its end; the bytes in the others are the same. */
  ghost predicate Cut(s: Fs, s': Fs, ino: nat)
    requires IsDisk(s.disk) && ino in s.inodes && Mapped(s, ino)
  {
    && IsDisk(s'.disk) && OthersSame(s, s', ino) && Mapped(s', ino)
    && s'.inodes[ino].size == s.inodes[ino].size && s'.inodes[ino].blocks <= s.inodes[ino].blocks
    && forall p: nat :: p / 4096 < s'.inodes[ino].blocks ==> ByteAt(s', ino, p) == ByteAt(s, ino, p)
  }

  lemma NothingCut(s: Fs, ino: nat)
    requires IsDisk(s.disk) && AllDense(s) && ino in s.inodes && Mapped(s, ino)
    ensures Cut(s, s, ino)
  {
    NothingLaid(s, ino, 0);
  }

  lemma DroppedCuts(s: Fs, s': Fs, ino: nat)
    requires Sound(s, {}) && AllDense(s) && ino in s.inodes && Mapped(s, ino) && Dropped(s, s', ino)
    ensures Cut(s, s', ino)
  {
    forall p: nat | p / 4096 < s'.inodes[ino].blocks ensures ByteAt(s', ino, p) == ByteAt(s, ino, p) {
      var j := p / 4096;
      if j < NBLOCKS && s.inodes[ino].blocks <= NBLOCKS {
        assert SameBlock(s, s', ino, j);
        assert Recorded(s, ino) && RecordedAt(s, ino, j) && Dense(s, ino) && DenseAt(s, ino, j);
      } else if j < NBLOCKS {
        ResizedMapping(s, ino, s.inodes[ino].size, s.inodes[ino].blocks - 1, ino, j);
      }
    }
  }

  lemma CutTwice(s: Fs, s1: Fs, s2: Fs, ino: nat)
    requires IsDisk(s.disk) && ino in s.inodes && Mapped(s, ino) && Cut(s, s1, ino) && Cut(s1, s2, ino)
    ensures Cut(s, s2, ino)
  {
    OthersTrans(s, s1, s2, ino);
  }
}
