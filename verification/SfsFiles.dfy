/** Files: their blocks without gaps, their bytes, and how these change. */
module SfsFiles {
  import opened SfsLayout
  import opened SfsSteps
  import opened SfsGrow
  import opened SfsShrink

  /** File `ino` has exactly its first `blocks` blocks. */
  ghost predicate Dense(s: Fs, ino: nat)
    requires IsDisk(s.disk) && ino in s.inodes && Mapped(s, ino)
  {
    forall i :: 0 <= i < NBLOCKS ==> DenseAt(s, ino, i)
  }

  ghost predicate DenseAt(s: Fs, ino: nat, i: nat)
    requires IsDisk(s.disk) && ino in s.inodes && Mapped(s, ino) && i < NBLOCKS
  {
    BlockOf(s.inodes[ino], s.disk, i) != 0 <==> i < s.inodes[ino].blocks
  }

  ghost predicate AllDense(s: Fs) {
    IsDisk(s.disk) && forall ino :: ino in s.inodes ==> Mapped(s, ino) && Dense(s, ino)
  }

  /** How many blocks hold `size` bytes. */
  function BlocksFor(size: nat): nat {
    (size + BLKSIZE - 1) / 4096
  }

  /** din->size and din->blocks take new values; sin->dirty is not modelled. */
  ghost function Resized(s: Fs, ino: nat, size: nat, blocks: nat): Fs
    requires ino in s.inodes
  {
    WithInode(s, ino, s.inodes[ino].(size := size, blocks := blocks))
  }

  lemma ResizedMapping(s: Fs, ino: nat, size: nat, blocks: nat, x: nat, j: nat)
    requires IsDisk(s.disk) && ino in s.inodes && x in s.inodes && Mapped(s, x) && j < NBLOCKS
    ensures var s' := Resized(s, ino, size, blocks);
      Mapped(s', x) && BlockOf(s'.inodes[x], s'.disk, j) == BlockOf(s.inodes[x], s.disk, j)
  {
  }

  lemma ResizedSound(s: Fs, ino: nat, size: nat, blocks: nat)
    requires Sound(s, {}) && ino in s.inodes
    ensures Sound(Resized(s, ino, size, blocks), {})
  {
    var s' := Resized(s, ino, size, blocks);
    forall x | x in s'.inodes ensures Mapped(s', x) && Recorded(s', x) {
      assert Mapped(s, x) && Recorded(s, x);
      forall j | 0 <= j < NBLOCKS ensures RecordedAt(s', x, j) {
        assert RecordedAt(s, x, j);
        ResizedMapping(s, ino, size, blocks, x, j);
      }
    }
    forall c | c in s'.owner ensures c < |s'.disk| && Used(s', c, s'.owner[c]) {
      assert Used(s, c, s.owner[c]);
    }
  }

  lemma ResizedOther(s: Fs, s1: Fs, ino: nat, size: nat, blocks: nat, x: nat)
    requires IsDisk(s.disk) && ino in s1.inodes && x != ino && SameFile(s, s1, x)
    ensures SameFile(s, Resized(s1, ino, size, blocks), x)
  {
    var s' := Resized(s1, ino, size, blocks);
    forall j | 0 <= j < NBLOCKS ensures SameBlock(s, s', x, j) {
      assert SameBlock(s, s1, x, j);
    }
  }

  // ---------------------------------------------------------------- appending a block

  /** File `ino` has one more block, zeroed, at its end. */
  ghost predicate Appended(s: Fs, s': Fs, ino: nat, b: nat)
    requires IsDisk(s.disk) && ino in s.inodes
  {
    Grown(s, s', ino, s.inodes[ino].blocks, b) && s'.inodes[ino].blocks == s.inodes[ino].blocks + 1
  }

  lemma AppendedByResize(s: Fs, s1: Fs, ino: nat, b: nat)
    requires Sound(s, {}) && Sound(s1, {}) && AllDense(s) && ino in s.inodes && s.inodes[ino].blocks < NBLOCKS
    requires Grown(s, s1, ino, s.inodes[ino].blocks, b)
    ensures var s' := Resized(s1, ino, s1.inodes[ino].size, s.inodes[ino].blocks + 1);
      Sound(s', {}) && Appended(s, s', ino, b) && AllDense(s')
  {
    hide BlockOf, Used, Recorded;
    var n := s.inodes[ino].blocks;
    var s' := Resized(s1, ino, s1.inodes[ino].size, n + 1);
    ResizedSound(s1, ino, s1.inodes[ino].size, n + 1);
    forall j | 0 <= j < NBLOCKS && j != n ensures SameBlock(s, s', ino, j) {
      assert SameBlock(s, s1, ino, j);
      ResizedMapping(s1, ino, s1.inodes[ino].size, n + 1, ino, j);
    }
    ResizedMapping(s1, ino, s1.inodes[ino].size, n + 1, ino, n);
    forall x | x in s.inodes && x != ino ensures SameFile(s, s', x) {
      ResizedOther(s, s1, ino, s1.inodes[ino].size, s'.inodes[ino].blocks, x);
    }
    AppendedDense(s, s', ino, b);
  }

  lemma AppendedDense(s: Fs, s': Fs, ino: nat, b: nat)
    requires AllDense(s) && ino in s.inodes && Appended(s, s', ino, b)
    ensures AllDense(s')
  {
    forall x | x in s'.inodes ensures Mapped(s', x) && Dense(s', x) {
      assert Dense(s, x);
      if x != ino { assert SameFile(s, s', x); }
      forall j | 0 <= j < NBLOCKS ensures DenseAt(s', x, j) {
        assert DenseAt(s, x, j);
        if x != ino || j != s.inodes[ino].blocks { assert SameBlock(s, s', x, j); }
      }
    }
  }

  // ---------------------------------------------------------------- dropping the last block

  /** File `ino` has one block less at its end.  A block that the map does not reach is not freed. */
  ghost predicate Dropped(s: Fs, s': Fs, ino: nat)
    requires IsDisk(s.disk) && ino in s.inodes
  {
    var n := s.inodes[ino].blocks - 1;
    && n >= 0 && ino in s'.inodes && s'.inodes[ino].blocks == n
    && if n < NBLOCKS then Shrunk(s, s', ino, n) else s' == Resized(s, ino, s.inodes[ino].size, n)
  }

  lemma DroppedByResize(s: Fs, s1: Fs, ino: nat)
    requires Sound(s, {}) && Sound(s1, {}) && AllDense(s) && ino in s.inodes && s.inodes[ino].blocks > 0
    requires if s.inodes[ino].blocks <= NBLOCKS then Shrunk(s, s1, ino, s.inodes[ino].blocks - 1) else s1 == s
    ensures ino in s1.inodes
    ensures var s' := Resized(s1, ino, s1.inodes[ino].size, s.inodes[ino].blocks - 1);
      Sound(s', {}) && Dropped(s, s', ino) && AllDense(s')
  {
    hide BlockOf, Used, Recorded;
    var n := s.inodes[ino].blocks - 1;
    ResizedSound(s1, ino, s1.inodes[ino].size, n);
    if n < NBLOCKS { ShrunkResized(s, s1, ino, n); }
    DroppedDense(s, Resized(s1, ino, s1.inodes[ino].size, n), ino);
  }

  lemma ShrunkResized(s: Fs, s1: Fs, ino: nat, n: nat)
    requires IsDisk(s.disk) && n < NBLOCKS && Shrunk(s, s1, ino, n)
    ensures Shrunk(s, Resized(s1, ino, s1.inodes[ino].size, n), ino, n)
  {
    hide BlockOf, Used, Recorded;
    var s' := Resized(s1, ino, s1.inodes[ino].size, n);
    forall j | 0 <= j < NBLOCKS && j != n ensures SameBlock(s, s', ino, j) {
      assert SameBlock(s, s1, ino, j);
      ResizedMapping(s1, ino, s1.inodes[ino].size, n, ino, j);
    }
    ResizedMapping(s1, ino, s1.inodes[ino].size, n, ino, n);
    forall x | x in s.inodes && x != ino ensures SameFile(s, s', x) {
      ResizedOther(s, s1, ino, s1.inodes[ino].size, n, x);
    }
  }

  lemma DroppedDense(s: Fs, s': Fs, ino: nat)
    requires AllDense(s) && ino in s.inodes && Dropped(s, s', ino)
    ensures AllDense(s')
  {
    forall x | x in s'.inodes ensures Mapped(s', x) && Dense(s', x) {
      assert Mapped(s, x) && Dense(s, x);
      if s.inodes[ino].blocks <= NBLOCKS && x != ino { assert SameFile(s, s', x); }
      forall j | 0 <= j < NBLOCKS ensures DenseAt(s', x, j) {
        assert DenseAt(s, x, j);
        if s.inodes[ino].blocks > NBLOCKS {
          ResizedMapping(s, ino, s.inodes[ino].size, s.inodes[ino].blocks - 1, x, j);
        } else if x != ino || j != s.inodes[ino].blocks - 1 {
          assert SameBlock(s, s', x, j);
        }
      }
    }
  }
}
