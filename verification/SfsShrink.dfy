/** Taking the last block of a file away: what sfs_bmap_free_nolock does in its two cases. */
module SfsShrink {
  import opened SfsLayout
  import opened SfsSteps
  import opened SfsGrow

  ghost function UnlinkDirect(s: Fs, ino: nat, i: nat, c: nat): Fs
    requires ino in s.inodes && i < |s.inodes[ino].direct|
  {
    var d := s.inodes[ino];
    WithInode(s, ino, d.(direct := d.direct[i := 0])).(owner := s.owner - {c})
  }

  ghost function UnlinkEntry(s: Fs, ino: nat, i: nat, c: nat): Fs
    requires ino in s.inodes && NDIRECT <= i < NBLOCKS
    requires IsDisk(s.disk) && s.inodes[ino].indirect < |s.disk|
  {
    var ent := s.inodes[ino].indirect;
    s.(disk := s.disk[ent := PutEntry(s.disk[ent], i - NDIRECT, 0)], owner := s.owner - {c})
  }

  ghost function Release(s: Fs, c: nat): Fs {
    s.(free := s.free + {c})
  }

  /** File `ino` has lost its block `i`, which is free now; nothing else about any file has changed. */
  ghost predicate Shrunk(s: Fs, s': Fs, ino: nat, i: nat)
    requires IsDisk(s.disk)
  {
    && IsDisk(s'.disk) && |s'.disk| == |s.disk| && s'.inodes.Keys == s.inodes.Keys && ino in s.inodes && i < NBLOCKS
    && Mapped(s, ino) && Mapped(s', ino)
    && s'.inodes[ino].size == s.inodes[ino].size && s'.inodes[ino].indirect == s.inodes[ino].indirect
    && BlockOf(s'.inodes[ino], s'.disk, i) == 0 && s'.free == s.free + {BlockOf(s.inodes[ino], s.disk, i)}
    && (forall j :: 0 <= j < NBLOCKS && j != i ==> SameBlock(s, s', ino, j))
    && (forall x :: x in s.inodes && x != ino ==> SameFile(s, s', x))
  }

  lemma ShrunkFiles(s: Fs, s1: Fs, ino: nat, i: nat, c: nat)
    requires Sound(s, {}) && Remapped(s, s1, ino, i, 0) && BlockOf(s.inodes[ino], s.disk, i) == c != 0
    requires s1.owner == s.owner - {c}
    requires s1.inodes[ino].size == s.inodes[ino].size && s1.inodes[ino].indirect == s.inodes[ino].indirect
    ensures Sound(Release(s1, c), {}) && Shrunk(s, Release(s1, c), ino, i)
  {
    hide Used, BlockOf;
    UnlinkedSound(s, s1, {}, ino, i, c);
    ReleasedSound(s1, {c}, c);
    assert {} + {c} == {c} && {c} - {c} == {};
    var s' := Release(s1, c);
    forall x, j | x in s.inodes && 0 <= j < NBLOCKS && (x != ino || j != i) ensures Mapped(s, x) && Mapped(s', x)
      && SameBlock(s, s', x, j) {
      RemappedBlock(s, s1, {}, ino, i, 0, x, j);
      assert Recorded(s, x) && RecordedAt(s, x, j) && Recorded(s, ino);
    }
    RemappedBlock(s, s1, {}, ino, i, 0, ino, i);
  }

  lemma ShrunkDirect(s: Fs, ino: nat, i: nat, c: nat)
    requires Sound(s, {}) && ino in s.inodes && i < NDIRECT && Mapped(s, ino) && s.inodes[ino].direct[i] == c != 0
    ensures var s' := Release(UnlinkDirect(s, ino, i, c), c); Sound(s', {}) && Shrunk(s, s', ino, i)
  {
    var s1 := UnlinkDirect(s, ino, i, c);
    forall j | 0 <= j < NBLOCKS ensures EntryKept(s, s1, ino, i, 0, j) {
    }
    ShrunkFiles(s, s1, ino, i, c);
  }

  lemma ShrunkEntry(s: Fs, ino: nat, i: nat, c: nat)
    requires Sound(s, {}) && ino in s.inodes && NDIRECT <= i < NBLOCKS && Mapped(s, ino)
    requires BlockOf(s.inodes[ino], s.disk, i) == c != 0
    ensures var s' := Release(UnlinkEntry(s, ino, i, c), c); Sound(s', {}) && Shrunk(s, s', ino, i)
  {
    EntryRemapped(s, UnlinkEntry(s, ino, i, c), ino, i, 0);
    ShrunkFiles(s, UnlinkEntry(s, ino, i, c), ino, i, c);
  }
}
