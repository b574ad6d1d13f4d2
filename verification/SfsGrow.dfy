/**
  Giving a file a further block: what sfs_bmap_get_nolock with `create` does, in its three cases, and what
  that means for the files.
*/
module SfsGrow {
  import opened Machine
  import opened SfsLayout
  import opened SfsSteps

  ghost function WithInode(s: Fs, ino: nat, d: Inode): Fs {
    s.(inodes := s.inodes[ino := d])
  }

  /** din->direct[i] = b */
  ghost function LinkDirect(s: Fs, ino: nat, i: nat, b: nat): Fs
    requires ino in s.inodes && i < |s.inodes[ino].direct|
  {
    var d := s.inodes[ino];
    WithInode(s, ino, d.(direct := d.direct[i := b])).(owner := s.owner[b := Data(ino, i)])
  }

  /** Entry `i - NDIRECT` of the indirect block becomes `b`. */
  ghost function LinkEntry(s: Fs, ino: nat, i: nat, b: nat): Fs
    requires ino in s.inodes && NDIRECT <= i < NBLOCKS && b < WORD
    requires IsDisk(s.disk) && s.inodes[ino].indirect < |s.disk|
  {
    var ent := s.inodes[ino].indirect;
    s.(disk := s.disk[ent := PutEntry(s.disk[ent], i - NDIRECT, b)], owner := s.owner[b := Data(ino, i)])
  }

  /** din->indirect = ent */
  ghost function LinkIndirect(s: Fs, ino: nat, ent: nat): Fs
    requires ino in s.inodes
  {
    WithInode(s, ino, s.inodes[ino].(indirect := ent)).(owner := s.owner[ent := Indirect(ino)])
  }

  lemma LinkDirectSound(s: Fs, loose: set<nat>, ino: nat, i: nat, b: nat)
    requires Sound(s, loose) && ino in s.inodes && i < NDIRECT && b in loose && Mapped(s, ino)
    requires s.inodes[ino].direct[i] == 0
    ensures Sound(LinkDirect(s, ino, i, b), loose - {b}) && Remapped(s, LinkDirect(s, ino, i, b), ino, i, b)
  {
    var s' := LinkDirect(s, ino, i, b);
    forall j | 0 <= j < NBLOCKS ensures EntryKept(s, s', ino, i, b, j) {
    }
    LinkedSound(s, s', loose, ino, i, b);
  }

  lemma EntryRemapped(s: Fs, s': Fs, ino: nat, i: nat, b: nat)
    requires IsDisk(s.disk) && ino in s.inodes && NDIRECT <= i < NBLOCKS && b < WORD && Mapped(s, ino)
    requires s.inodes[ino].indirect != 0
    requires s'.inodes == s.inodes && s'.free == s.free
    requires var ent := s.inodes[ino].indirect; s'.disk == s.disk[ent := PutEntry(s.disk[ent], i - NDIRECT, b)]
    ensures Remapped(s, s', ino, i, b)
  {
    forall j | 0 <= j < NBLOCKS ensures EntryKept(s, s', ino, i, b, j) {
      if j >= NDIRECT { PutEntryAt(s.disk[s.inodes[ino].indirect], i - NDIRECT, b, j - NDIRECT); }
    }
  }

  lemma LinkEntrySound(s: Fs, loose: set<nat>, ino: nat, i: nat, b: nat)
    requires Sound(s, loose) && ino in s.inodes && NDIRECT <= i < NBLOCKS && b in loose && Mapped(s, ino)
    requires s.inodes[ino].indirect != 0 && BlockOf(s.inodes[ino], s.disk, i) == 0
    ensures Sound(LinkEntry(s, ino, i, b), loose - {b}) && Remapped(s, LinkEntry(s, ino, i, b), ino, i, b)
  {
    EntryRemapped(s, LinkEntry(s, ino, i, b), ino, i, b);
    LinkedSound(s, LinkEntry(s, ino, i, b), loose, ino, i, b);
  }

  /** A zeroed loose block becomes the indirect block: the block map stays as it is. */
  lemma LinkIndirectMapping(s: Fs, loose: set<nat>, ino: nat, ent: nat, x: nat, j: nat)
    requires Sound(s, loose) && ino in s.inodes && ent in loose && s.inodes[ino].indirect == 0 && s.disk[ent] == Zeros()
    requires x in s.inodes && j < NBLOCKS
    ensures var s' := LinkIndirect(s, ino, ent);
      Mapped(s, x) && Mapped(s', x) && BlockOf(s'.inodes[x], s'.disk, j) == BlockOf(s.inodes[x], s.disk, j)
  {
    assert Mapped(s, x) && Mapped(s, ino);
    if j >= NDIRECT { ZeroEntries(j - NDIRECT); }
  }

  lemma LinkIndirectSound(s: Fs, loose: set<nat>, ino: nat, ent: nat)
    requires Sound(s, loose) && ino in s.inodes && ent in loose && s.inodes[ino].indirect == 0 && s.disk[ent] == Zeros()
    ensures Sound(LinkIndirect(s, ino, ent), loose - {ent})
  {
    var s' := LinkIndirect(s, ino, ent);
    forall x | x in s'.inodes ensures Mapped(s', x) && Recorded(s', x) {
      assert Mapped(s, x) && Recorded(s, x);
      LinkIndirectMapping(s, loose, ino, ent, x, 0);
      forall j | 0 <= j < NBLOCKS ensures RecordedAt(s', x, j) {
        assert RecordedAt(s, x, j);
        LinkIndirectMapping(s, loose, ino, ent, x, j);
      }
    }
    forall c | c in s'.owner ensures c < |s'.disk| && Used(s', c, s'.owner[c]) {
      if c != ent {
        assert Used(s, c, s.owner[c]);
        if s.owner[c].Data? { LinkIndirectMapping(s, loose, ino, ent, s.owner[c].ino, s.owner[c].index); }
      }
    }
  }

  // ---------------------------------------------------------------- what it means for the files

  /** File `ino` has got the zeroed block `b` as its block `i`; nothing else about any file has changed. */
  ghost predicate Grown(s: Fs, s': Fs, ino: nat, i: nat, b: nat)
    requires IsDisk(s.disk)
  {
    && IsDisk(s'.disk) && |s'.disk| == |s.disk| && s'.inodes.Keys == s.inodes.Keys && ino in s.inodes && i < NBLOCKS
    && Mapped(s, ino) && Mapped(s', ino) && 0 < b < |s.disk|
    && s'.inodes[ino].size == s.inodes[ino].size
    && BlockOf(s.inodes[ino], s.disk, i) == 0 && BlockOf(s'.inodes[ino], s'.disk, i) == b && s'.disk[b] == Zeros()
    && (forall j :: 0 <= j < NBLOCKS && j != i ==> SameBlock(s, s', ino, j))
    && (forall x :: x in s.inodes && x != ino ==> SameFile(s, s', x))
  }

  /** The block map of `s'` is that of `s` with one entry changed, and only blocks without file data were written. */
  ghost predicate Quiet(s: Fs, s': Fs, b: nat)
  {
    |s'.disk| == |s.disk| && forall c :: 0 <= c < |s.disk| && c != b && c in s.owner && s.owner[c].Data? ==>
      s'.disk[c] == s.disk[c]
  }

  lemma GrownFiles(s: Fs, s': Fs, ino: nat, i: nat, b: nat)
    requires Sound(s, {}) && Sound(s', {}) && ino in s.inodes && i < NBLOCKS && Mapped(s, ino)
    requires Quiet(s, s', b) && b < |s.disk| && b in s.free && s'.disk[b] == Zeros() && s'.inodes.Keys == s.inodes.Keys
    requires s'.inodes[ino].size == s.inodes[ino].size
    requires forall x :: x in s.inodes && x != ino ==> s'.inodes[x] == s.inodes[x]
    requires forall x, j :: x in s.inodes && 0 <= j < NBLOCKS ==> Mapping(s, s', ino, i, b, x, j)
    requires BlockOf(s.inodes[ino], s.disk, i) == 0
    ensures Grown(s, s', ino, i, b)
  {
    forall x, j | x in s.inodes && 0 <= j < NBLOCKS && (x != ino || j != i) ensures Mapped(s, x) && Mapped(s', x)
      && SameBlock(s, s', x, j) {
      assert Recorded(s, x) && RecordedAt(s, x, j) && Mapping(s, s', ino, i, b, x, j);
    }
    assert Mapping(s, s', ino, i, b, ino, i);
  }

  ghost predicate Mapping(s: Fs, s': Fs, ino: nat, i: nat, b: nat, x: nat, j: nat)
    requires IsDisk(s.disk) && IsDisk(s'.disk) && j < NBLOCKS && x in s.inodes && x in s'.inodes
  {
    && Mapped(s, x) && Mapped(s', x)
    && BlockOf(s'.inodes[x], s'.disk, j) == if x == ino && j == i then b else BlockOf(s.inodes[x], s.disk, j)
  }

  /** The case of a direct block. */
  lemma GrownDirect(s: Fs, ino: nat, i: nat, b: nat)
    requires Sound(s, {}) && ino in s.inodes && i < NDIRECT && Mapped(s, ino) && s.inodes[ino].direct[i] == 0
    requires b in s.free
    ensures var s' := LinkDirect(Allocated(s, b), ino, i, b); Sound(s', {}) && Grown(s, s', ino, i, b)
  {
    var s1 := Allocated(s, b);
    AllocatedSound(s, {}, b);
    LinkDirectSound(s1, {b}, ino, i, b);
    var s' := LinkDirect(s1, ino, i, b);
    assert {b} - {b} == {};
    forall x, j | x in s.inodes && 0 <= j < NBLOCKS ensures Mapping(s, s', ino, i, b, x, j) {
      SameMapping(s, {}, b, Zeros(), x, j);
      RemappedBlock(s1, s', {b}, ino, i, b, x, j);
    }
    GrownFiles(s, s', ino, i, b);
  }

  /** The case of an entry in an existing indirect block. */
  lemma GrownEntry(s: Fs, ino: nat, i: nat, b: nat)
    requires Sound(s, {}) && ino in s.inodes && NDIRECT <= i < NBLOCKS && Mapped(s, ino) && s.inodes[ino].indirect != 0
    requires BlockOf(s.inodes[ino], s.disk, i) == 0 && b in s.free
    ensures var s1 := Allocated(s, b);
      IsDisk(s1.disk) && (var s' := LinkEntry(s1, ino, i, b); Sound(s', {}) && Grown(s, s', ino, i, b))
  {
    var s1 := Allocated(s, b);
    AllocatedSound(s, {}, b);
    SameMapping(s, {}, b, Zeros(), ino, i);
    LinkEntrySound(s1, {b}, ino, i, b);
    var s' := LinkEntry(s1, ino, i, b);
    assert {b} - {b} == {};
    assert Recorded(s, ino);
    forall x, j | x in s.inodes && 0 <= j < NBLOCKS ensures Mapping(s, s', ino, i, b, x, j) {
      SameMapping(s, {}, b, Zeros(), x, j);
      RemappedBlock(s1, s', {b}, ino, i, b, x, j);
    }
    GrownFiles(s, s', ino, i, b);
  }

  /** A new, empty indirect block does not change any block map. */
  lemma EmptyIndirect(s: Fs, ino: nat, ent: nat, b: nat)
    requires Sound(s, {}) && ino in s.inodes && s.inodes[ino].indirect == 0 && ent in s.free && b in s.free - {ent}
    ensures var s2 := LinkIndirect(Allocated(Allocated(s, ent), b), ino, ent);
      Sound(s2, {b}) && forall x, j :: x in s.inodes && 0 <= j < NBLOCKS ==> Mapping(s, s2, ino, NBLOCKS, 0, x, j)
  {
    var s0 := Allocated(s, ent);
    AllocatedSound(s, {}, ent);
    var s1 := Allocated(s0, b);
    AllocatedSound(s0, {ent}, b);
    var s2 := LinkIndirect(s1, ino, ent);
    assert {} + {ent} == {ent} && {ent} + {b} == {ent, b} && {ent, b} - {ent} == {b};
    LinkIndirectSound(s1, {ent, b}, ino, ent);
    forall x, j | x in s.inodes && 0 <= j < NBLOCKS ensures Mapping(s, s2, ino, NBLOCKS, 0, x, j) {
      SameMapping(s, {}, ent, Zeros(), x, j);
      SameMapping(s0, {ent}, b, Zeros(), x, j);
      LinkIndirectMapping(s1, {ent, b}, ino, ent, x, j);
    }
  }

  /** The case of the first entry in a new indirect block. */
  lemma GrownIndirect(s: Fs, ino: nat, i: nat, ent: nat, b: nat)
    requires Sound(s, {}) && ino in s.inodes && NDIRECT <= i < NBLOCKS && Mapped(s, ino) && s.inodes[ino].indirect == 0
    requires ent in s.free && b in s.free - {ent}
    ensures var s2 := LinkIndirect(Allocated(Allocated(s, ent), b), ino, ent);
      IsDisk(s2.disk) && (var s' := LinkEntry(s2, ino, i, b); Sound(s', {}) && Grown(s, s', ino, i, b))
  {
    var s2 := LinkIndirect(Allocated(Allocated(s, ent), b), ino, ent);
    EmptyIndirect(s, ino, ent, b);
    assert Mapping(s, s2, ino, NBLOCKS, 0, ino, i);
    LinkEntrySound(s2, {b}, ino, i, b);
    var s' := LinkEntry(s2, ino, i, b);
    assert {b} - {b} == {};
    forall x, j | x in s.inodes && 0 <= j < NBLOCKS ensures Mapping(s, s', ino, i, b, x, j) {
      assert Mapping(s, s2, ino, NBLOCKS, 0, x, j);
      RemappedBlock(s2, s', {b}, ino, i, b, x, j);
    }
    GrownFiles(s, s', ino, i, b);
  }
}
