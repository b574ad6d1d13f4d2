/**
  What the block-level operations of kern/fs/sfs/sfs_inode.c do to the ownership of blocks and to the
  contents of files.
*/
module SfsSteps {
  import opened SfsLayout

  /** Inode `ino` is unchanged, maps to the same blocks, and these hold the same bytes. */
  ghost predicate SameFile(s: Fs, s': Fs, ino: nat)
    requires IsDisk(s.disk)
  {
    && ino in s.inodes && ino in s'.inodes && s'.inodes[ino] == s.inodes[ino]
    && Mapped(s, ino) && Mapped(s', ino) && IsDisk(s.disk) && IsDisk(s'.disk) && |s'.disk| == |s.disk|
    && forall i :: 0 <= i < NBLOCKS ==> SameBlock(s, s', ino, i)
  }

  ghost predicate SameBlock(s: Fs, s': Fs, ino: nat, i: nat)
    requires IsDisk(s.disk) && IsDisk(s'.disk) && ino in s.inodes && ino in s'.inodes && Mapped(s, ino)
    requires Mapped(s', ino)
    requires i < NBLOCKS && |s'.disk| == |s.disk|
  {
    var b := BlockOf(s.inodes[ino], s.disk, i);
    BlockOf(s'.inodes[ino], s'.disk, i) == b && (b != 0 && b < |s.disk| ==> s'.disk[b] == s.disk[b])
  }

  // ---------------------------------------------------------------- writing a block that is not an indirect block

  lemma SameMapping(s: Fs, loose: set<nat>, b: nat, bytes: seq<Byte>, ino: nat, i: nat)
    requires Sound(s, loose) && b < |s.disk| && |bytes| == BLKSIZE && (b in s.owner ==> !s.owner[b].Indirect?)
    requires ino in s.inodes && i < NBLOCKS
    ensures Mapped(s, ino) && BlockOf(s.inodes[ino], s.disk[b := bytes], i) == BlockOf(s.inodes[ino], s.disk, i)
  {
    assert Recorded(s, ino);
  }

  /** Overwriting a block that holds no entries changes nobody's block map. */
  lemma WrittenSound(s: Fs, loose: set<nat>, b: nat, bytes: seq<Byte>)
    requires Sound(s, loose) && b < |s.disk| && |bytes| == BLKSIZE && (b in s.owner ==> !s.owner[b].Indirect?)
    ensures Sound(s.(disk := s.disk[b := bytes]), loose)
  {
    var s' := s.(disk := s.disk[b := bytes]);
    forall ino | ino in s'.inodes ensures Mapped(s', ino) && Recorded(s', ino) {
      assert Mapped(s, ino) && Recorded(s, ino);
      forall i | 0 <= i < NBLOCKS ensures RecordedAt(s', ino, i) {
        assert RecordedAt(s, ino, i);
        SameMapping(s, loose, b, bytes, ino, i);
      }
    }
    forall c | c in s'.owner ensures c < |s'.disk| && Used(s', c, s'.owner[c]) {
      assert Used(s, c, s.owner[c]);
      if s.owner[c].Data? { SameMapping(s, loose, b, bytes, s.owner[c].ino, s.owner[c].index); }
    }
  }

  // ---------------------------------------------------------------- taking and returning blocks

  /** sfs_block_alloc: block `b` is no longer free, and its bytes are zero. */
  ghost function Allocated(s: Fs, b: nat): Fs
    requires b < |s.disk|
  {
    s.(disk := s.disk[b := Zeros()], free := s.free - {b})
  }

  lemma AllocatedSound(s: Fs, loose: set<nat>, b: nat)
    requires Sound(s, loose) && b in s.free
    ensures b != 0 && Sound(Allocated(s, b), loose + {b})
  {
    WrittenSound(s, loose, b, Zeros());
    MoreLoose(s.(disk := s.disk[b := Zeros()]), loose, b);
  }

  lemma MoreLoose(s: Fs, loose: set<nat>, b: nat)
    requires Sound(s, loose) && b in s.free
    ensures Sound(s.(free := s.free - {b}), loose + {b})
  {
    FreeIrrelevant(s, loose, loose + {b}, s.free - {b});
  }

  /** sfs_block_free */
  lemma ReleasedSound(s: Fs, loose: set<nat>, b: nat)
    requires Sound(s, loose) && b in loose
    ensures b !in s.free && Sound(s.(free := s.free + {b}), loose - {b})
  {
    FreeIrrelevant(s, loose, loose - {b}, s.free + {b});
  }

  lemma FreeIrrelevant(s: Fs, loose: set<nat>, loose': set<nat>, free': set<nat>)
    requires Sound(s, loose) && loose' !! s.owner.Keys && (forall b :: b in loose' ==> b < |s.disk|)
    requires forall b: nat :: b in free' <==> b < |s.disk| && b !in s.owner && b !in loose'
    ensures Sound(s.(free := free'), loose')
  {
    var s' := s.(free := free');
    forall ino | ino in s'.inodes ensures Mapped(s', ino) && Recorded(s', ino) {
      assert Mapped(s, ino) && Recorded(s, ino);
      forall i | 0 <= i < NBLOCKS ensures RecordedAt(s', ino, i) {
        assert RecordedAt(s, ino, i);
      }
    }
    forall c | c in s'.owner ensures c < |s'.disk| && Used(s', c, s'.owner[c]) {
      assert Used(s, c, s.owner[c]);
    }
  }

  // ---------------------------------------------------------------- changing one entry of one block map

  /** Only entry `i` of file `ino` changes, to `b`; on disk at most its indirect block is written. */
  ghost predicate Remapped(s: Fs, s': Fs, ino: nat, i: nat, b: nat)
    requires IsDisk(s.disk)
  {
    && IsDisk(s'.disk) && |s'.disk| == |s.disk| && ino in s.inodes && i < NBLOCKS && Mapped(s, ino)
    && s'.free == s.free && s'.inodes.Keys == s.inodes.Keys
    && (forall x :: x in s.inodes && x != ino ==> s'.inodes[x] == s.inodes[x])
    && Mapped(s', ino) && s'.inodes[ino].indirect == s.inodes[ino].indirect
    && (forall c :: 0 <= c < |s.disk| && (c == 0 || c != s.inodes[ino].indirect) ==> s'.disk[c] == s.disk[c])
    && (forall j :: 0 <= j < NBLOCKS ==> EntryKept(s, s', ino, i, b, j))
  }

  ghost predicate EntryKept(s: Fs, s': Fs, ino: nat, i: nat, b: nat, j: nat)
    requires IsDisk(s.disk) && IsDisk(s'.disk) && ino in s.inodes && ino in s'.inodes && Mapped(s, ino)
    requires Mapped(s', ino) && j < NBLOCKS
  {
    BlockOf(s'.inodes[ino], s'.disk, j) == if j == i then b else BlockOf(s.inodes[ino], s.disk, j)
  }

  lemma OthersMapping(s: Fs, s': Fs, loose: set<nat>, ino: nat, i: nat, b: nat, x: nat, j: nat)
    requires Sound(s, loose) && Remapped(s, s', ino, i, b) && x in s.inodes && x != ino && j < NBLOCKS
    ensures Mapped(s, x) && Mapped(s', x) && BlockOf(s'.inodes[x], s'.disk, j) == BlockOf(s.inodes[x], s.disk, j)
  {
    assert Recorded(s, x) && Recorded(s, ino);
  }

  /** The mapping of `s'` in terms of that of `s`, for every file. */
  lemma RemappedBlock(s: Fs, s': Fs, loose: set<nat>, ino: nat, i: nat, b: nat, x: nat, j: nat)
    requires Sound(s, loose) && Remapped(s, s', ino, i, b) && x in s.inodes && j < NBLOCKS
    ensures Mapped(s, x) && Mapped(s', x)
    ensures BlockOf(s'.inodes[x], s'.disk, j) == if x == ino && j == i then b else BlockOf(s.inodes[x], s.disk, j)
  {
    if x == ino {
      assert EntryKept(s, s', ino, i, b, j);
    } else {
      OthersMapping(s, s', loose, ino, i, b, x, j);
    }
  }

  lemma IndirectKept(s: Fs, s': Fs, ino: nat, i: nat, b: nat, x: nat)
    requires IsDisk(s.disk) && Remapped(s, s', ino, i, b) && x in s.inodes
    ensures s'.inodes[x].indirect == s.inodes[x].indirect
  {
  }

  /** A loose block becomes block `i` of file `ino`. */
  lemma LinkedSound(s: Fs, s': Fs, loose: set<nat>, ino: nat, i: nat, b: nat)
    requires Sound(s, loose) && Remapped(s, s', ino, i, b) && BlockOf(s.inodes[ino], s.disk, i) == 0
    requires b in loose && s'.owner == s.owner[b := Data(ino, i)]
    ensures Sound(s', loose - {b})
  {
    forall x | x in s'.inodes ensures Mapped(s', x) && Recorded(s', x) {
      LinkedRecorded(s, s', loose, ino, i, b, x);
    }
    forall c | c in s'.owner ensures c < |s'.disk| && Used(s', c, s'.owner[c]) {
      LinkedUsed(s, s', loose, ino, i, b, c);
    }
  }

  lemma LinkedRecorded(s: Fs, s': Fs, loose: set<nat>, ino: nat, i: nat, b: nat, x: nat)
    requires Sound(s, loose) && Remapped(s, s', ino, i, b) && BlockOf(s.inodes[ino], s.disk, i) == 0
    requires b in loose && s'.owner == s.owner[b := Data(ino, i)] && x in s'.inodes
    ensures Mapped(s', x) && Recorded(s', x)
  {
    assert Mapped(s, x) && Recorded(s, x);
    IndirectKept(s, s', ino, i, b, x);
    RemappedBlock(s, s', loose, ino, i, b, x, 0);
    forall j | 0 <= j < NBLOCKS ensures RecordedAt(s', x, j) {
      assert RecordedAt(s, x, j);
      RemappedBlock(s, s', loose, ino, i, b, x, j);
    }
  }

  lemma LinkedUsed(s: Fs, s': Fs, loose: set<nat>, ino: nat, i: nat, b: nat, c: nat)
    requires Sound(s, loose) && Remapped(s, s', ino, i, b) && BlockOf(s.inodes[ino], s.disk, i) == 0
    requires b in loose && s'.owner == s.owner[b := Data(ino, i)] && c in s'.owner
    ensures c < |s'.disk| && Used(s', c, s'.owner[c])
  {
    var u := s'.owner[c];
    if c == b {
      RemappedBlock(s, s', loose, ino, i, b, ino, i);
    } else {
      assert Used(s, c, u);
      match u {
        case Data(x, j) => RemappedBlock(s, s', loose, ino, i, b, x, j);
        case Indirect(x) => IndirectKept(s, s', ino, i, b, x);
        case _ =>
      }
    }
  }

  /** Block `i` of file `ino` is taken out of its map. */
  lemma UnlinkedSound(s: Fs, s': Fs, loose: set<nat>, ino: nat, i: nat, c: nat)
    requires Sound(s, loose) && Remapped(s, s', ino, i, 0) && BlockOf(s.inodes[ino], s.disk, i) == c != 0
    requires s'.owner == s.owner - {c}
    ensures c in s.owner && Sound(s', loose + {c})
  {
    assert Recorded(s, ino) && RecordedAt(s, ino, i);
    forall x | x in s'.inodes ensures Mapped(s', x) && Recorded(s', x) {
      UnlinkedRecorded(s, s', loose, ino, i, c, x);
    }
    forall b | b in s'.owner ensures b < |s'.disk| && Used(s', b, s'.owner[b]) {
      UnlinkedUsed(s, s', loose, ino, i, c, b);
    }
  }

  lemma UnlinkedRecorded(s: Fs, s': Fs, loose: set<nat>, ino: nat, i: nat, c: nat, x: nat)
    requires Sound(s, loose) && Remapped(s, s', ino, i, 0) && BlockOf(s.inodes[ino], s.disk, i) == c != 0
    requires s'.owner == s.owner - {c} && x in s'.inodes && c in s.owner && s.owner[c] == Data(ino, i)
    ensures Mapped(s', x) && Recorded(s', x)
  {
    assert Mapped(s, x) && Recorded(s, x);
    IndirectKept(s, s', ino, i, 0, x);
    RemappedBlock(s, s', loose, ino, i, 0, x, 0);
    forall j | 0 <= j < NBLOCKS ensures RecordedAt(s', x, j) {
      assert RecordedAt(s, x, j);
      RemappedBlock(s, s', loose, ino, i, 0, x, j);
    }
  }

  lemma UnlinkedUsed(s: Fs, s': Fs, loose: set<nat>, ino: nat, i: nat, c: nat, b: nat)
    requires Sound(s, loose) && Remapped(s, s', ino, i, 0) && BlockOf(s.inodes[ino], s.disk, i) == c != 0
    requires s'.owner == s.owner - {c} && b in s'.owner && c in s.owner && s.owner[c] == Data(ino, i)
    ensures b < |s'.disk| && Used(s', b, s'.owner[b])
  {
    var u := s.owner[b];
    assert Used(s, b, u);
    match u {
      case Data(x, j) => RemappedBlock(s, s', loose, ino, i, 0, x, j);
      case Indirect(x) => IndirectKept(s, s', ino, i, 0, x);
      case _ =>
    }
  }
}
