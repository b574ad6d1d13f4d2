/**
  Mounting what mksfs built: what the kernel reads from the image is a consistent volume that holds the contents
  mksfs wrote.
*/
module MksfsMount {
  import opened Machine
  import opened SfsLayout
  import opened SfsFiles
  import opened SfsBytes
  import opened Mksfs
  import opened MksfsImage
  import opened MksfsClose
  import Bitmap
  import Bits
  import FreeLists
  import Sfs

  /** The inodes as sfs_load_inode reads them. */
  function LoadInodes(disk: seq<seq<Byte>>, inos: set<nat>): map<nat, Inode>
    requires IsDisk(disk)
  {
    map ino | ino in inos && ino < |disk| :: DecodeInode(disk[ino])
  }

  /** What the kernel takes a block of the image for. */
  ghost function UseOf(files: map<nat, File>, p: Purpose): Use {
    match p
    case Node(id) => Header(InoOf(files, id))
    case Entry(role) => if role.Single? then Indirect(InoOf(files, role.file)) else Beyond(InoOf(files, role.file))
    case Content(id, i) => if i < NBLOCKS then Data(InoOf(files, id), i) else Beyond(InoOf(files, id))
  }

  ghost function InoOf(files: map<nat, File>, id: nat): nat {
    if id in files then files[id].ino else 0
  }

  ghost function Uses(m: Image): map<nat, Use> {
    map b | b in FreeLists.Range(0, m.next) :: if b in m.purpose then UseOf(m.files, m.purpose[b]) else Meta
  }

  /** The image as the kernel sees it: everything but the uses is read from the disk. */
  ghost function Seen(m: Image, disk: seq<seq<Byte>>): Fs
    requires IsDisk(disk) && FirstIno(|disk|) <= |disk|
  {
    Fs(disk, LoadInodes(disk, Inos(m.files)), Uses(m), FreeBlocks(disk))
  }

  lemma UsesAt(m: Image, b: nat)
    requires Complete(m) && b in m.purpose
    ensures b in Uses(m) && Uses(m)[b] == UseOf(m.files, m.purpose[b]) && 0 < b < m.ninos < WORD
  {
    PurposeBelow(m, b);
    InRange(b, 0, m.next);
  }

  /** The blocks that file `id` refers to are used by it. */
  lemma ContentUse(m: Image, id: nat, i: nat)
    requires Complete(m) && id in m.files && id in m.rec && i < |m.rec[id]|
    ensures var b := m.rec[id][i];
      0 < b < WORD && b in Uses(m) && (i < NBLOCKS ==> Uses(m)[b] == Data(m.files[id].ino, i))
  {
    hide Uses;
    assert m.purpose[m.rec[id][i]] == Content(id, i);
    UsesAt(m, m.rec[id][i]);
  }

  lemma NodeUse(m: Image, id: nat)
    requires Complete(m) && id in m.files
    ensures m.files[id].ino in Uses(m) && Uses(m)[m.files[id].ino] == Header(m.files[id].ino)
  {
    hide Uses;
    assert m.purpose[m.files[id].ino] == Node(id);
    UsesAt(m, m.files[id].ino);
  }

  lemma EntryUse(m: Image, id: nat)
    requires Complete(m) && id in m.files
    ensures FileOk(m, id) && m.files[id].indirect < m.ninos
    ensures var b := m.files[id].indirect; b != 0 ==>
      && b in Uses(m) && Uses(m)[b] == Indirect(m.files[id].ino)
      && b in m.cache && |m.cache[b]| == NENTRY && Holds(m.cache, b, m.rec[id], L0)
  {
    hide Uses, Holds, Handed;
    var b := m.files[id].indirect;
    assert FileOk(m, id);
    if b != 0 {
      assert m.purpose[b] == Entry(Single(id));
      UsesAt(m, b);
    }
  }

  lemma EntryBlock(m: Image, id: nat)
    requires Complete(m) && id in m.files && m.files[id].indirect != 0
    ensures var b := m.files[id].indirect; b in m.cache && IsEntryBlock(m.cache[b])
  {
    assert FileOk(m, id);
  }

  /** The kernel maps file `id` to the blocks mksfs recorded. */
  lemma FileSeen(m: Image, disk: seq<seq<Byte>>, id: nat, i: nat)
    requires Complete(m) && Written(m, disk) && id in m.files && i < NBLOCKS
    ensures var s, ino := Seen(m, disk), m.files[id].ino;
      && ino in s.inodes && s.inodes[ino] == InodeOf(m.files[id]) && Mapped(s, ino)
      && BlockOf(s.inodes[ino], disk, i) == if i < |m.rec[id]| then m.rec[id][i] else 0
  {
    hide Complete, Uses, FreeLists.Range, BlockOf, FreeBlocks, HasSuper, DecodeInode;
    ImageSize(m, disk);
    EntryUse(m, id);
    var f, rec: seq<nat> := m.files[id], m.rec[id];
    assert f.ino in Inos(m.files) && HasNode(disk, f);
    forall k | 0 <= k < |rec| ensures rec[k] < WORD {
      ContentUse(m, id, k);
    }
    if f.indirect != 0 { EntryBlock(m, id); }
    RecordsDirect(m.cache, m.owner, id, f, rec);
    KernelAgrees(m.cache, m.owner, id, f, rec, disk, i);
  }

  lemma RecordsDirect(c: Cache, owner: map<nat, Role>, id: nat, f: File, rec: seq<nat>)
    requires Records(c, owner, id, f, rec)
    ensures |f.direct| == NDIRECT && f.nblks == |rec|
  {
  }

  lemma FileRecorded(m: Image, disk: seq<seq<Byte>>, id: nat)
    requires Complete(m) && Written(m, disk) && id in m.files
    ensures var s, ino := Seen(m, disk), m.files[id].ino;
      ino in s.inodes && Mapped(s, ino) && Recorded(s, ino) && Dense(s, ino) && Covered(s, ino)
  {
    hide Complete, Uses, FreeLists.Range, BlockOf, Records, LoadInodes, Written, FreeBlocks;
    ImageSize(m, disk);
    EntryUse(m, id);
    var s, f, rec: seq<nat> := Seen(m, disk), m.files[id], m.rec[id];
    FileSeen(m, disk, id, 0);
    NodeUse(m, id);
    RecordsDirect(m.cache, m.owner, id, f, rec);
    forall i | 0 <= i < NBLOCKS ensures RecordedAt(s, f.ino, i) && DenseAt(s, f.ino, i) {
      FileSeen(m, disk, id, i);
      if i < |rec| { ContentUse(m, id, i); }
    }
    BlocksEnough(f.size, f.nblks);
  }

  lemma BlocksEnough(size: nat, n: nat)
    requires size <= BLKSIZE * n
    ensures BlocksFor(size) <= n
  {
  }

  lemma PurposeReal(m: Image, b: nat)
    requires Complete(m) && b in m.purpose
    ensures 0 < b < m.next && Justified(m.files, m.rec, m.owner, b, m.purpose[b])
    ensures m.rec.Keys == m.files.Keys && forall id :: id in m.files ==> |m.rec[id]| == m.files[id].nblks
  {
    PurposeBelow(m, b);
    forall id | id in m.files ensures |m.rec[id]| == m.files[id].nblks {
      assert FileOk(m, id);
    }
  }

  /** Every block in use is used as the kernel takes it. */
  lemma UseSeen(m: Image, disk: seq<seq<Byte>>, b: nat)
    requires Complete(m) && Written(m, disk) && b in m.purpose
    ensures Used(Seen(m, disk), b, UseOf(m.files, m.purpose[b]))
  {
    hide Uses, FreeLists.Range, Complete, Written, LoadInodes, BlockOf, Mapped, FreeBlocks;
    ImageSize(m, disk);
    PurposeReal(m, b);
    match m.purpose[b]
    case Node(id) => FileSeen(m, disk, id, 0);
    case Entry(role) => FileSeen(m, disk, role.file, 0);
    case Content(id, i) => FileSeen(m, disk, id, if i < NBLOCKS then i else 0);
  }

  /** Every closed image is consistent, whatever the lengths of its files. */
  lemma ImageConsistent(m: Image, disk: seq<seq<Byte>>)
    requires Complete(m) && Written(m, disk)
    ensures Sound(Seen(m, disk), {}) && AllDense(Seen(m, disk)) && AllCovered(Seen(m, disk))
  {
    hide Complete, Written, Used, Recorded, Dense, Covered, Mapped, Seen, FirstIno;
    ImageSize(m, disk);
    SeenParts(m, disk);
    FreeSeen(m, disk);
    var s := Seen(m, disk);
    forall b | b in s.owner ensures b < |disk| && Used(s, b, s.owner[b]) {
      OwnerSeen(m, disk, b);
    }
    forall ino | ino in s.inodes ensures Mapped(s, ino) && Recorded(s, ino) && Dense(s, ino) && Covered(s, ino) {
      InodeSeen(m, disk, ino);
    }
  }

  lemma SeenParts(m: Image, disk: seq<seq<Byte>>)
    requires IsDisk(disk) && FirstIno(|disk|) <= |disk| && 0 < m.next && 0 !in m.purpose
    ensures var s := Seen(m, disk); s.disk == disk && 0 in s.owner && s.owner[0] == Meta
  {
    hide LoadInodes, FreeBlocks;
    InRange(0, 0, m.next);
  }

  lemma InRange(b: nat, base: nat, len: nat)
    ensures b in FreeLists.Range(base, len) <==> base <= b < base + len
  {
    assert FreeLists.Within(b, base, len) <==> base <= b < base + len;
  }

  lemma OwnerSeen(m: Image, disk: seq<seq<Byte>>, b: nat)
    requires Complete(m) && Written(m, disk) && b in Seen(m, disk).owner
    ensures b < |disk| && Used(Seen(m, disk), b, Seen(m, disk).owner[b])
  {
    hide Used, Mapped, LoadInodes, FreeLists.Range, FreeBlocks;
    InRange(b, 0, m.next);
    if b in m.purpose { UseSeen(m, disk, b); } else { MetaUsed(Seen(m, disk), b); }
  }

  lemma InodeSeen(m: Image, disk: seq<seq<Byte>>, ino: nat)
    requires Complete(m) && Written(m, disk) && ino in Seen(m, disk).inodes
    ensures var s := Seen(m, disk); Mapped(s, ino) && Recorded(s, ino) && Dense(s, ino) && Covered(s, ino)
  {
    hide FreeBlocks, Uses;
    var id :| id in m.files && m.files[id].ino == ino;
    FileRecorded(m, disk, id);
  }

  lemma FreeSeen(m: Image, disk: seq<seq<Byte>>)
    requires Complete(m) && Written(m, disk)
    ensures var s := Seen(m, disk); forall b: nat :: b in s.free <==> b < |disk| && b !in s.owner
  {
    hide LoadInodes, FreeLists.Range, Assigned, FileOk, HasSuper, HasNode, FreemapWords;
    forall b: nat ensures b in Seen(m, disk).free <==> b < |disk| && b !in Seen(m, disk).owner {
      InRange(b, 0, m.next);
      InRange(b, m.next, m.ninos - m.next);
    }
  }

  lemma MetaUsed(s: Fs, b: nat)
    requires IsDisk(s.disk)
    ensures Used(s, b, Meta)
  {
  }

  lemma ImageSize(m: Image, disk: seq<seq<Byte>>)
    requires Complete(m) && Written(m, disk)
    ensures IsDisk(disk) && |disk| == m.ninos <= WORD && 0 < m.next <= m.ninos && 0 !in m.purpose
    ensures FirstIno(|disk|) <= |disk| && Bitmap.WORD_BITS * |FreemapWords(disk, FreemapBlocks(|disk|))| >= |disk|
  {
    if 0 in m.purpose { PurposeBelow(m, 0); }
    assert FirstIno(m.ninos) >= 2;
  }

  /** The bytes of file `id` that the kernel's map reaches are those mksfs wrote. */
  lemma KernelReads(m: Image, disk: seq<seq<Byte>>, id: nat, p: nat)
    requires Complete(m) && Written(m, disk) && id in m.files && p / 4096 < NBLOCKS
    ensures var s, ino := Seen(m, disk), m.files[id].ino;
      && ino in s.inodes && Mapped(s, ino) && |m.rec[id]| == m.files[id].nblks
      && (p / 4096 < |m.rec[id]| ==>
        m.rec[id][p / 4096] < |disk| && ByteAt(s, ino, p) == disk[m.rec[id][p / 4096]][p % 4096])
  {
    hide Complete, Written, Seen, Mapped, BlockOf, ByteAt;
    ImageSize(m, disk);
    SeenParts(m, disk);
    FileSeen(m, disk, id, p / 4096);
    EntryUse(m, id);
    RecordsDirect(m.cache, m.owner, id, m.files[id], m.rec[id]);
    if p / 4096 < |m.rec[id]| {
      ContentBelow(m, id, p / 4096);
      ByteThere(Seen(m, disk), m.files[id].ino, p, m.rec[id][p / 4096]);
    }
  }

  lemma ByteThere(s: Fs, ino: nat, p: nat, b: nat)
    requires IsDisk(s.disk) && ino in s.inodes && Mapped(s, ino) && p / 4096 < NBLOCKS && b < |s.disk|
    requires p / 4096 < s.inodes[ino].blocks && BlockOf(s.inodes[ino], s.disk, p / 4096) == b
    ensures ByteAt(s, ino, p) == s.disk[b][p % 4096]
  {
    hide BlockOf;
  }

  lemma ContentBelow(m: Image, id: nat, i: nat)
    requires Complete(m) && id in m.files && id in m.rec && i < |m.rec[id]|
    ensures m.rec[id][i] < m.ninos && m.rec[id][i] in m.purpose && m.purpose[m.rec[id][i]] == Content(id, i)
  {
    PurposeBelow(m, m.rec[id][i]);
  }

  /** sfs_init_freemap: the words read from disk become the bitmap. */
  method LoadFreemap(disk: seq<seq<Byte>>, nblks: nat) returns (map': Bitmap.Bitmap)
    requires IsDisk(disk) && 0 < nblks && FREEMAP + nblks <= |disk|
    ensures fresh(map') && fresh(map'.words) && map'.nbits == 32768 * nblks && map'.Valid()
    ensures map'.Free() == Bitmap.SetBits(FreemapWords(disk, nblks))
  {
    hide Bitmap.BitOf, Bitmap.SetBits, Bitmap.Words, WordsOf;
    map' := new Bitmap.Bitmap(32768 * nblks);
    var i := 0;
    while i < nblks
      invariant i <= nblks && map'.words.Length == 1024 * nblks
      invariant map'.words[..1024 * i] == FreemapWords(disk, i)
    {
      CopyBlock(map'.words, 1024 * i, WordsOf(disk[FREEMAP + i]));
      i := i + 1;
    }
    assert map'.words[..] == FreemapWords(disk, nblks);
    WordsRead(disk, nblks);
    BitsBelow(FreemapWords(disk, nblks));
  }

  lemma BitsBelow(words: seq<nat>)
    ensures forall i: nat :: i in Bitmap.SetBits(words) ==> i < 32 * |words|
  {
  }

  /** sfs_init_read of one block into the array, from word `at` on. */
  method CopyBlock(words: array<nat>, at: nat, block: seq<nat>)
    requires at + |block| <= words.Length
    modifies words
    ensures words[..at + |block|] == old(words[..at]) + block
  {
    forall j | 0 <= j < |block| { words[at + j] := block[j]; }
  }

  lemma {:induction false} WordsRead(disk: seq<seq<Byte>>, n: nat)
    requires IsDisk(disk) && FREEMAP + n <= |disk|
    ensures Bitmap.Words(FreemapWords(disk, n))
  {
    if n > 0 {
      WordsRead(disk, n - 1);
      var words := WordsOf(disk[FREEMAP + n - 1]);
      forall j | 0 <= j < NENTRY ensures words[j] < Bits.Pow2(32) {
        EntryBelow(disk[FREEMAP + n - 1], j);
      }
    }
  }

  lemma EntryBelow(b: seq<Byte>, j: nat)
    requires |b| == BLKSIZE && j < NENTRY
    ensures EntryAt(b, j) < Bits.Pow2(32)
  {
    WordPower();
  }

  /** The freemap on a closed image has as many set bits as its superblock counts unused blocks. */
  lemma MountAssertionHolds(m: Image, disk: seq<seq<Byte>>)
    requires Written(m, disk)
    ensures |FreeBlocks(disk)| == EntryAt(disk[0], 2)
  {
    FreeLists.RangeSize(m.next, m.ninos - m.next);
  }

  /**
    sfs_do_mount, and loading the inodes `inos`.  The checks of the superblock pass and the assertion on the number
    of unused blocks holds.
  */
  method Mount(disk: seq<seq<Byte>>, inos: set<nat>, ghost m: Image) returns (v: Sfs.Volume)
    requires Complete(m) && Written(m, disk) && inos == Inos(m.files)
    ensures fresh(v) && fresh(v.freemap.words) && v.Consistent() && AllCovered(v.View())
    ensures IsDisk(disk) && FirstIno(|disk|) <= |disk| && v.View() == Seen(m, disk)
  {
    hide Complete, Uses, LoadInodes, Inos, FreeLists.Range, FreemapWords, Bitmap.SetBits, Sound, AllDense, AllCovered,
      AllNear;
    ImageSize(m, disk);
    ImageConsistent(m, disk);
    CoveredNear(Seen(m, disk));
    var blocks, unused := EntryAt(disk[0], 1), EntryAt(disk[0], 2);
    assert EntryAt(disk[0], 0) == MAGIC && blocks <= |disk|;  // the superblock is accepted
    var map' := LoadFreemap(disk, FreemapBlocks(blocks));
    var counted := CountUnused(map');
    MountAssertionHolds(m, disk);
    assert counted == unused;  // the assertion of the mount
    v := new Sfs.Volume(disk, LoadInodes(disk, inos), map', unused, Uses(m));
  }

  /**
    Closing an image and mounting it gives a consistent volume with the builder's files.  As far as the kernel's map
    reaches, their bytes are those that write_block put on the disk.
  */
  method CloseAndMount(b: Builder, disk: seq<seq<Byte>>, info: seq<nat>, tags: map<nat, nat>)
    returns (v: Sfs.Volume)
    requires b.Valid() && b.loose == {} && IsDisk(disk) && |disk| == b.ninos
    requires |info| == 8 && (forall k :: 0 <= k < 8 ==> info[k] < WORD)
    requires b.files.Keys <= tags.Keys && forall id :: id in b.files ==> tags[id] < WORD
    ensures fresh(v) && fresh(v.freemap.words) && v.Consistent() && AllCovered(v.View())
    ensures v.inodes.Keys == Inos(b.files) && |v.View().free| == b.ninos - b.nextIno
    ensures forall id :: id in b.files ==> v.inodes[b.files[id].ino] == InodeOf(b.files[id])
    ensures forall id: nat, p: nat :: id in b.files && p / 4096 < b.files[id].nblks && p / 4096 < NBLOCKS ==>
      Carried(v.View(), disk, b.files[id].ino, b.rec[id], p)
  {
    hide Complete, Written, Sound, AllDense, AllCovered, AllNear, Seen, Carried, Inos, AllRecord, Assigned, Handed;
    ghost var m := ImageOf(b);
    BuilderComplete(b);
    var closed := Close(b, disk, info, tags);
    v := Mount(closed, Inos(b.files), m);
    ImageSize(m, closed);
    FilesSeen(m, closed);
    FreeCounted(m, closed);
    FilesCarried(m, disk, closed);
  }

  lemma FreeCounted(m: Image, disk: seq<seq<Byte>>)
    requires Written(m, disk)
    ensures FirstIno(|disk|) <= |disk| && |Seen(m, disk).free| == m.ninos - m.next
  {
    FreeLists.RangeSize(m.next, m.ninos - m.next);
  }

  lemma FilesSeen(m: Image, disk: seq<seq<Byte>>)
    requires Complete(m) && Written(m, disk)
    ensures FirstIno(|disk|) <= |disk| && Seen(m, disk).inodes.Keys == Inos(m.files)
    ensures forall id :: id in m.files ==>
      m.files[id].ino in Inos(m.files) && Seen(m, disk).inodes[m.files[id].ino] == InodeOf(m.files[id])
  {
    hide Complete, Written, Uses, FreeBlocks, DecodeInode, FirstIno;
    ImageSize(m, disk);
    forall id | id in m.files ensures m.files[id].ino < |disk| { NodePlace(m, id); }
    forall id | id in m.files
      ensures m.files[id].ino in Inos(m.files) && Seen(m, disk).inodes[m.files[id].ino] == InodeOf(m.files[id])
    {
      FileSeen(m, disk, id, 0);
    }
  }

  lemma NodePlace(m: Image, id: nat)
    requires Complete(m) && id in m.files
    ensures m.files[id].ino < m.ninos
  {
    PurposeBelow(m, m.files[id].ino);
  }

  lemma FilesCarried(m: Image, disk: seq<seq<Byte>>, disk': seq<seq<Byte>>)
    requires Complete(m) && Written(m, disk') && IsDisk(disk) && |disk| == m.ninos
    requires FirstIno(|disk'|) <= |disk'| && m.rec.Keys == m.files.Keys
    requires forall c :: c in m.purpose && m.purpose[c].Content? ==> c < |disk| && c < |disk'| && disk'[c] == disk[c]
    ensures forall id: nat, p: nat :: id in m.files && p / 4096 < m.files[id].nblks && p / 4096 < NBLOCKS ==>
      Carried(Seen(m, disk'), disk, m.files[id].ino, m.rec[id], p)
  {
    hide Complete, Written, Seen, Carried;
    ImageSize(m, disk');
    forall id: nat, p: nat | id in m.files && p / 4096 < m.files[id].nblks && p / 4096 < NBLOCKS
      ensures Carried(Seen(m, disk'), disk, m.files[id].ino, m.rec[id], p)
    {
      FileCarried(m, disk, disk', id, p);
    }
  }

  lemma FileCarried(m: Image, disk: seq<seq<Byte>>, disk': seq<seq<Byte>>, id: nat, p: nat)
    requires Complete(m) && Written(m, disk') && IsDisk(disk) && |disk| == m.ninos
    requires FirstIno(|disk'|) <= |disk'| && IsDisk(disk') && m.rec.Keys == m.files.Keys
    requires forall c :: c in m.purpose && m.purpose[c].Content? ==> c < |disk| && c < |disk'| && disk'[c] == disk[c]
    requires id in m.files && p / 4096 < m.files[id].nblks && p / 4096 < NBLOCKS
    ensures Carried(Seen(m, disk'), disk, m.files[id].ino, m.rec[id], p)
  {
    hide Complete, Written, Seen, Mapped, ByteAt;
    ImageSize(m, disk');
    SeenParts(m, disk');
    EntryUse(m, id);
    KernelReads(m, disk', id, p);
    ContentBelow(m, id, p / 4096);
  }

  /** Byte `p` of file `ino` is the one in the disk block that `rec` gives for it. */
  ghost predicate Carried(s: Fs, disk: seq<seq<Byte>>, ino: nat, rec: seq<nat>, p: nat) {
    && IsDisk(s.disk) && ino in s.inodes && Mapped(s, ino) && IsDisk(disk)
    && p / 4096 < |rec| && rec[p / 4096] < |disk| && ByteAt(s, ino, p) == disk[rec[p / 4096]][p % 4096]
  }
}
