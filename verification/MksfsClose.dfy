/** Closing the image that mksfs built: what close_sfs writes to which block (tools/mksfs.c). */
module MksfsClose {
  import opened Machine
  import opened SfsLayout
  import opened Mksfs
  import opened MksfsImage
  import Bitmap
  import FreeLists

  /** The builder's state when it closes the image. */
  datatype Image = Image(ninos: nat, next: nat, cache: Cache, files: map<nat, File>, owner: map<nat, Role>,
                         rec: map<nat, seq<nat>>, purpose: map<nat, Purpose>)

  ghost function ImageOf(b: Builder): Image
    reads b
  {
    Image(b.ninos, b.nextIno, b.cache, b.files, b.owner, b.rec, b.purpose)
  }

  /** Every file is recorded and every number handed out has one purpose. */
  ghost predicate Complete(m: Image) {
    && FirstIno(m.ninos) <= m.next <= m.ninos <= MAX_NBLKS
    && m.cache.Keys == m.owner.Keys && m.purpose.Keys == Handed(m.ninos, m.next) && m.rec.Keys == m.files.Keys
    && 0 in m.files && m.files[0].ino == ROOT && AllEntries(m.cache) && (forall id :: id in m.files ==> FileOk(m, id))
    && Assigned(m.files, m.rec, m.owner, m.purpose)
  }

  ghost predicate FileOk(m: Image, id: nat)
    requires id in m.files
  {
    && id in m.rec && Records(m.cache, m.owner, id, m.files[id], m.rec[id])
    && m.files[id].size <= BLKSIZE * m.files[id].nblks
  }

  /** The disk after close_sfs: superblock, freemap, entry blocks and inodes. */
  ghost predicate Written(m: Image, disk: seq<seq<Byte>>) {
    && IsDisk(disk) && |disk| == m.ninos && FirstIno(m.ninos) <= m.next <= m.ninos
    && HasSuper(disk, m.ninos, m.ninos - m.next) && FreeBlocks(disk) == FreeLists.Range(m.next, m.ninos - m.next)
    && (forall e :: e in m.cache && IsEntryBlock(m.cache[e]) ==> e < |disk| && disk[e] == Flushed(m.cache[e]))
    && (forall id :: id in m.files ==> HasNode(disk, m.files[id]))
  }

  ghost predicate HasSuper(disk: seq<seq<Byte>>, ninos: nat, unused: nat)
    requires IsDisk(disk) && disk != []
  {
    EntryAt(disk[0], 0) == MAGIC && EntryAt(disk[0], 1) == ninos && EntryAt(disk[0], 2) == unused
  }

  /** The text of the superblock. */
  ghost predicate HasText(disk: seq<seq<Byte>>, info: seq<nat>)
    requires IsDisk(disk) && disk != [] && |info| == 8
  {
    forall k :: 0 <= k < 8 ==> EntryAt(disk[0], 3 + k) == info[k]
  }

  ghost predicate HasNode(disk: seq<seq<Byte>>, f: File)
    requires IsDisk(disk)
  {
    f.ino < |disk| && DecodeInode(disk[f.ino]) == InodeOf(f) && EntryAt(disk[f.ino], 16) == f.dbIndirect
  }

  /** The type and the number of links of an inode. */
  ghost predicate HasTag(disk: seq<seq<Byte>>, f: File, tag: nat)
    requires IsDisk(disk)
  {
    f.ino < |disk| && EntryAt(disk[f.ino], 1) == tag
  }

  /** The blocks that the freemap on the disk marks as free. */
  ghost function FreeBlocks(disk: seq<seq<Byte>>): set<nat>
    requires IsDisk(disk) && FirstIno(|disk|) <= |disk|
  {
    Bitmap.SetBits(FreemapWords(disk, FreemapBlocks(|disk|)))
  }

  ghost predicate Injective(files: map<nat, File>) {
    forall x, y :: x in files && y in files && files[x].ino == files[y].ino ==> x == y
  }

  function Inos(files: map<nat, File>): set<nat> {
    set id | id in files :: files[id].ino
  }

  lemma InodesDiffer(m: Image)
    requires Complete(m)
    ensures Injective(m.files)
  {
    forall x, y | x in m.files && y in m.files && m.files[x].ino == m.files[y].ino ensures x == y {
      assert m.purpose[m.files[x].ino] == Node(x) && m.purpose[m.files[y].ino] == Node(y);
    }
  }

  /** Numbers with a purpose are positive and below `next`. */
  lemma PurposeBelow(m: Image, b: nat)
    requires Complete(m) && b in m.purpose
    ensures 0 < b < m.next
  {
    assert b in Handed(m.ninos, m.next);
    assert IsHanded(m.ninos, m.next, b) && FirstIno(m.ninos) >= 2;
  }

  lemma BuilderComplete(b: Builder)
    requires b.Valid() && b.loose == {}
    ensures Complete(ImageOf(b))
  {
    hide Records, Handed, Assigned;
    var m := ImageOf(b);
    assert m.purpose.Keys == Handed(m.ninos, m.next);
  }

  /** The numbers in an inode are small. */
  lemma FileFits(m: Image, id: nat)
    requires Complete(m) && id in m.files
    ensures Fits(m.files[id])
  {
    hide Handed;
    var f, rec: seq<nat> := m.files[id], m.rec[id];
    assert FileOk(m, id);
    forall k | 0 <= k < NDIRECT ensures f.direct[k] < WORD {
      if k < |rec| {
        assert m.purpose[rec[k]] == Content(id, k);
        PurposeBelow(m, rec[k]);
      }
    }
    if f.indirect != 0 { PurposeBelow(m, f.indirect); }
    if f.dbIndirect != 0 { PurposeBelow(m, f.dbIndirect); }
  }

  /** The loop over the cached blocks in close_sfs. */
  method FlushBlocks(cache: Cache, disk: seq<seq<Byte>>) returns (disk': seq<seq<Byte>>)
    requires IsDisk(disk) && AllEntries(cache) && forall e :: e in cache ==> e < |disk|
    ensures IsDisk(disk') && |disk'| == |disk|
    ensures forall c :: 0 <= c < |disk| ==> disk'[c] == if c in cache then Flushed(cache[c]) else disk[c]
  {
    hide Flushed;
    disk' := disk;
    var todo := cache.Keys;
    while todo != {}
      invariant todo <= cache.Keys && IsDisk(disk') && |disk'| == |disk|
      invariant forall c :: 0 <= c < |disk| ==>
        disk'[c] == if c in cache && c !in todo then Flushed(cache[c]) else disk[c]
      decreases |todo|
    {
      var e :| e in todo;
      disk' := disk'[e := Flushed(cache[e])];
      todo := todo - {e};
    }
  }

  /** The loop over the cached inodes. */
  method FlushInodes(files: map<nat, File>, tags: map<nat, nat>, disk: seq<seq<Byte>>)
    returns (disk': seq<seq<Byte>>)
    requires IsDisk(disk) && Injective(files) && files.Keys <= tags.Keys
    requires forall id :: id in files ==> Fits(files[id]) && files[id].ino < |disk| && tags[id] < WORD
    ensures IsDisk(disk') && |disk'| == |disk|
    ensures forall id :: id in files ==> HasNode(disk', files[id]) && HasTag(disk', files[id], tags[id])
    ensures forall c :: 0 <= c < |disk| && c !in Inos(files) ==> disk'[c] == disk[c]
  {
    hide Flushed, NodeWords, DecodeInode, Fits, IsEntryBlock, EntryAt;
    disk' := disk;
    var todo := files.Keys;
    while todo != {}
      invariant todo <= files.Keys && IsDisk(disk') && |disk'| == |disk|
      invariant forall id :: id in files && id !in todo ==>
        HasNode(disk', files[id]) && HasTag(disk', files[id], tags[id])
      invariant forall c :: 0 <= c < |disk| && c !in Inos(files) ==> disk'[c] == disk[c]
      decreases |todo|
    {
      var id :| id in todo;
      NodeFits(files[id]);
      NodeDecoded(files[id], tags[id]);
      assert files[id].ino in Inos(files);
      disk' := disk'[files[id].ino := Flushed(NodeWords(files[id], tags[id]))];
      todo := todo - {id};
    }
  }

  lemma NodeFits(f: File)
    requires Fits(f)
    ensures |f.direct| == NDIRECT
  {
  }

  /**
    close_sfs: the freemap, the superblock with the text `info`, the cached blocks, and the inodes with their types
    and link counts `tags`.  The blocks of the files' contents stay as write_block left them.
  */
  method Close(b: Builder, disk: seq<seq<Byte>>, info: seq<nat>, tags: map<nat, nat>)
    returns (disk': seq<seq<Byte>>)
    requires b.Valid() && b.loose == {} && IsDisk(disk) && |disk| == b.ninos
    requires |info| == 8 && (forall k :: 0 <= k < 8 ==> info[k] < WORD)
    requires b.files.Keys <= tags.Keys && forall id :: id in b.files ==> tags[id] < WORD
    ensures Written(ImageOf(b), disk') && HasText(disk', info)
    ensures forall id :: id in b.files ==> HasTag(disk', b.files[id], tags[id])
    ensures forall id :: id in b.files ==> MapsTo(disk', b.files[id].ino, b.rec[id])
    ensures forall c :: c in b.purpose && b.purpose[c].Content? ==> c < |disk| && disk'[c] == disk[c]
  {
    hide Records, Handed, Assigned, AllRecord, Complete, Flushed, Fits, AllEntries, Injective, Written, FreemapWords,
      Bitmap.SetBits, FreeLists.Range, EntryAt, SuperWords, HasNode, HasTag, MapsTo, Inos, FirstIno;
    ghost var m := ImageOf(b);
    BuilderComplete(b);
    Sizes(m);
    InodesDiffer(m);
    forall id | id in b.files ensures Fits(b.files[id]) { FileFits(m, id); }
    var d1 := WriteFreemap(disk, b.ninos, b.nextIno);
    SuperDecoded(b.ninos, b.unused, info);
    var d2 := d1[0 := Flushed(SuperWords(b.ninos, b.unused, info))];
    var d3 := FlushBlocks(b.cache, d2);
    disk' := FlushInodes(b.files, tags, d3);
    AllWritten(m, disk, d1, d2, d3, disk');
    forall id | id in b.files ensures MapsTo(disk', b.files[id].ino, b.rec[id]) { FileMapped(m, disk', id); }
  }

  lemma Sizes(m: Image)
    requires Complete(m)
    ensures AllEntries(m.cache) && FirstIno(m.ninos) <= m.next <= m.ninos < WORD
    ensures forall e :: e in m.cache ==> e < m.ninos
    ensures forall id :: id in m.files ==> m.files[id].ino < m.ninos
  {
    forall e | e in m.cache ensures e < m.ninos { PurposeBelow(m, e); }
    forall id | id in m.files ensures m.files[id].ino < m.ninos { PurposeBelow(m, m.files[id].ino); }
  }

  /** What each part of close_sfs writes is not overwritten by another. */
  lemma AllWritten(m: Image, d0: seq<seq<Byte>>, d1: seq<seq<Byte>>, d2: seq<seq<Byte>>, d3: seq<seq<Byte>>,
                   d4: seq<seq<Byte>>)
    requires Complete(m) && |d0| == |d1| == |d2| == |d3| == |d4| == m.ninos
    requires IsDisk(d0) && IsDisk(d1) && IsDisk(d2) && IsDisk(d3) && IsDisk(d4)
    requires forall c :: 0 <= c < m.ninos && (c < FREEMAP || FirstIno(m.ninos) <= c) ==> d1[c] == d0[c]
    requires FirstIno(m.ninos) <= m.ninos && FreeBlocks(d1) == FreeLists.Range(m.next, m.ninos - m.next)
    requires (forall c :: 0 < c < m.ninos ==> d2[c] == d1[c]) && HasSuper(d2, m.ninos, m.ninos - m.next)
    requires AllEntries(m.cache)
    requires forall c :: 0 <= c < m.ninos ==> d3[c] == if c in m.cache then Flushed(m.cache[c]) else d2[c]
    requires forall id :: id in m.files ==> HasNode(d4, m.files[id])
    requires forall c :: 0 <= c < m.ninos && c !in Inos(m.files) ==> d4[c] == d3[c]
    ensures Written(m, d4)
    ensures d4[0] == d2[0]
    ensures forall c :: c in m.purpose && m.purpose[c].Content? ==> c < m.ninos && d4[c] == d0[c]
  {
    hide Complete, HasSuper, HasNode, Flushed, FreemapWords, Bitmap.SetBits, IsEntryBlock, Inos, AllEntries;
    Sizes(m);
    EntriesAll(m.cache);
    forall c | 0 <= c < m.ninos && c !in m.purpose ensures d4[c] == d2[c] { Outside(m, c); }
    forall c | 0 <= c < FirstIno(m.ninos) && c != ROOT ensures c !in m.purpose && d4[c] == d2[c] { NotHanded(m, c); }
    SameSuper(d2, d4, m.ninos, m.ninos - m.next);
    SameFreemap(d1, d4, FreemapBlocks(m.ninos));
    forall e | e in m.cache ensures e < m.ninos && d4[e] == Flushed(m.cache[e]) { EntryPlace(m, e); }
    forall c | c in m.purpose && m.purpose[c].Content? ensures c < m.ninos && d4[c] == d0[c] { ContentPlace(m, c); }
  }

  // ---------------------------------------------------------------- files of any length, read back

  /** Entry `j` of entry block `e`, 0 if there is none. */
  ghost function Follow(disk: seq<seq<Byte>>, e: nat, j: nat): nat
    requires IsDisk(disk)
  {
    if 0 < e < |disk| && j < NENTRY then EntryAt(disk[e], j) else 0
  }

  /** Block `i` of the inode at `ino`, through up to two levels of entry blocks and from the disk alone. */
  ghost function MapBlock(disk: seq<seq<Byte>>, ino: nat, i: nat): nat
    requires IsDisk(disk) && ino < |disk|
  {
    if i < L0 then EntryAt(disk[ino], 3 + i)
    else if i < L1 then Follow(disk, EntryAt(disk[ino], 15), i - L0)
    else Follow(disk, Follow(disk, EntryAt(disk[ino], 16), (i - L1) / NENTRY), (i - L1) % NENTRY)
  }

  /** The inode at `ino` maps to exactly the blocks `rec`. */
  ghost predicate MapsTo(disk: seq<seq<Byte>>, ino: nat, rec: seq<nat>) {
    IsDisk(disk) && ino < |disk| && forall i: nat :: MapBlock(disk, ino, i) == if i < |rec| then rec[i] else 0
  }

  /** The disk holds the entry blocks of the cache. */
  lemma CacheFollowed(m: Image, disk: seq<seq<Byte>>, e: nat, j: nat)
    requires Complete(m) && Written(m, disk) && e in m.cache && j < NENTRY
    ensures IsEntryBlock(m.cache[e]) && Follow(disk, e, j) == m.cache[e][j]
  {
    hide AllJustified, ContentKnown, FileOk, EntryAt, HasSuper, FreeBlocks, HasNode;
    PurposeBelow(m, e);
    EntriesAll(m.cache);
    FlushedEntry(m.cache[e], j);
  }

  /** The numbers of the inode are on the disk. */
  lemma NodeRead(m: Image, disk: seq<seq<Byte>>, id: nat)
    requires Complete(m) && Written(m, disk) && id in m.files
    ensures var f := m.files[id];
      && f.ino < |disk| && |f.direct| == NDIRECT && id in m.rec && Records(m.cache, m.owner, id, f, m.rec[id])
      && EntryAt(disk[f.ino], 15) == f.indirect && EntryAt(disk[f.ino], 16) == f.dbIndirect
      && forall k :: 0 <= k < NDIRECT ==> EntryAt(disk[f.ino], 3 + k) == f.direct[k]
  {
    hide Assigned, EntryAt, HasSuper, FreeBlocks, Records;
    var f := m.files[id];
    assert FileOk(m, id) && HasNode(disk, f);
    FileFits(m, id);
    var d := DecodeInode(disk[f.ino]);
    forall k | 0 <= k < NDIRECT ensures EntryAt(disk[f.ino], 3 + k) == f.direct[k] {
      assert d.direct[k] == EntryAt(disk[f.ino], 3 + k);
    }
  }

  lemma SingleMapped(m: Image, disk: seq<seq<Byte>>, id: nat, i: nat)
    requires Complete(m) && Written(m, disk) && id in m.files && L0 <= i < L1
    ensures var rec := m.rec[id]; Follow(disk, m.files[id].indirect, i - L0) == if i < |rec| then rec[i] else 0
  {
    hide Complete, Written, EntryAt;
    NodeRead(m, disk, id);
    var f := m.files[id];
    if f.indirect != 0 { CacheFollowed(m, disk, f.indirect, i - L0); }
  }

  lemma DoubleMapped(m: Image, disk: seq<seq<Byte>>, id: nat, i: nat)
    requires Complete(m) && Written(m, disk) && id in m.files && L1 <= i
    ensures var q, r := (i - L1) / NENTRY, (i - L1) % NENTRY;
      var rec := m.rec[id];
      Follow(disk, Follow(disk, m.files[id].dbIndirect, q), r) == if i < |rec| then rec[i] else 0
  {
    hide Complete, Written, EntryAt;
    NodeRead(m, disk, id);
    var f, rec: seq<nat> := m.files[id], m.rec[id];
    var q, r := (i - L1) / NENTRY, (i - L1) % NENTRY;
    assert i == L1 + NENTRY * q + r;
    if f.dbIndirect != 0 && q < NENTRY {
      CacheFollowed(m, disk, f.dbIndirect, q);
      assert LeafOk(m.cache, m.owner, id, f, rec, q);
      if q < Leaves(|rec|) { CacheFollowed(m, disk, m.cache[f.dbIndirect][q], r); }
    }
  }

  lemma FileMapped(m: Image, disk: seq<seq<Byte>>, id: nat)
    requires Complete(m) && Written(m, disk) && id in m.files
    ensures id in m.rec && MapsTo(disk, m.files[id].ino, m.rec[id])
  {
    hide Complete, Written, MapBlock, Records;
    NodeRead(m, disk, id);
    WrittenDisk(m, disk);
    forall i: nat ensures MapBlock(disk, m.files[id].ino, i) == if i < |m.rec[id]| then m.rec[id][i] else 0 {
      BlockMapped(m, disk, id, i);
    }
  }

  lemma WrittenDisk(m: Image, disk: seq<seq<Byte>>)
    requires Written(m, disk)
    ensures IsDisk(disk)
  {
  }

  lemma BlockMapped(m: Image, disk: seq<seq<Byte>>, id: nat, i: nat)
    requires Complete(m) && Written(m, disk) && id in m.files
    ensures m.files[id].ino < |disk| && id in m.rec
    ensures MapBlock(disk, m.files[id].ino, i) == if i < |m.rec[id]| then m.rec[id][i] else 0
  {
    hide Complete, Written, EntryAt, Follow, LeafOk, Holds;
    NodeRead(m, disk, id);
    if L0 <= i < L1 {
      SingleMapped(m, disk, id, i);
    } else if L1 <= i {
      DoubleMapped(m, disk, id, i);
    }
  }

  lemma EntriesAll(c: Cache)
    requires AllEntries(c)
    ensures forall e :: e in c ==> IsEntryBlock(c[e])
  {
    hide IsEntryBlock;
  }

  lemma SameSuper(d: seq<seq<Byte>>, d': seq<seq<Byte>>, ninos: nat, unused: nat)
    requires IsDisk(d) && IsDisk(d') && d != [] && d' != [] && d[0] == d'[0] && HasSuper(d, ninos, unused)
    ensures HasSuper(d', ninos, unused)
  {
  }

  lemma Outside(m: Image, c: nat)
    requires Complete(m) && c !in m.purpose
    ensures c !in m.cache && c !in Inos(m.files)
  {
  }

  lemma NotHanded(m: Image, c: nat)
    requires Complete(m) && c < FirstIno(m.ninos) && c != ROOT
    ensures c !in m.purpose
  {
    assert !IsHanded(m.ninos, m.next, c);
  }

  lemma EntryPlace(m: Image, e: nat)
    requires Complete(m) && e in m.cache
    ensures e < m.ninos && e !in Inos(m.files)
  {
    PurposeBelow(m, e);
    assert m.purpose[e].Entry?;
  }

  lemma ContentPlace(m: Image, c: nat)
    requires Complete(m) && c in m.purpose && m.purpose[c].Content?
    ensures FirstIno(m.ninos) <= c < m.ninos && c !in m.cache && c !in Inos(m.files)
  {
    assert IsHanded(m.ninos, m.next, c);
    assert m.purpose[ROOT] == Node(0);
  }
}
