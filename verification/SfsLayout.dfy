/**
  The disk layout of the simple file system (kern/fs/sfs/sfs.h): blocks of bytes, inodes with twelve direct
  blocks and one indirect block of 1024 little-endian entries, and who owns which block.
*/
module SfsLayout {
  import opened Machine

  const BLKSIZE: nat := 4096
  const NDIRECT: nat := 12
  const NENTRY: nat := 1024
  const NBLOCKS: nat := 1036                  // blocks the kernel can map: NDIRECT + NENTRY
  const MAX_FILE_SIZE: nat := 0x800_0000

  type Byte = x: int | 0 <= x < 256

  datatype Inode = Inode(size: nat, blocks: nat, direct: seq<nat>, indirect: nat)

  // ---------------------------------------------------------------- bytes of a block

  function Patch(b: seq<Byte>, offset: nat, data: seq<Byte>): (r: seq<Byte>)
    requires offset + |data| <= |b|
    ensures |r| == |b|
  {
    b[..offset] + data + b[offset + |data|..]
  }

  lemma PatchAt(b: seq<Byte>, offset: nat, data: seq<Byte>, k: nat)
    requires offset + |data| <= |b| && k < |b|
    ensures Patch(b, offset, data)[k] == if offset <= k < offset + |data| then data[k - offset] else b[k]
  {
  }

  function Zeros(): seq<Byte> {
    seq(BLKSIZE, _ => 0)
  }

  function Encode(v: nat): (r: seq<Byte>)
    requires v < WORD
    ensures |r| == 4
  {
    [v % 256, v / 0x100 % 256, v / 0x1_0000 % 256, v / 0x100_0000]
  }

  function Decode(b: seq<Byte>): nat
    requires |b| == 4
  {
    b[0] as int + 0x100 * b[1] as int + 0x1_0000 * b[2] as int + 0x100_0000 * b[3] as int
  }

  lemma DecodeEncode(v: nat)
    requires v < WORD
    ensures Decode(Encode(v)) == v
  {
    var a, b, c := v / 0x100, v / 0x1_0000, v / 0x100_0000;
    assert b == a / 0x100 && c == b / 0x100;
  }

  /** Entry `i` of an indirect block. */
  function EntryAt(b: seq<Byte>, i: nat): nat
    requires |b| == BLKSIZE && i < NENTRY
  {
    Decode(b[4 * i..4 * i + 4])
  }

  function PutEntry(b: seq<Byte>, i: nat, v: nat): (r: seq<Byte>)
    requires |b| == BLKSIZE && i < NENTRY && v < WORD
    ensures |r| == BLKSIZE
  {
    Patch(b, 4 * i, Encode(v))
  }

  lemma PutEntryAt(b: seq<Byte>, i: nat, v: nat, j: nat)
    requires |b| == BLKSIZE && i < NENTRY && v < WORD && j < NENTRY
    ensures EntryAt(PutEntry(b, i, v), j) == if i == j then v else EntryAt(b, j)
  {
    var b2 := PutEntry(b, i, v);
    if i == j {
      assert b2[4 * j..4 * j + 4] == Encode(v);
      DecodeEncode(v);
    } else {
      assert b2[4 * j..4 * j + 4] == b[4 * j..4 * j + 4];
    }
  }

  lemma ZeroEntries(i: nat)
    requires i < NENTRY
    ensures EntryAt(Zeros(), i) == 0
  {
  }

  // ---------------------------------------------------------------- the block map

  ghost predicate WellFormed(d: Inode) {
    |d.direct| == NDIRECT
  }

  ghost predicate IsDisk(disk: seq<seq<Byte>>) {
    forall b :: 0 <= b < |disk| ==> |disk[b]| == BLKSIZE
  }

  /** The disk block that holds block `i` of the file, or 0. */
  function BlockOf(d: Inode, disk: seq<seq<Byte>>, i: nat): nat
    requires |d.direct| == NDIRECT && IsDisk(disk) && i < NBLOCKS && d.indirect < |disk|
  {
    if i < NDIRECT then d.direct[i]
    else if d.indirect == 0 then 0
    else EntryAt(disk[d.indirect], i - NDIRECT)
  }

  // ---------------------------------------------------------------- ownership

  /** What a disk block is used for; `Beyond` are blocks of a file that the kernel's block map does not reach. */
  datatype Use = Meta | Header(ino: nat) | Indirect(ino: nat) | Data(ino: nat, index: nat) | Beyond(ino: nat)

  /** The file system: disk, inodes, free blocks, and for every block in use what it is used for. */
  datatype Fs = Fs(disk: seq<seq<Byte>>, inodes: map<nat, Inode>, owner: map<nat, Use>, free: set<nat>)

  /** The use `u` of block `b` is what the metadata says. */
  ghost predicate Used(s: Fs, b: nat, u: Use)
    requires IsDisk(s.disk)
  {
    match u
    case Meta => true
    case Header(ino) => b == ino && ino in s.inodes
    case Indirect(ino) => ino in s.inodes && s.inodes[ino].indirect == b && b != 0
    case Data(ino, i) =>
      ino in s.inodes && i < NBLOCKS && Mapped(s, ino) && BlockOf(s.inodes[ino], s.disk, i) == b && b != 0
    case Beyond(ino) => ino in s.inodes
  }

  ghost predicate Mapped(s: Fs, ino: nat)
    requires ino in s.inodes
  {
    WellFormed(s.inodes[ino]) && s.inodes[ino].indirect < |s.disk|
  }

  /** The blocks inode `ino` refers to are recorded as its own. */
  ghost predicate Recorded(s: Fs, ino: nat)
    requires IsDisk(s.disk) && ino in s.inodes && Mapped(s, ino)
  {
    var d := s.inodes[ino];
    && ino in s.owner && s.owner[ino] == Header(ino)
    && (d.indirect != 0 ==> d.indirect in s.owner && s.owner[d.indirect] == Indirect(ino))
    && (forall i :: 0 <= i < NBLOCKS ==> RecordedAt(s, ino, i))
  }

  ghost predicate RecordedAt(s: Fs, ino: nat, i: nat)
    requires IsDisk(s.disk) && ino in s.inodes && Mapped(s, ino) && i < NBLOCKS
  {
    var b := BlockOf(s.inodes[ino], s.disk, i);
    b != 0 ==> b in s.owner && s.owner[b] == Data(ino, i)
  }

  /**
    Every block has at most one use, and a block is free exactly if it has none.  The blocks of `loose` are
    taken from the free ones but not in use yet.
  */
  ghost predicate Sound(s: Fs, loose: set<nat>) {
    && IsDisk(s.disk) && |s.disk| <= WORD
    && 0 in s.owner && s.owner[0] == Meta
    && (forall b :: b in s.owner ==> b < |s.disk| && Used(s, b, s.owner[b]))
    && (forall ino :: ino in s.inodes ==> Mapped(s, ino) && Recorded(s, ino))
    && loose !! s.owner.Keys && (forall b :: b in loose ==> b < |s.disk|)
    && (forall b: nat :: b in s.free <==> b < |s.disk| && b !in s.owner && b !in loose)
  }
}
