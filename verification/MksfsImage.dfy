/**
  The image that mksfs writes and the kernel mounts: the freemap of close_sfs, the mount assertion of
  kern/fs/sfs/sfs_fs.c, and the kernel's block map on files that mksfs recorded.
*/
module MksfsImage {
  import opened Machine
  import opened Bits
  import opened Bitmap
  import opened SfsLayout
  import opened Mksfs
  import FreeLists

  const MAGIC: nat := 0x2f8d_be2a     // SFS_MAGIC
  const FREEMAP: nat := 2             // SFS_BLKN_FREEMAP

  function FreemapBlocks(ninos: nat): nat {
    (ninos + BLKBITS - 1) / BLKBITS
  }

  // ---------------------------------------------------------------- the freemap

  /** One block of the freemap: the bits from `start` up to `end` are set. */
  method FreemapBlock(start: nat, end: nat) returns (data: seq<nat>)
    requires start <= end <= BLKBITS
    ensures |data| == 1024 && Words(data) && forall k: nat :: k < 32768 ==> (BitOf(data, k) <==> start <= k < end)
  {
    data := seq(1024, _ => 0);
    NoBits(data);
    var j := start;
    while j < end
      invariant start <= j <= end && |data| == 1024 && Words(data)
      invariant forall k: nat :: k < 32768 ==> (BitOf(data, k) <==> start <= k < j)
    {
      Raised(data, j / 32, j % 32);
      data := data[j / 32 := Or(data[j / 32], Pow2(j % 32))];
      j := j + 1;
    }
  }

  lemma NoBits(data: seq<nat>)
    requires |data| == 1024 && forall i :: 0 <= i < 1024 ==> data[i] == 0
    ensures Words(data) && forall k: nat :: !BitOf(data, k)
  {
    forall k: nat ensures !BitOf(data, k) {
      ZeroHasNoBits(k % 32);
    }
  }

  /** The freemap part of close_sfs: a bit is set exactly for the blocks that have not been handed out. */
  method WriteFreemap(disk: seq<seq<Byte>>, ninos: nat, nextIno: nat) returns (disk': seq<seq<Byte>>)
    requires IsDisk(disk) && |disk| == ninos && FirstIno(ninos) <= nextIno <= ninos
    ensures IsDisk(disk') && |disk'| == ninos
    ensures forall c :: 0 <= c < ninos && (c < FREEMAP || FirstIno(ninos) <= c) ==> disk'[c] == disk[c]
    ensures var words := FreemapWords(disk', FreemapBlocks(ninos));
      ninos <= 32 * |words| && SetBits(words) == FreeLists.Range(nextIno, ninos - nextIno)
  {
    hide BitOf, WordsOf;
    disk' := disk;
    var i, ino := 0, FREEMAP;
    ghost var words: seq<nat> := [];
    while i < ninos
      invariant Words(words) && i == 32 * |words| && |words| == 1024 * (ino - FREEMAP) && i < ninos + BLKBITS
      invariant forall k: nat :: k < 32 * |words| ==> (BitOf(words, k) <==> nextIno <= k < ninos)
      invariant FREEMAP <= ino <= FirstIno(ninos) && IsDisk(disk') && |disk'| == ninos
      invariant forall c :: 0 <= c < ninos && (c < FREEMAP || ino <= c) ==> disk'[c] == disk[c]
      invariant FreemapWords(disk', ino - FREEMAP) == words
      decreases ninos - i
    {
      var start, end := 0, 0;
      if i + BLKBITS > nextIno {
        start, end := if i < nextIno then nextIno - i else 0, if i + BLKBITS > ninos then ninos - i else BLKBITS;
      }
      var data := FreemapBlock(start, end);
      BitsConcat(words, data, i, nextIno, ninos, start, end);
      AreEntries(data);
      FreemapGrows(disk', ino - FREEMAP, data);
      disk' := disk'[ino := Flushed(data)];
      words := words + data;
      i, ino := i + BLKBITS, ino + 1;
    }
    BitsFrom(words, nextIno, ninos);
  }

  lemma BitsFrom(words: seq<nat>, nextIno: nat, ninos: nat)
    requires nextIno <= ninos <= 32 * |words|
    requires forall k: nat :: k < 32 * |words| ==> (BitOf(words, k) <==> nextIno <= k < ninos)
    ensures SetBits(words) == FreeLists.Range(nextIno, ninos - nextIno)
  {
    hide BitOf;
  }

  lemma AreEntries(data: seq<nat>)
    requires Words(data) && |data| == NENTRY
    ensures IsEntryBlock(data)
  {
    WordPower();
  }

  lemma WordPower()
    ensures Pow2(32) == WORD
  {
    assert Pow2(8) == 256;
    PowerProduct(8, 8);
    PowerProduct(16, 16);
  }

  /** The words of the first `n` blocks of the freemap, as the kernel reads them. */
  function FreemapWords(disk: seq<seq<Byte>>, n: nat): (words: seq<nat>)
    requires IsDisk(disk) && FREEMAP + n <= |disk|
    ensures |words| == 1024 * n
  {
    if n == 0 then [] else FreemapWords(disk, n - 1) + WordsOf(disk[FREEMAP + n - 1])
  }

  lemma {:induction false} SameFreemap(disk: seq<seq<Byte>>, disk': seq<seq<Byte>>, n: nat)
    requires IsDisk(disk) && IsDisk(disk') && FREEMAP + n <= |disk| && FREEMAP + n <= |disk'|
    requires forall c :: FREEMAP <= c < FREEMAP + n ==> disk'[c] == disk[c]
    ensures FreemapWords(disk', n) == FreemapWords(disk, n)
  {
    if n > 0 { SameFreemap(disk, disk', n - 1); }
  }

  lemma FreemapGrows(disk: seq<seq<Byte>>, n: nat, data: seq<nat>)
    requires IsDisk(disk) && FREEMAP + n < |disk| && IsEntryBlock(data)
    ensures IsDisk(disk[FREEMAP + n := Flushed(data)])
    ensures FreemapWords(disk[FREEMAP + n := Flushed(data)], n + 1) == FreemapWords(disk, n) + data
  {
    SameFreemap(disk, disk[FREEMAP + n := Flushed(data)], n);
    WordsFlushed(data);
  }

  lemma BitsConcat(words: seq<nat>, data: seq<nat>, i: nat, nextIno: nat, ninos: nat, start: nat, end: nat)
    requires Words(words) && Words(data) && i == 32 * |words| && |data| == 1024
    requires forall k: nat :: k < 32 * |words| ==> (BitOf(words, k) <==> nextIno <= k < ninos)
    requires forall k: nat :: k < 32768 ==> (BitOf(data, k) <==> start <= k < end)
    requires i + 32768 <= nextIno ==> start == end
    requires i + 32768 > nextIno ==>
      start == (if i < nextIno then nextIno - i else 0) && end == if i + 32768 > ninos then ninos - i else 32768
    requires nextIno <= ninos && i < ninos
    ensures Words(words + data)
    ensures forall k: nat :: k < 32 * |words + data| ==> (BitOf(words + data, k) <==> nextIno <= k < ninos)
  {
    hide BitOf;
    forall k: nat | k < 32 * |words + data| ensures BitOf(words + data, k) <==> nextIno <= k < ninos {
      BitConcat(words, data, k);
    }
  }

  lemma BitConcat(words: seq<nat>, data: seq<nat>, k: nat)
    requires k < 32 * |words + data|
    ensures BitOf(words + data, k) <==> if k < 32 * |words| then BitOf(words, k) else BitOf(data, k - 32 * |words|)
  {
    hide Bit;
    if k >= 32 * |words| {
      WordShift(k, |words|);
    }
  }

  lemma WordShift(k: nat, n: nat)
    requires k >= 32 * n
    ensures (k - 32 * n) / 32 == k / 32 - n && (k - 32 * n) % 32 == k % 32
  {
  }

  /** The count that mounting makes of the freemap. */
  method CountUnused(m: Bitmap) returns (n: nat)
    requires m.Valid()
    ensures n == |m.Free()|
  {
    hide SetBits, BitOf, Words;
    n := 0;
    ghost var seen: set<nat> := {};
    var i := 0;
    while i < m.nbits
      invariant i <= m.nbits && n == |seen| && seen == set k | k in m.Free() && k < i
    {
      var free := m.Test(i);
      if free {
        n := n + 1;
        seen := seen + {i};
      }
      i := i + 1;
    }
    assert seen == m.Free();
  }

  // ---------------------------------------------------------------- the block map

  /** An entry block as it is written to disk. */
  function Flushed(entries: seq<nat>): (b: seq<Byte>)
    requires IsEntryBlock(entries)
    ensures |b| == BLKSIZE
  {
    seq(BLKSIZE, p requires 0 <= p < BLKSIZE => Encode(entries[p / 4])[p % 4])
  }

  lemma FlushedEntry(entries: seq<nat>, j: nat)
    requires IsEntryBlock(entries) && j < NENTRY
    ensures EntryAt(Flushed(entries), j) == entries[j]
  {
    assert Flushed(entries)[4 * j..4 * j + 4] == Encode(entries[j]);
    DecodeEncode(entries[j]);
  }

  /** The words of a block, as they are read from disk. */
  function WordsOf(b: seq<Byte>): (words: seq<nat>)
    requires |b| == BLKSIZE
    ensures |words| == NENTRY
  {
    seq(NENTRY, j requires 0 <= j < NENTRY => EntryAt(b, j))
  }

  lemma WordsFlushed(entries: seq<nat>)
    requires IsEntryBlock(entries)
    ensures WordsOf(Flushed(entries)) == entries
  {
    forall j | 0 <= j < NENTRY ensures WordsOf(Flushed(entries))[j] == entries[j] {
      FlushedEntry(entries, j);
    }
  }

  // ---------------------------------------------------------------- inodes and the superblock

  /** The inode as the kernel reads it from its block; it does not know double indirect blocks. */
  function DecodeInode(b: seq<Byte>): Inode
    requires |b| == BLKSIZE
  {
    Inode(EntryAt(b, 0), EntryAt(b, 2), seq(NDIRECT, k requires 0 <= k < NDIRECT => EntryAt(b, 3 + k)), EntryAt(b, 15))
  }

  function InodeOf(f: File): Inode {
    Inode(f.size, f.nblks, f.direct, f.indirect)
  }

  /** The words of struct inode; `tag` holds the type and the number of links. */
  function NodeWords(f: File, tag: nat): (words: seq<nat>)
    requires |f.direct| == NDIRECT
    ensures |words| == NENTRY
  {
    [f.size, tag, f.nblks] + f.direct + [f.indirect, f.dbIndirect] + seq(NENTRY - 17, _ => 0)
  }

  /** All numbers in the inode fit into words. */
  ghost predicate Fits(f: File) {
    && |f.direct| == NDIRECT && f.size < WORD && f.nblks < WORD && f.indirect < WORD && f.dbIndirect < WORD
    && forall k :: 0 <= k < NDIRECT ==> f.direct[k] < WORD
  }

  lemma NodeDecoded(f: File, tag: nat)
    requires Fits(f) && tag < WORD
    ensures IsEntryBlock(NodeWords(f, tag)) && DecodeInode(Flushed(NodeWords(f, tag))) == InodeOf(f)
    ensures var b := Flushed(NodeWords(f, tag)); EntryAt(b, 1) == tag && EntryAt(b, 16) == f.dbIndirect
  {
    hide EntryAt, Flushed;
    var words := NodeWords(f, tag);
    FlushedEntry(words, 0);
    FlushedEntry(words, 1);
    FlushedEntry(words, 16);
    FlushedEntry(words, 2);
    FlushedEntry(words, 15);
    forall k | 0 <= k < NDIRECT ensures EntryAt(Flushed(words), 3 + k) == f.direct[k] {
      FlushedEntry(words, 3 + k);
    }
  }

  /** The words of struct super; `info` is its text. */
  function SuperWords(ninos: nat, unused: nat, info: seq<nat>): (words: seq<nat>)
    requires |info| == 8
    ensures |words| == NENTRY
  {
    [MAGIC, ninos, unused] + info + seq(NENTRY - 11, _ => 0)
  }

  lemma SuperDecoded(ninos: nat, unused: nat, info: seq<nat>)
    requires |info| == 8 && (forall k :: 0 <= k < 8 ==> info[k] < WORD) && ninos < WORD && unused < WORD
    ensures var words := SuperWords(ninos, unused, info);
      && IsEntryBlock(words) && EntryAt(Flushed(words), 0) == MAGIC
      && EntryAt(Flushed(words), 1) == ninos && EntryAt(Flushed(words), 2) == unused
      && forall k :: 0 <= k < 8 ==> EntryAt(Flushed(words), 3 + k) == info[k]
  {
    hide EntryAt, Flushed;
    var words := SuperWords(ninos, unused, info);
    forall k | 0 <= k < 8 ensures EntryAt(Flushed(words), 3 + k) == info[k] {
      FlushedEntry(words, 3 + k);
    }
    FlushedEntry(words, 0);
    FlushedEntry(words, 1);
    FlushedEntry(words, 2);
  }

  /** For every index its map reaches the kernel finds the block that append_block recorded, none beyond the end. */
  lemma KernelAgrees(c: Cache, owner: map<nat, Role>, id: nat, f: File, rec: seq<nat>, disk: seq<seq<Byte>>, i: nat)
    requires Records(c, owner, id, f, rec) && (forall k :: 0 <= k < |rec| ==> rec[k] < WORD) && i < NBLOCKS
    requires IsDisk(disk) && f.indirect < |disk|
    requires f.indirect != 0 ==> disk[f.indirect] == Flushed(c[f.indirect])
    ensures BlockOf(InodeOf(f), disk, i) == if i < |rec| then rec[i] else 0
  {
    if i >= NDIRECT && f.indirect != 0 {
      FlushedEntry(c[f.indirect], i - NDIRECT);
    }
  }
}
