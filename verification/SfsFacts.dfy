/** Consequences for users of the file system: reading back what was written, files cut while open, full disks. */
module SfsFacts {
  import opened Machine
  import opened SfsLayout
  import opened SfsSteps
  import opened SfsFiles
  import opened SfsBytes
  import opened Sfs
  import Bitmap
  import FreeLists

  /** What a successful write put into a file, at any offset, is what a later read returns. */
  method WriteThenRead(v: Volume, ino: nat, buf: seq<Byte>, offset: nat) returns (st: Status, data: seq<Byte>)
    requires v.Consistent() && ino in v.inodes
    modifies v, v.freemap.words
    ensures v.Consistent() && (st.Done? ==> data == buf)
  {
    hide Sound, AllDense, AllNear, Covered, ByteAt, BlockOf, Wrote, Breaks, Short, EndsCovered, v.Counted, Reads;
    FileMapped(v.View(), ino);
    ghost var s := v.View();
    var alen;
    st, alen := v.Write(ino, buf, offset);
    data := [];
    if st.Done? {
      FileMapped(v.View(), ino);
      ghost var s1 := v.View();
      assert buf[..alen] == buf;
      var again, got := v.Read(ino, offset, |buf|);
      if buf != [] {
        NotBroken(s, ino, offset, |buf|);
        Written(s, s1, ino, offset, buf);
      }
      ReadBack(s1, v.View(), ino, offset, buf, again, got);
      data := got;
    }
  }

  lemma NotBroken(s: Fs, ino: nat, offset: nat, len: nat)
    requires ino in s.inodes && !Breaks(s, ino, offset, len) && !Short(s, ino, offset, len)
    ensures offset + len <= 1036 * 4096
  {
  }

  lemma Written(s: Fs, s': Fs, ino: nat, offset: nat, buf: seq<Byte>)
    requires IsDisk(s.disk) && ino in s.inodes && Mapped(s, ino) && Wrote(s, s', ino, offset, buf)
    ensures offset + |buf| <= |Contents(s', ino)| && Contents(s', ino)[offset..offset + |buf|] == buf
    ensures buf != [] ==> offset + |buf| <= s'.inodes[ino].blocks * 4096
  {
    hide ByteAt;
    forall p: nat | offset <= p < offset + |buf| ensures Contents(s', ino)[p] == buf[p - offset] {
      assert LaidAt(s, s', ino, offset, buf, p);
    }
  }

  lemma ReadBack(s: Fs, s': Fs, ino: nat, offset: nat, buf: seq<Byte>, st: Status, data: seq<Byte>)
    requires Reads(s, s', ino, offset, |buf|, st, data) && offset < MAX_FILE_SIZE && ino in s.inodes
    requires buf != [] ==>
      && IsDisk(s.disk) && Mapped(s, ino) && offset + |buf| <= 1036 * 4096 && offset
        + |buf| <= s.inodes[ino].blocks * 4096
      && offset + |buf| <= |Contents(s, ino)| && Contents(s, ino)[offset..offset + |buf|] == buf
    ensures data == buf
  {
  }

  /**
    A growth that fails, followed by a truncation to the size the file still has: this panics exactly unless there
    was room for just the blocks that size takes.
  */
  method GrowthThenTruncation(v: Volume, ino: nat, len: nat) returns (st: Status, again: Status)
    requires v.Consistent() && ino in v.inodes
    modifies v, v.freemap.words
    ensures v.Consistent()
    ensures st.Full? ==> (again.Panic? <==> !RoomFor(old(v.View()), ino, BlocksFor(old(v.inodes[ino].size))))
  {
    hide Sound, AllDense, AllNear;
    FileMapped(v.View(), ino);
    ghost var s := v.View();
    FileNear(s, ino);
    st := v.Truncfile(ino, len);
    FileMapped(v.View(), ino);
    ghost var s1 := v.View();
    again := v.Truncfile(ino, v.inodes[ino].size);
    if st.Full? { SizedAfter(s, s1, ino, BlocksFor(len)); }
  }

  /** The file has at most `n` blocks, and the free ones suffice for `n` but not for one more. */
  ghost predicate RoomFor(s: Fs, ino: nat, n: nat)
    requires ino in s.inodes
  {
    s.inodes[ino].blocks <= n && Cost(s, ino, n) <= |s.free| < Cost(s, ino, n + 1)
  }

  lemma SizedAfter(s: Fs, s': Fs, ino: nat, tblks: nat)
    requires IsDisk(s.disk) && ino in s.inodes && Mapped(s, ino) && Near(s, ino) && Enlarged(s, s', ino, tblks, Full)
    ensures ino in s'.inodes && s'.inodes[ino].size == s.inodes[ino].size <= MAX_FILE_SIZE
    ensures Sized(s', ino) <==> RoomFor(s, ino, BlocksFor(s.inodes[ino].size))
  {
    hide ByteAt;
  }

  /**
    Two open files on one file: one writes `first` from the start, the other cuts the file to `k` bytes, and the one
    writes on where it was.  The kernel panics exactly if that is behind the block after the last.  Otherwise the
    bytes between are what the remaining blocks still hold, and zeros in new blocks.
  */
  method WriteBehindCut(v: Volume, ino: nat, first: seq<Byte>, k: nat, second: seq<Byte>)
    returns (st: Status, cut: Status, again: Status)
    requires v.Consistent() && ino in v.inodes && k <= |first| && second != []
    modifies v, v.freemap.words
    ensures v.Consistent()
    ensures st.Done? && cut.Done? && |first| + |second| <= 1036 * 4096 ==>
      (again.Panic? <==> |first| / 4096 > BlocksFor(k))
    ensures st.Done? && cut.Done? && again.Done? ==>
      var s := v.View();
      && IsDisk(s.disk) && ino in s.inodes && Mapped(s, ino)
      && Contents(s, ino) == seq(|first|, p requires 0 <= p < |first| => Remains(first, k, p)) + second
  {
    hide Sound, AllDense, AllNear, Covered, ByteAt, BlockOf, Wrote, Truncated, Breaks, Short, EndsCovered, Overgrows,
         Starves, v.Counted;
    ghost var s0 := v.View();
    FileMapped(s0, ino);
    var alen;
    st, alen := v.Write(ino, first, 0);
    cut, again := Invalid, Invalid;
    if st.Done? {
      ghost var s1 := v.View();
      assert first[..alen] == first;
      FileMapped(s1, ino);
      cut := v.Truncfile(ino, k);
      if cut.Done? {
        ghost var s2 := v.View();
        FileMapped(s2, ino);
        TruncatedSize(s1, s2, ino, k);
        again, alen := v.Write(ino, second, |first|);
        FileMapped(v.View(), ino);
        CutOut(s2, ino, k, |first|, |second|);
        if first != [] { NotBroken(s0, ino, 0, |first|); }
        if again.Done? {
          assert second[..alen] == second;
          BehindCut(s0, s1, s2, v.View(), ino, first, k, second);
        }
      }
    }
  }

  lemma CutOut(s: Fs, ino: nat, k: nat, offset: nat, len: nat)
    requires ino in s.inodes && Sized(s, ino) && s.inodes[ino].size == k
    ensures offset + len <= 1036 * 4096 ==> (Breaks(s, ino, offset, len) <==> offset / 4096 > BlocksFor(k))
  {
  }

  lemma BehindCut(s0: Fs, s1: Fs, s2: Fs, s3: Fs, ino: nat, first: seq<Byte>, k: nat, second: seq<Byte>)
    requires IsDisk(s0.disk) && ino in s0.inodes && Mapped(s0, ino) && k <= |first|
    requires if first == [] then s1 == s0 else Wrote(s0, s1, ino, 0, first)
    requires Truncated(s1, s2, ino, k) && Sized(s2, ino)
    requires second != [] && Wrote(s2, s3, ino, |first|, second)
    ensures Contents(s3, ino) == seq(|first|, p requires 0 <= p < |first| => Remains(first, k, p)) + second
  {
    hide BlockOf;
    forall p: nat | p < |first| + |second|
      ensures ByteAt(s3, ino, p) == if p < |first| then Remains(first, k, p) else second[p - |first|]
    {
      assert LaidAt(s2, s3, ino, |first|, second, p);
      if p < |first| { assert LaidAt(s0, s1, ino, 0, first, p); }
    }
  }

  /** Byte `p` of `first` after a cut to `k` bytes and growth behind it: whole blocks are lost. */
  function Remains(first: seq<Byte>, k: nat, p: nat): Byte
    requires p < |first|
  {
    if p / 4096 < BlocksFor(k) then first[p] else 0
  }

  /** A bitmap of `4 + n` blocks of which the first four are taken. */
  method FourTaken(n: nat) returns (m: Bitmap.Bitmap)
    ensures fresh(m) && fresh(m.words) && m.Valid() && m.nbits == 4 + n && m.Free() == FreeLists.Range(4, n)
  {
    hide Bitmap.SetBits, Bitmap.BitOf, Bitmap.Words;
    m := new Bitmap.Bitmap(4 + n);
    assert m.Free() == FreeLists.Range(0, 4 + n);
    TakeLeast(m, 0, 4 + n);
    TakeLeast(m, 1, 3 + n);
    TakeLeast(m, 2, 2 + n);
    TakeLeast(m, 3, 1 + n);
  }

  method TakeLeast(m: Bitmap.Bitmap, k: nat, n: nat)
    requires m.Valid() && m.Free() == FreeLists.Range(k, n) && n > 0
    modifies m.words
    ensures m.Valid() && m.Free() == FreeLists.Range(k + 1, n - 1)
  {
    assert k in FreeLists.Range(k, n);
    var b := m.Alloc();
    assert b.value == k;
    assert FreeLists.Range(k, n) - {k} == FreeLists.Range(k + 1, n - 1);
  }

  function EmptyInode(): Inode {
    Inode(0, 0, seq(NDIRECT, _ => 0), 0)
  }

  /** A disk with superblock, the inodes 1 and 3 of two empty files, freemap, and `n` free blocks. */
  method SmallVolume(n: nat) returns (v: Volume)
    requires n < 1024
    ensures fresh(v) && fresh(v.freemap.words) && v.Consistent()
    ensures v.inodes == map[1 := EmptyInode(), 3 := EmptyInode()]
    ensures |v.View().free| == n
  {
    var m := FourTaken(n);
    FreeLists.RangeSize(4, n);
    var disk := seq(4 + n, _ => Zeros());
    var inodes := map[1 := EmptyInode(), 3 := EmptyInode()];
    ghost var owner := map[0 := Meta, 1 := Header(1), 2 := Meta, 3 := Header(3)];
    SmallSound(disk, inodes, owner, m.Free());
    v := new Volume(disk, inodes, m, n, owner);
    assert v.View() == Fs(disk, inodes, owner, m.Free());
  }

  lemma SmallSound(disk: seq<seq<Byte>>, inodes: map<nat, Inode>, owner: map<nat, Use>, free: set<nat>)
    requires 4 <= |disk| < WORD && (forall b :: 0 <= b < |disk| ==> disk[b] == Zeros())
    requires inodes == map[1 := EmptyInode(), 3 := EmptyInode()]
    requires owner == map[0 := Meta, 1 := Header(1), 2 := Meta, 3 := Header(3)]
    requires free == FreeLists.Range(4, |disk| - 4)
    ensures var s := Fs(disk, inodes, owner, free); Sound(s, {}) && AllDense(s) && AllNear(s)
  {
    var s := Fs(disk, inodes, owner, free);
    forall x | x in inodes ensures Mapped(s, x) && Recorded(s, x) && Dense(s, x) {
      forall j | 0 <= j < NBLOCKS ensures RecordedAt(s, x, j) && DenseAt(s, x, j) {
        assert BlockOf(s.inodes[x], s.disk, j) == 0;
      }
    }
  }

  /**
    An empty file on a disk with one free block, grown to two blocks: the block stays and the size is still 0.
    Truncating the file to its own size 0 then panics.
  */
  method FailedGrowthExample() returns (st: Status, size: nat, blocks: nat, again: Status)
    ensures st.Full? && size == 0 && blocks == 1 && again.Panic?
  {
    var v := SmallVolume(1);
    st := v.Truncfile(1, 2 * 4096);
    size, blocks := v.inodes[1].size, v.inodes[1].blocks;
    again := v.Truncfile(1, 0);
  }

  /** 5000 bytes are written, the file is opened again and cut to nothing, and the first open file writes on. */
  method CutWhileOpenExample() returns (st: Status, cut: Status, again: Status)
    ensures st.Done? && cut.Done? && again.Panic?
  {
    hide Sound, AllDense, AllNear, Wrote, Truncated, Exhausted;
    var v := SmallVolume(2);
    var first: seq<Byte> := seq(5000, _ => 7);
    var alen;
    st, alen := v.Write(1, first, 0);
    cut := v.Truncfile(1, 0);
    again, alen := v.Write(1, [7], 5000);
  }

  /** 3000 bytes are written, the file is cut to one byte, and a write at 3000 brings the others back. */
  method StaleBytesExample(first: seq<Byte>) returns (st: Status, cut: Status, again: Status, data: seq<Byte>)
    requires |first| == 3000
    ensures st.Done? && cut.Done? && again.Done? && data == first + [7]
  {
    hide Sound, AllDense, AllNear, Wrote, Truncated, Exhausted, Contents, Balanced, EndsCovered, Reads;
    var v := SmallVolume(1);
    ghost var s0, s1, s2 := v.View(), v.View(), v.View();
    st, cut, s1 := WriteAndCut(v, first);
    s2 := v.View();
    FileMapped(s2, 1);
    var alen;
    again, alen := v.Write(1, [7], 3000);
    ghost var s3 := v.View();
    FileMapped(s3, 1);
    assert [7][..alen] == [7];
    WroteSize(s2, s3, 1, 3000, [7]);
    BehindCut(s0, s1, s2, s3, 1, first, 1, [7]);
    AllRemain(first);
    ContentsSize(s3, 1);
    var done, got := v.Read(1, 0, 3001);
    ReadBack(s3, v.View(), 1, 0, first + [7], done, got);
    data := got;
  }

  method WriteAndCut(v: Volume, first: seq<Byte>) returns (st: Status, cut: Status, ghost s1: Fs)
    requires Stands(v, 1, 0, 0, 1) && |first| == 3000
    modifies v, v.freemap.words
    ensures st.Done? && cut.Done? && Stands(v, 1, 1, 1, 0)
    ensures var s0, s2 := old(v.View()), v.View();
      && IsDisk(s0.disk) && Mapped(s0, 1) && Wrote(s0, s1, 1, 0, first)
      && IsDisk(s1.disk) && 1 in s1.inodes && Mapped(s1, 1) && Truncated(s1, s2, 1, 1)
  {
    hide Sound, AllDense, AllNear, Wrote, Truncated, Exhausted, EndsCovered, Enlarged;
    ghost var s0 := v.View();
    FileMapped(s0, 1);
    var alen;
    st, alen := v.Write(1, first, 0);
    s1 := v.View();
    FileMapped(s1, 1);
    assert first[..alen] == first;
    WroteSize(s0, s1, 1, 0, first);
    cut := v.Truncfile(1, 1);
    CutSize(s1, v.View(), 1, 1);
  }

  lemma AllRemain(first: seq<Byte>)
    requires |first| == 3000
    ensures seq(|first|, p requires 0 <= p < |first| => Remains(first, 1, p)) == first
  {
  }

  lemma WroteSize(s: Fs, s': Fs, ino: nat, off: nat, data: seq<Byte>)
    requires IsDisk(s.disk) && ino in s.inodes && Mapped(s, ino) && Wrote(s, s', ino, off, data)
    ensures ino in s'.inodes && s'.inodes[ino].size == NewSize(s, ino, off, data)
    ensures s'.inodes[ino].blocks == Extent(s, ino, off, |data|) && OthersKept(s, s', ino)
  {
    KeptByOthers(s, s', ino);
  }

  ghost predicate OthersKept(s: Fs, s': Fs, ino: nat) {
    s'.inodes.Keys == s.inodes.Keys && forall x :: x in s.inodes && x != ino ==> s'.inodes[x] == s.inodes[x]
  }

  lemma KeptByOthers(s: Fs, s': Fs, ino: nat)
    requires IsDisk(s.disk) && OthersSame(s, s', ino)
    ensures OthersKept(s, s', ino)
  {
    forall x | x in s.inodes && x != ino ensures x in s'.inodes && s'.inodes[x] == s.inodes[x] {
      assert SameFile(s, s', x);
    }
  }

  lemma CutSize(s: Fs, s': Fs, ino: nat, len: nat)
    requires IsDisk(s.disk) && ino in s.inodes && Mapped(s, ino) && Truncated(s, s', ino, len)
    ensures ino in s'.inodes && s'.inodes[ino].size == len && OthersKept(s, s', ino)
  {
    KeptByOthers(s, s', ino);
  }

  /** File `ino` has these sizes and only direct blocks, and `free` blocks are free. */
  ghost predicate Stands(v: Volume, ino: nat, size: nat, blocks: nat, free: nat)
    reads v, v.freemap.words
  {
    && v.Consistent() && ino in v.inodes && |v.View().free| == free
    && v.inodes[ino].size == size && v.inodes[ino].blocks == blocks && v.inodes[ino].indirect == 0
  }

  /** Write at `offset`, where the file has just the blocks before that, and there is room for one block or none. */
  method WriteNext(v: Volume, ino: nat, buf: seq<Byte>, offset: nat, ghost free: nat) returns (st: Status)
    requires Stands(v, ino, 0, 0, free) && buf != [] && offset + |buf| <= 4096 && free <= 1
    modifies v, v.freemap.words
    ensures st == if free == 1 then Done else Full
    ensures if free == 1 then Stands(v, ino, offset + |buf|, 1, 0) else Stands(v, ino, offset, 0, 0)
    ensures OthersKept(old(v.View()), v.View(), ino)
  {
    hide Sound, AllDense, AllNear, Wrote, v.Counted;
    ghost var s := v.View();
    FileMapped(s, ino);
    var alen;
    st, alen := v.Write(ino, buf, offset);
    WroteSize(s, v.View(), ino, offset, buf[..alen]);
  }

  method CutToNothing(v: Volume, ino: nat, ghost size: nat) returns (st: Status)
    requires Stands(v, ino, size, 1, 0) && 0 < size <= 4096
    modifies v, v.freemap.words
    ensures st.Done? && Stands(v, ino, 0, 0, 1) && OthersKept(old(v.View()), v.View(), ino)
  {
    hide Sound, AllDense, AllNear, Truncated, Enlarged, v.Counted;
    ghost var s := v.View();
    FileMapped(s, ino);
    st := v.Truncfile(ino, 0);
    CutSize(s, v.View(), ino, 0);
  }

  /** Read the first byte of a file of 3000 bytes without a block. */
  method ReadFirst(v: Volume, ghost free: nat) returns (st: Status, data: seq<Byte>)
    requires Stands(v, 1, 3000, 0, free) && free <= 1
    modifies v, v.freemap.words
    ensures st == if free == 1 then Done else Full
    ensures Stands(v, 1, 3000, free, 0) && OthersKept(old(v.View()), v.View(), 1)
    ensures free == 1 ==> data == [0]
  {
    hide Sound, AllDense, AllNear, Overlay, v.Counted;
    ghost var s := v.View();
    FileMapped(s, 1);
    st, data := v.Read(1, 0, 1);
    OverlaySame(s, v.View(), 1);
    NoByte(s, 1);
    ContentsSize(s, 1);
  }

  lemma OverlaySame(s: Fs, s': Fs, ino: nat)
    requires IsDisk(s.disk) && ino in s.inodes && Mapped(s, ino) && Overlay(s, s', ino, 0, [])
    ensures ino in s'.inodes && s'.inodes[ino].size == s.inodes[ino].size && OthersKept(s, s', ino)
  {
    KeptByOthers(s, s', ino);
  }

  lemma NoByte(s: Fs, ino: nat)
    requires IsDisk(s.disk) && ino in s.inodes && Mapped(s, ino) && s.inodes[ino].blocks == 0 < s.inodes[ino].size
    ensures Contents(s, ino)[..1] == [0] == Contents(s, ino)[0..1]
  {
  }

  /**
    3000 bytes are written to one file, which is cut to nothing while still open, and a second file takes the block.
    The first file is written on: nothing is written, yet its size is 3000.  Reading it fails.  When the second file
    is cut too, reading the first one takes the block from the disk.
  */
  method StrandedExample(first: seq<Byte>)
    returns (before: seq<Status>, size: nat, blocks: nat, refused: Status, served: Status, data: seq<Byte>, now: nat)
    requires |first| == 3000
    ensures before == [Done, Done, Done, Full] && size == 3000 && blocks == 0 && refused.Full?
    ensures served.Done? && data == [0] && now == 1
  {
    hide Sound, AllDense, AllNear;
    var v := SmallVolume(1);
    before := Strand(v, first);
    size, blocks := v.inodes[1].size, v.inodes[1].blocks;
    refused, data := ReadFirst(v, 0);
    var _ := CutToNothing(v, 3, 1);
    served, data := ReadFirst(v, 1);
    now := v.inodes[1].blocks;
  }

  method Strand(v: Volume, first: seq<Byte>) returns (sts: seq<Status>)
    requires Stands(v, 1, 0, 0, 1) && Stands(v, 3, 0, 0, 1) && |first| == 3000
    modifies v, v.freemap.words
    ensures sts == [Done, Done, Done, Full] && Stands(v, 1, 3000, 0, 0) && Stands(v, 3, 1, 1, 0)
  {
    hide Sound, AllDense, AllNear;
    var wrote := WriteNext(v, 1, first, 0, 1);
    var cut := CutToNothing(v, 1, 3000);
    var taken := WriteNext(v, 3, [7], 0, 1);
    var stranded := WriteNext(v, 1, [7], 3000, 0);
    sts := [wrote, cut, taken, stranded];
  }
}
