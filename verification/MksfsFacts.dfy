/** Files beyond the block map: one that mksfs can build and the kernel cannot read, and one that is to grow. */
module MksfsFacts {
  import opened Machine
  import opened SfsLayout
  import opened SfsFiles
  import opened SfsBytes
  import opened Mksfs
  import opened MksfsMount
  import Sfs

  /** The entry blocks that a file of `n` blocks has, as long as one leaf suffices. */
  function EntryBlocks(n: nat): nat {
    (if n > L0 then 1 else 0) + if n > L1 then 2 else 0
  }

  lemma BlocksRecorded(b: Builder, id: nat)
    requires b.Valid() && id in b.files
    ensures id in b.rec && b.files[id].nblks == |b.rec[id]|
  {
  }

  /** A file of `n` full blocks on an image of 2000 blocks, which it does not fill. */
  method BuildFile(n: nat) returns (b: Builder)
    requires n <= L1 + 1
    ensures fresh(b) && b.Valid() && b.loose == {} && b.ninos == 2000 && b.files.Keys == {0, 7}
    ensures b.files[7].nblks == n && b.files[7].size == BLKSIZE * n && b.nextIno == 4 + n + EntryBlocks(n)
  {
    hide b.Usable, AllRecord, Assigned;
    b := new Builder(2000);
    var r := b.AddFile(7);
    BlocksRecorded(b, 7);
    var k := 0;
    while k < n
      invariant k <= n && fresh(b) && b.Valid() && b.loose == {} && b.ninos == 2000 && b.files.Keys == {0, 7}
      invariant b.files[7].nblks == k && b.files[7].size == BLKSIZE * k && b.nextIno == 4 + k + EntryBlocks(k)
    {
      BlocksRecorded(b, 7);
      r := b.AddBlock(7, BLKSIZE);
      BlocksRecorded(b, 7);
      k := k + 1;
    }
  }

  /** The first 1036 blocks of a file of 1037 blocks can be read, and reading the next byte panics. */
  method LongFileExample(disk: seq<seq<Byte>>, info: seq<nat>) returns (st: Sfs.Status, beyond: Sfs.Status)
    requires IsDisk(disk) && |disk| == 2000 && |info| == 8 && forall k :: 0 <= k < 8 ==> info[k] < WORD
    ensures st.Done? && beyond.Panic?
  {
    hide Sound, AllDense, AllCovered, AllNear, AllRecord, Assigned, Carried, Overlay;
    var b := BuildFile(1037);
    var v := CloseAndMount(b, disk, info, map[0 := 0x2_0002, 7 := 0x1_0001]);
    var ino := b.files[7].ino;
    assert ino in v.inodes;
    ghost var s := v.View();
    Sfs.FileMapped(s, ino);
    Sfs.ContentsSize(s, ino);
    var data;
    st, data := v.Read(ino, 0, 1036 * 4096);
    beyond, data := v.Read(ino, 1036 * 4096, 1);
  }

  /** An empty file that is to grow to 1037 blocks, where there is room enough. */
  method OvergrowthExample(disk: seq<seq<Byte>>, info: seq<nat>) returns (st: Sfs.Status)
    requires IsDisk(disk) && |disk| == 2000 && |info| == 8 && forall k :: 0 <= k < 8 ==> info[k] < WORD
    ensures st.Panic?
  {
    hide Sound, AllDense, AllCovered, AllNear, AllRecord, Assigned, Carried;
    var b := BuildFile(0);
    var v := CloseAndMount(b, disk, info, map[0 := 0x2_0002, 7 := 0x1_0001]);
    var ino := b.files[7].ino;
    assert ino in v.inodes;
    st := v.Truncfile(ino, 1037 * 4096);
  }
}
