/**
  The simple file system in the kernel (kern/fs/sfs/sfs_inode.c, kern/fs/sfs/sfs_io.c) over a reliable disk:
  block allocation, the block map, truncation.
*/
module Sfs {
  import opened Machine
  import opened SfsLayout
  import opened SfsSteps
  import opened SfsGrow
  import opened SfsShrink
  import opened SfsFiles
  import opened SfsBytes
  import Bitmap

  /** A disk block number, the error of a full disk, or a failing assertion about the index of the block. */
  datatype Result = Ok(block: nat) | NoSpace | OutOfRange

  /** How a file operation ends; a failing assertion of the kernel is a panic. */
  datatype Status = Done | Invalid | Full | Panic

  class Volume {
    var disk: seq<seq<Byte>>
    var inodes: map<nat, Inode>
    const freemap: Bitmap.Bitmap
    var unused: nat                   // super.unused_blocks
    ghost var owner: map<nat, Use>

    ghost function View(): Fs
      reads this, freemap.words
    {
      Fs(disk, inodes, owner, freemap.Free())
    }

    /** No block is in use twice, the bitmap marks exactly the unused blocks, and the superblock counts them. */
    ghost predicate Valid()
      reads this, freemap.words
    {
      Sound(View(), {}) && Counted()
    }

    /**
      What holds between file operations: moreover files have no gaps, and all their bytes lie in their blocks or in
      the block after the last.
    */
    ghost predicate Consistent()
      reads this, freemap.words
    {
      Valid() && AllDense(View()) && AllNear(View())
    }

    ghost predicate Counted()
      reads this, freemap.words
    {
      freemap.Valid() && unused == |freemap.Free()| && |disk| <= freemap.nbits
    }

    /** Mounting a consistent image. */
    constructor (disk: seq<seq<Byte>>, inodes: map<nat, Inode>, freemap: Bitmap.Bitmap, unused: nat,
                 ghost owner: map<nat, Use>)
      requires freemap.Valid() && unused == |freemap.Free()| && |disk| <= freemap.nbits
      requires Sound(Fs(disk, inodes, owner, freemap.Free()), {})
      ensures Valid() && View() == Fs(disk, inodes, owner, freemap.Free()) && this.freemap == freemap
    {
      this.disk, this.inodes, this.freemap, this.unused, this.owner := disk, inodes, freemap, unused, owner;
    }

    /** sfs_block_alloc: the lowest free block, cleared. */
    method BlockAlloc() returns (r: Result)
      requires Counted() && InRange(freemap.Free(), |disk|)
      modifies this`disk, this`unused, freemap.words
      ensures Counted() && !r.OutOfRange? && (r.NoSpace? <==> old(freemap.Free()) == {})
      ensures r.NoSpace? ==> View() == old(View())
      ensures r.Ok? ==> r.block in old(View()).free && View() == Allocated(old(View()), r.block)
      ensures r.Ok? ==> forall c :: c in old(View()).free ==> r.block <= c
    {
      var b := freemap.Alloc();
      if b.None? {
        return NoSpace;
      }
      OneLess(old(freemap.Free()), b.value);
      assert unused > 0;
      unused := unused - 1;
      ghost var inUse := b.value !in freemap.Free();
      assert inUse && 0 < b.value < |disk|;
      disk := disk[b.value := Zeros()];
      return Ok(b.value);
    }

    /** sfs_block_free: a block in use becomes free. */
    method BlockFree(b: nat)
      requires Counted() && 0 < b < |disk| && b !in freemap.Free()
      modifies this`unused, freemap.words
      ensures Counted() && View() == old(View()).(free := old(View()).free + {b})
    {
      freemap.Release(b);
      unused := unused + 1;
    }

    /** din->direct[index] = b */
    method SetDirect(ino: nat, index: nat, b: nat, ghost s': Fs)
      requires Counted() && ino in inodes && index < |inodes[ino].direct| && s' == LinkDirect(View(), ino, index, b)
      modifies this`inodes, this`owner
      ensures Counted() && View() == s'
    {
      inodes := inodes[ino := inodes[ino].(direct := inodes[ino].direct[index := b])];
      owner := owner[b := Data(ino, index)];
    }

    /** sfs_wbuf of the entry into the indirect block. */
    method SetEntry(ino: nat, index: nat, b: nat, ghost s': Fs)
      requires Counted() && ino in inodes && index < NENTRY && b < WORD && IsDisk(disk) && inodes[ino].indirect < |disk|
      requires s' == LinkEntry(View(), ino, NDIRECT + index, b)
      modifies this`disk, this`owner
      ensures Counted() && View() == s'
    {
      var ent := inodes[ino].indirect;
      disk := disk[ent := PutEntry(disk[ent], index, b)];
      owner := owner[b := Data(ino, NDIRECT + index)];
    }

    /** The same for a new indirect block, which the inode refers to from now on. */
    method SetFirstEntry(ino: nat, ent: nat, index: nat, b: nat, ghost s': Fs)
      requires Counted() && ino in inodes && index < NENTRY && b < WORD && IsDisk(disk) && ent < |disk|
      requires s' == LinkEntry(LinkIndirect(View(), ino, ent), ino, NDIRECT + index, b)
      modifies this`disk, this`inodes, this`owner
      ensures Counted() && View() == s'
    {
      disk := disk[ent := PutEntry(disk[ent], index, b)];
      inodes := inodes[ino := inodes[ino].(indirect := ent)];
      owner := owner[ent := Indirect(ino)][b := Data(ino, NDIRECT + index)];
    }

    /** sfs_bmap_get_sub_nolock for a file that has an indirect block. */
    method GetEntry(ino: nat, index: nat, create: bool) returns (r: Result)
      requires Valid() && ino in inodes && index < NENTRY && inodes[ino].indirect != 0
      modifies this, freemap.words
      ensures Valid() && Gets(old(View()), View(), ino, NDIRECT + index, create, r)
    {
      assert Mapped(View(), ino);
      var b := EntryAt(disk[inodes[ino].indirect], index);
      if b != 0 || !create {
        return Ok(b);
      }
      r := AddEntry(ino, index, View());
    }

    method AddEntry(ino: nat, index: nat, ghost s: Fs) returns (r: Result)
      requires s == View() && Sound(s, {}) && Counted() && ino in inodes && index < NENTRY && inodes[ino].indirect != 0
      requires Mapped(s, ino) && BlockOf(s.inodes[ino], s.disk, NDIRECT + index) == 0
      modifies this, freemap.words
      ensures Valid() && Gets(s, View(), ino, NDIRECT + index, true, r)
    {
      hide Sound, Gets, BlockOf, Counted;
      FileMapped(s, ino);
      FreeInRange(s);
      r := BlockAlloc();
      if r.NoSpace? {
        NothingGot(s, ino, NDIRECT + index);
        return;
      }
      ghost var s' := EntryGot(s, View(), ino, NDIRECT + index, r.block);
      SetEntry(ino, index, r.block, s');
    }

    /** sfs_bmap_get_sub_nolock for a file without indirect block: both blocks are taken, or neither. */
    method GetFirstEntry(ino: nat, index: nat) returns (r: Result)
      requires Valid() && ino in inodes && index < NENTRY && inodes[ino].indirect == 0
      modifies this, freemap.words
      ensures Valid() && Gets(old(View()), View(), ino, NDIRECT + index, true, r)
    {
      ghost var s := View();
      assert Mapped(s, ino);
      FreeInRange(s);
      r := BlockAlloc();
      if r.NoSpace? {
        NothingGot(s, ino, NDIRECT + index);
        return;
      }
      r := GetSecond(ino, index, r.block, s);
    }

    /** The same, once the block for the entries has been taken. */
    method GetSecond(ino: nat, index: nat, ent: nat, ghost s: Fs) returns (r: Result)
      requires Sound(s, {}) && ent in s.free && View() == Allocated(s, ent) && Counted()
      requires ino in inodes && index < NENTRY && inodes[ino].indirect == 0 && Mapped(s, ino)
      modifies this, freemap.words
      ensures Valid() && Gets(s, View(), ino, NDIRECT + index, true, r)
    {
      hide Sound, Grown, RolledBack, Counted, Gets, BlockOf;
      FreeInRange(s);
      r := BlockAlloc();
      if r.NoSpace? {
        GiveBack(ino, index, ent, s);
        return;
      }
      ghost var s' := IndirectGot(s, View(), ino, NDIRECT + index, ent, r.block);
      SetFirstEntry(ino, ent, index, r.block, s');
    }

    /** failed_cleanup: the block taken for the entries is freed again. */
    method GiveBack(ino: nat, index: nat, ent: nat, ghost s: Fs)
      requires Sound(s, {}) && ent in s.free && View() == Allocated(s, ent) && Counted() && s.free - {ent} == {}
      requires ino in inodes && index < NENTRY && inodes[ino].indirect == 0 && Mapped(s, ino)
      modifies this, freemap.words
      ensures Valid() && Gets(s, View(), ino, NDIRECT + index, true, NoSpace)
    {
      BlockFree(ent);
      TakeBack(s, ent);
      OnlyOne(s, ino, NDIRECT + index, ent);
    }

    /** sfs_bmap_get_nolock; it panics exactly if the index is beyond the direct and indirect blocks. */
    method BmapGet(ino: nat, index: nat, create: bool) returns (r: Result)
      requires Valid() && ino in inodes
      modifies this, freemap.words
      ensures Valid() && (r.OutOfRange? <==> index >= NBLOCKS)
      ensures if index < NBLOCKS then Gets(old(View()), View(), ino, index, create, r) else View() == old(View())
    {
      assert Mapped(View(), ino);
      if index >= NBLOCKS {
        return OutOfRange;
      }
      if index < NDIRECT {
        r := GetDirect(ino, index, create);
      } else if inodes[ino].indirect != 0 {
        r := GetEntry(ino, index - NDIRECT, create);
      } else if create {
        r := GetFirstEntry(ino, index - NDIRECT);
      } else {
        return Ok(0);
      }
    }

    method GetDirect(ino: nat, index: nat, create: bool) returns (r: Result)
      requires Valid() && ino in inodes && index < NDIRECT
      modifies this, freemap.words
      ensures Valid() && Gets(old(View()), View(), ino, index, create, r)
    {
      assert Mapped(View(), ino);
      var b := inodes[ino].direct[index];
      if b != 0 || !create {
        return Ok(b);
      }
      r := AddDirect(ino, index, View());
    }

    method AddDirect(ino: nat, index: nat, ghost s: Fs) returns (r: Result)
      requires s == View() && Sound(s, {}) && Counted() && ino in inodes && index < NDIRECT && Mapped(s, ino)
      requires inodes[ino].direct[index] == 0
      modifies this, freemap.words
      ensures Valid() && Gets(s, View(), ino, index, true, r)
    {
      hide Sound, Gets, Counted;
      FileMapped(s, ino);
      FreeInRange(s);
      r := BlockAlloc();
      if r.NoSpace? {
        NothingGot(s, ino, index);
        return;
      }
      ghost var s' := DirectGot(s, View(), ino, index, r.block);
      SetDirect(ino, index, r.block, s');
    }

    /** sfs_bmap_load_nolock: the block at `index`, or a new one if the file ends there; panics beyond. */
    method BmapLoad(ino: nat, index: nat) returns (r: Result)
      requires Valid() && AllDense(View()) && ino in inodes
      modifies this, freemap.words
      ensures Valid() && AllDense(View())
      ensures r.OutOfRange? <==> index > old(inodes[ino].blocks) || index >= NBLOCKS
      ensures if r.OutOfRange? then View() == old(View()) else Loads(old(View()), View(), ino, index, r)
    {
      assert Mapped(View(), ino) && Dense(View(), ino);
      if index > inodes[ino].blocks {
        return OutOfRange;
      }
      var create := index == inodes[ino].blocks;
      if index >= NBLOCKS {
        r := BmapGet(ino, index, create);
        return;
      }
      assert DenseAt(View(), ino, index);
      if create {
        r := LoadNew(ino, View());
      } else {
        r := BmapGet(ino, index, false);
      }
    }

    method LoadNew(ino: nat, ghost s: Fs) returns (r: Result)
      requires s == View() && Sound(s, {}) && Counted() && AllDense(s) && ino in inodes && inodes[ino].blocks < NBLOCKS
      requires Mapped(s, ino) && DenseAt(s, ino, inodes[ino].blocks)
      modifies this, freemap.words
      ensures Valid() && AllDense(View()) && Loads(s, View(), ino, s.inodes[ino].blocks, r)
    {
      hide Sound, AllDense, Grown, RolledBack, Appended, Counted;
      r := BmapGet(ino, inodes[ino].blocks, true);
      ghost var s' := Loaded(s, View(), ino, r);
      if r.Ok? {
        SetSize(ino, inodes[ino].size, inodes[ino].blocks + 1, s');
      }
      assert View() == s';
    }

    /** sfs_bmap_free_nolock: the file loses the block if it has one there, otherwise nothing happens. */
    method BmapFree(ino: nat, index: nat, ghost s: Fs)
      requires s == View() && Sound(s, {}) && Counted() && ino in inodes && Mapped(s, ino)
      modifies this, freemap.words
      ensures Valid()
      ensures if index < NBLOCKS && BlockOf(s.inodes[ino], s.disk, index) != 0 then Shrunk(s, View(), ino, index)
        else View() == s
    {
      hide Shrunk, Used, Recorded;
      if index < NDIRECT {
        if inodes[ino].direct[index] != 0 {
          FreeDirect(ino, index, s);
        }
      } else if index < NBLOCKS {
        if inodes[ino].indirect != 0 {
          if EntryAt(disk[inodes[ino].indirect], index - NDIRECT) != 0 {
            FreeEntry(ino, index - NDIRECT, s);
          }
        }
      }
    }

    method FreeDirect(ino: nat, index: nat, ghost s: Fs)
      requires s == View() && Sound(s, {}) && Counted() && ino in inodes && index < NDIRECT && Mapped(s, ino)
      requires inodes[ino].direct[index] != 0
      modifies this, freemap.words
      ensures Valid() && Shrunk(s, View(), ino, index)
    {
      hide Shrunk, Used, Recorded, BlockOf;
      var b := inodes[ino].direct[index];
      ghost var s' := DirectFreed(s, ino, index, b);
      BlockFree(b);
      inodes := inodes[ino := inodes[ino].(direct := inodes[ino].direct[index := 0])];
      owner := owner - {b};
      assert View() == s';
    }

    /** sfs_bmap_free_sub_nolock */
    method FreeEntry(ino: nat, index: nat, ghost s: Fs)
      requires s == View() && Sound(s, {}) && Counted() && ino in inodes && index < NENTRY && Mapped(s, ino)
      requires BlockOf(s.inodes[ino], s.disk, NDIRECT + index) != 0
      modifies this, freemap.words
      ensures Valid() && Shrunk(s, View(), ino, NDIRECT + index)
    {
      hide Shrunk, Used, Recorded;
      var ent := inodes[ino].indirect;
      var b := EntryAt(disk[ent], index);
      ghost var s' := EntryFreed(s, ino, NDIRECT + index, b);
      disk := disk[ent := PutEntry(disk[ent], index, 0)];
      owner := owner - {b};
      BlockFree(b);
      assert View() == s';
    }

    /** sfs_bmap_truncate_nolock */
    method BmapTruncate(ino: nat, ghost s: Fs)
      requires s == View() && Sound(s, {}) && Counted() && AllDense(s) && ino in inodes && inodes[ino].blocks != 0
      modifies this, freemap.words
      ensures Valid() && AllDense(View()) && Dropped(s, View(), ino)
    {
      hide Sound, AllDense, Shrunk, Dropped, Counted, BlockOf;
      LastBlock(s, ino);
      var n := inodes[ino].blocks - 1;
      BmapFree(ino, n, s);
      ghost var s' := DroppedState(s, View(), ino);
      SetSize(ino, inodes[ino].size, n, s');
    }

    /** sfs_bmap_load_nolock followed by sfs_wbuf or sfs_wblock. */
    method WriteChunk(ino: nat, index: nat, at: nat, chunk: seq<Byte>, ghost s: Fs) returns (r: Result)
      requires s == View() && Sound(s, {}) && Counted() && AllDense(s) && ino in inodes && Mapped(s, ino)
      requires at + |chunk| <= BLKSIZE && chunk != []
      modifies this, freemap.words
      ensures Valid() && AllDense(View())
      ensures r.OutOfRange? <==> index > s.inodes[ino].blocks || index >= NBLOCKS
      ensures if r.OutOfRange? then View() == s else Chunked(s, View(), ino, index, at, chunk, r)
    {
      hide AllDense, Overlay, Chunked, Loads, Used, Recorded, BlockOf;
      r := BmapLoad(ino, index);
      if r.OutOfRange? {
        return;
      }
      ghost var s' := ChunkWritten(s, View(), ino, index, at, chunk, r);
      if r.Ok? {
        disk := disk[r.block := Patch(disk[r.block], at, chunk)];
      }
      assert View() == s';
    }

    /** One piece of sfs_io_nolock: the next `size` bytes of the buffer go to block `index`, from byte `at` on. */
    method WritePiece(ino: nat, buf: seq<Byte>, offset: nat, alen: nat, index: nat, at: nat, size: nat, ghost s: Fs)
      returns (st: Status)
      requires InTransfer(s, ino, offset, buf, alen)
      requires offset + alen == index * 4096 + at && 0 < size && at + size <= BLKSIZE && alen + size <= |buf|
      modifies this, freemap.words
      ensures InTransfer(s, ino, offset, buf, if st.Done? then alen + size else alen)
      ensures st.Done? || Stopped(s, View(), ino, offset, buf, alen, st)
      ensures st.Panic? <==> Misses(s, ino, offset, alen) || index >= NBLOCKS
    {
      ghost var s1 := View();
      Reached(index, at);
      assert index == (offset + alen) / 4096;
      var r := WriteChunk(ino, index, at, buf[alen..alen + size], s1);
      if r.OutOfRange? {
        OutOfMap(s, s1, ino, offset, buf, alen, index);
        return Panic;
      }
      st := if r.Ok? then Done else Full;
      PieceWritten(s, s1, View(), ino, offset, buf, alen, index, at, size, r);
    }

    /** The invariant of the transfers. */
    ghost predicate InTransfer(s: Fs, ino: nat, offset: nat, buf: seq<Byte>, alen: nat)
      reads this, freemap.words
    {
      Valid() && AllDense(View()) && Writing(s, View(), ino, offset, buf, alen)
    }

    /** The loop of sfs_io_nolock over whole blocks. */
    method WriteWhole(ino: nat, buf: seq<Byte>, offset: nat, from: nat, first: nat, count: nat, ghost s: Fs)
      returns (st: Status, alen: nat)
      requires InTransfer(s, ino, offset, buf, from) && offset + from == first * 4096
      requires from + count * 4096 <= |buf|
      modifies this, freemap.words
      ensures InTransfer(s, ino, offset, buf, alen) && (if st.Done? then alen == from + count * 4096
        else alen < from + count * 4096)
      ensures st.Done? || Stopped(s, View(), ino, offset, buf, alen, st)
    {
      hide *;
      var blkno: nat, nblks: nat := first, count;
      alen, st := from, Done;
      while nblks != 0
        invariant InTransfer(s, ino, offset, buf, alen)
        invariant offset + alen == blkno * 4096 && st == Done
        invariant alen + nblks * 4096 == from + count * 4096
        decreases nblks
      {
        OneBlockLess(nblks);
        st := WritePiece(ino, buf, offset, alen, blkno, 0, BLKSIZE, s);
        if !st.Done? { return; }
        alen, blkno, nblks := alen + BLKSIZE, blkno + 1, nblks - 1;
      }
    }

    /** The whole blocks and the last partial block. */
    method WriteRest(ino: nat, buf: seq<Byte>, offset: nat, from: nat, blkno: nat, ghost s: Fs)
      returns (st: Status, alen: nat)
      requires InTransfer(s, ino, offset, buf, from) && from <= |buf| && offset + from == blkno * 4096
      modifies this, freemap.words
      ensures InTransfer(s, ino, offset, buf, alen) && alen <= |buf| && (st.Done? <==> alen == |buf|)
      ensures st.Done? || Stopped(s, View(), ino, offset, buf, alen, st)
    {
      hide *;
      var endpos := offset + |buf|;
      var last, size := endpos / 4096, endpos % 4096;
      LastPiece(blkno, endpos);
      st, alen := WriteWhole(ino, buf, offset, from, blkno, last - blkno, s);
      if st.Done? && size != 0 {
        st := WritePiece(ino, buf, offset, alen, last, 0, size, s);
        if st.Done? { alen := alen + size; }
      }
    }

    /** The transfers of sfs_io_nolock: a first partial block, whole blocks, a last partial block. */
    method WriteAll(ino: nat, buf: seq<Byte>, offset: nat, ghost s: Fs) returns (st: Status, alen: nat)
      requires InTransfer(s, ino, offset, buf, 0) && buf != []
      modifies this, freemap.words
      ensures InTransfer(s, ino, offset, buf, alen) && alen <= |buf| && (st.Done? <==> alen == |buf|)
      ensures st.Done? || Stopped(s, View(), ino, offset, buf, alen, st)
    {
      hide *;
      var endpos := offset + |buf|;
      var blkno, blkoff := offset / 4096, offset % 4096;
      FirstPiece(offset, endpos);
      var nblks := endpos / 4096 - blkno;
      if blkoff == 0 {
        st, alen := WriteRest(ino, buf, offset, 0, blkno, s);
      } else {
        var size := if nblks != 0 then BLKSIZE - blkoff else endpos - offset;
        st := WritePiece(ino, buf, offset, 0, blkno, blkoff, size, s);
        alen := if st.Done? then size else 0;
        if st.Done? && nblks != 0 {
          st, alen := WriteRest(ino, buf, offset, size, blkno + 1, s);
        }
      }
    }

    /**
      sfs_io_nolock for writing, from any offset.  It panics exactly if it starts behind the block after the last,
      or gets to the end of what the block map reaches.  It is short exactly if there are too few free blocks.
      A write that starts inside a block the file does not have, on a full disk, still moves the size there, so that
      the last bytes of the file lie in no block.
    */
    method Write(ino: nat, buf: seq<Byte>, offset: nat) returns (st: Status, alen: nat)
      requires Consistent() && ino in inodes
      modifies this, freemap.words
      ensures Consistent() && ino in inodes && alen <= |buf|
      ensures st.Invalid? <==> offset >= MAX_FILE_SIZE
      ensures st.Panic? <==> offset < MAX_FILE_SIZE && buf != [] && Breaks(old(View()), ino, offset, |buf|)
      ensures st.Full? <==> offset < MAX_FILE_SIZE && buf != [] && Short(old(View()), ino, offset, |buf|)
      ensures st.Invalid? || buf == [] ==> alen == 0 && View() == old(View())
      ensures st.Done? <==> alen == |buf| && !st.Invalid?
      ensures st.Full? ==> Exhausted(View(), ino, offset + alen)
      ensures (st.Done? || st.Full?) && buf != [] ==> Wrote(old(View()), View(), ino, offset, buf[..alen])
      ensures (st.Done? || st.Full?) && buf != [] ==>
        (Covered(View(), ino) <==> EndsCovered(old(View()), ino, offset, |buf|))
      ensures !st.Panic? && Covered(View(), ino) && Sized(old(View()), ino) ==> Sized(View(), ino)
      ensures Balanced(old(View()), View(), ino)
    {
      hide Sound, Counted, AllDense, AllNear, Near, Covered, Wrote, Sized, Breaks, Short, EndsCovered, Stopped, Writing,
        Held,
        Mapped;
      ghost var s := View();
      FileMapped(s, ino);
      FileNear(s, ino);
      if offset >= MAX_FILE_SIZE {
        return Invalid, 0;
      }
      if |buf| == 0 {
        return Done, 0;
      }
      var data := if offset + |buf| > MAX_FILE_SIZE then buf[..MAX_FILE_SIZE - offset] else buf;
      StartsWriting(s, ino, offset, data);
      st, alen := WriteAll(ino, data, offset, s);
      WriteEnds(s, View(), ino, offset, data, alen, st);
      WritingBalanced(s, View(), ino, offset, data, alen);
      Clamped(s, ino, offset, |buf|, |data|);
      assert buf[..alen] == data[..alen];
      if st.Panic? {
        WritingNear(s, View(), ino, offset, data, alen);
      } else {
        Finish(ino, offset, data, alen, s);
      }
    }

    /** The end of sfs_io_nolock: the size grows if the write went past it, or only began past it. */
    method Finish(ino: nat, offset: nat, buf: seq<Byte>, alen: nat, ghost s: Fs)
      requires InTransfer(s, ino, offset, buf, alen) && AllNear(s) && ino in s.inodes && Near(s, ino)
      requires offset / 4096 <= s.inodes[ino].blocks
      modifies this`inodes
      ensures Consistent() && ino in inodes
      ensures Covered(View(), ino) <==> Reaches(s, ino, offset, alen)
      ensures Covered(View(), ino) && Sized(s, ino) ==> Sized(View(), ino)
      ensures Wrote(s, View(), ino, offset, buf[..alen])
      ensures Exhausted(View(), ino, offset + alen) == Exhausted(old(View()), ino, offset + alen)
      ensures Balanced(s, View(), ino)
    {
      hide Sound, AllDense, AllNear, Near, Covered, Wrote, Overlay, Writing, Counted, Sized, Reaches, Balanced;
      WritingKeepsSize(s, View(), ino, offset, buf, alen);
      var size := if offset + alen > inodes[ino].size then offset + alen else inodes[ino].size;
      WritingBalanced(s, View(), ino, offset, buf, alen);
      ResizedBalanced(s, View(), ino, NewSize(s, ino, offset, buf[..alen]));
      ghost var s' := Finished(s, View(), ino, offset, buf, alen);
      assert size == NewSize(s, ino, offset, buf[..alen]);
      SetSize(ino, size, inodes[ino].blocks, s');
    }

    /**
      The invariant of reading: `data` is what the file holds from `offset` on, and nothing has changed, except that
      the file has got a zeroed block if the reading has come to a block it did not have.
    */
    ghost predicate InReading(s: Fs, ino: nat, offset: nat, data: seq<Byte>)
      reads this, freemap.words
    {
      Valid() && AllDense(View()) && Reading(s, View(), ino, offset, data)
    }

    /** sfs_bmap_load_nolock followed by sfs_rbuf or sfs_rblock. */
    method ReadPiece(ino: nat, offset: nat, got: seq<Byte>, index: nat, at: nat, size: nat, ghost s: Fs)
      returns (st: Status, data: seq<Byte>)
      requires InReading(s, ino, offset, got) && offset + |got| == index * 4096 + at && at + size <= BLKSIZE && 0 < size
      requires ino in s.inodes && offset + |got| + size <= s.inodes[ino].size
      modifies this, freemap.words
      ensures st.Done? ==> InReading(s, ino, offset, data) && |data| == |got| + size
      ensures !st.Done? ==>
        Valid() && AllDense(View()) && data == got && ReadStops(s, View(), ino, offset, data, st)
    {
      hide AllDense, Contents, Reading, ReadStops, Loads, BlockOf;
      ghost var s1 := View();
      ReadingMapped(s, s1, ino, offset, got);
      PieceInFile(s, s1, ino, offset, got, index, at, size);
      var r := BmapLoad(ino, index);
      if !r.Ok? {
        ReadFails(s, s1, View(), ino, offset, got, index, at, r);
        return if r.NoSpace? then Full else Panic, got;
      }
      BlockThere(s1, View(), ino, index, r.block);
      st, data := Done, got + disk[r.block][at..at + size];
      PieceRead(s, s1, View(), ino, offset, got, index, at, size, r.block);
    }

    method ReadWhole(ino: nat, offset: nat, got: seq<Byte>, first: nat, count: nat, ghost s: Fs)
      returns (st: Status, data: seq<Byte>)
      requires InReading(s, ino, offset, got) && offset + |got| == first * 4096
      requires ino in s.inodes && offset + |got| + count * 4096 <= s.inodes[ino].size
      modifies this, freemap.words
      ensures st.Done? ==> InReading(s, ino, offset, data) && |data| == |got| + count * 4096
      ensures !st.Done? ==>
        Valid() && AllDense(View()) && |data| < |got| + count * 4096 && ReadStops(s, View(), ino, offset, data, st)
    {
      hide *;
      var blkno: nat, nblks: nat := first, count;
      st, data := Done, got;
      while nblks != 0
        invariant InReading(s, ino, offset, data) && offset + |data| == blkno * 4096 && st == Done
        invariant |data| + nblks * 4096 == |got| + count * 4096
        decreases nblks
      {
        OneBlockLess(nblks);
        st, data := ReadPiece(ino, offset, data, blkno, 0, BLKSIZE, s);
        if !st.Done? { return; }
        blkno, nblks := blkno + 1, nblks - 1;
      }
    }

    method ReadRest(ino: nat, offset: nat, got: seq<Byte>, blkno: nat, endpos: nat, ghost s: Fs)
      returns (st: Status, data: seq<Byte>)
      requires InReading(s, ino, offset, got) && ino in s.inodes
      requires offset + |got| == blkno * 4096 <= endpos <= s.inodes[ino].size
      modifies this, freemap.words
      ensures st.Done? ==> InReading(s, ino, offset, data) && offset + |data| == endpos
      ensures !st.Done? ==>
        Valid() && AllDense(View()) && offset + |data| < endpos && ReadStops(s, View(), ino, offset, data, st)
    {
      hide *;
      var last, size := endpos / 4096, endpos % 4096;
      LastPiece(blkno, endpos);
      st, data := ReadWhole(ino, offset, got, blkno, last - blkno, s);
      if st.Done? && size != 0 {
        st, data := ReadPiece(ino, offset, data, last, 0, size, s);
      }
    }

    method ReadUpTo(ino: nat, offset: nat, endpos: nat, ghost s: Fs) returns (st: Status, data: seq<Byte>)
      requires InReading(s, ino, offset, []) && ino in s.inodes && offset < endpos <= s.inodes[ino].size
      modifies this, freemap.words
      ensures st.Done? ==> InReading(s, ino, offset, data) && offset + |data| == endpos
      ensures !st.Done? ==>
        Valid() && AllDense(View()) && offset + |data| < endpos && ReadStops(s, View(), ino, offset, data, st)
    {
      hide *;
      var blkno, blkoff := offset / 4096, offset % 4096;
      FirstPiece(offset, endpos);
      var nblks := endpos / 4096 - blkno;
      if blkoff == 0 {
        st, data := ReadRest(ino, offset, [], blkno, endpos, s);
      } else {
        var size := if nblks != 0 then BLKSIZE - blkoff else endpos - offset;
        st, data := ReadPiece(ino, offset, [], blkno, blkoff, size, s);
        if st.Done? && nblks != 0 {
          st, data := ReadRest(ino, offset, data, blkno + 1, endpos, s);
        }
      }
    }

    /**
      sfs_io_nolock for reading: the bytes of the file from `offset` on, up to `len` of them.  It panics exactly if
      they go on beyond what the block map reaches.  If they go on behind the last block, reading appends a zeroed
      block, or runs out of space; otherwise it changes nothing.  The contents of all files stay in any case.
    */
    method Read(ino: nat, offset: nat, len: nat) returns (st: Status, data: seq<Byte>)
      requires Consistent() && ino in inodes
      modifies this, freemap.words
      ensures Consistent() && Reads(old(View()), View(), ino, offset, len, st, data)
    {
      hide Sound, Counted, AllDense, AllNear, Near, Mapped, IsDisk, Overlay, Reading, ReadStops, Reads;
      ghost var s := View();
      FileMapped(s, ino);
      FileNear(s, ino);
      StartsReading(s, ino, offset);
      if offset >= MAX_FILE_SIZE {
        NothingRead(s, ino, offset, len, Invalid);
        return Invalid, [];
      }
      if len == 0 {
        NothingRead(s, ino, offset, len, Done);
        return Done, [];
      }
      var endpos := if offset + len > MAX_FILE_SIZE then MAX_FILE_SIZE else offset + len;
      if offset >= inodes[ino].size {
        NothingRead(s, ino, offset, len, Done);
        return Done, [];
      }
      if endpos > inodes[ino].size {
        endpos := inodes[ino].size;
      }
      st, data := ReadUpTo(ino, offset, endpos, s);
      ReadEnds(s, View(), ino, offset, len, endpos, st, data);
    }

    /** Growing in sfs_truncfile: zeroed blocks are appended until there are `tblks`, or no more can be. */
    method Enlarge(ino: nat, tblks: nat, ghost s: Fs) returns (st: Status)
      requires s == View() && Sound(s, {}) && Counted() && AllDense(s) && ino in inodes && Mapped(s, ino)
      requires inodes[ino].blocks <= tblks
      modifies this, freemap.words
      ensures Valid() && AllDense(View()) && Enlarged(s, View(), ino, tblks, st)
    {
      hide Sound, Counted, AllDense, Enlarging, Enlarged, Loads, BlockOf;
      FileMapped(s, ino);
      StartsEnlarging(s, ino, tblks);
      while inodes[ino].blocks != tblks
        invariant Valid() && AllDense(View()) && Enlarging(s, View(), ino, tblks)
        invariant ino in inodes && inodes[ino].blocks <= tblks
        decreases tblks - inodes[ino].blocks
      {
        ghost var s1 := View();
        FileMapped(s1, ino);
        var r := BmapLoad(ino, inodes[ino].blocks);
        OneMore(s, s1, View(), ino, tblks, r);
        if !r.Ok? {
          return if r.NoSpace? then Full else Panic;
        }
      }
      EndsEnlarging(s, View(), ino, tblks);
      st := Done;
    }

    /** Shrinking in sfs_truncfile. */
    method Reduce(ino: nat, tblks: nat, ghost s: Fs)
      requires s == View() && Sound(s, {}) && Counted() && AllDense(s) && ino in inodes && Mapped(s, ino)
      requires tblks <= inodes[ino].blocks
      modifies this, freemap.words
      ensures Valid() && AllDense(View()) && Cut(s, View(), ino) && ino in inodes && inodes[ino].blocks == tblks
      ensures Balanced(s, View(), ino)
    {
      hide Sound, Counted, AllDense, Dropped, Balanced, Cut;
      FileMapped(s, ino);
      NothingCut(s, ino);
      NothingMoved(s, ino);
      while inodes[ino].blocks != tblks
        invariant Valid() && AllDense(View()) && Cut(s, View(), ino) && ino in inodes && tblks <= inodes[ino].blocks
        invariant Balanced(s, View(), ino) && inodes[ino].blocks <= s.inodes[ino].blocks
        decreases inodes[ino].blocks
      {
        ghost var s1 := View();
        FileMapped(s1, ino);
        BmapTruncate(ino, s1);
        DroppedCuts(s1, View(), ino);
        CutTwice(s, s1, View(), ino);
        DroppedBalanced(s, s1, View(), ino);
      }
    }

    /**
      sfs_truncfile.  It panics exactly if it is asked for the size the file has while the file has not the blocks
      that takes, which is what a growth or a write on a full disk leaves behind, or if it grows the file beyond
      what the block map reaches.
    */
    method Truncfile(ino: nat, len: nat) returns (st: Status)
      requires Consistent() && ino in inodes
      modifies this, freemap.words
      ensures Consistent() && ino in inodes
      ensures st.Invalid? <==> len > MAX_FILE_SIZE
      ensures st.Panic? <==>
        && len <= MAX_FILE_SIZE
        && if len == old(inodes[ino].size) then !Sized(old(View()), ino)
          else Overgrows(old(View()), ino, BlocksFor(len))
      ensures st.Invalid? || len == old(inodes[ino].size) ==> View() == old(View())
      ensures st.Done? ==> Sized(View(), ino) && Truncated(old(View()), View(), ino, len)
      ensures st.Full? ==> Enlarged(old(View()), View(), ino, BlocksFor(len), Full)
      ensures Balanced(old(View()), View(), ino)
      ensures st.Full? <==>
        len <= MAX_FILE_SIZE && len != old(inodes[ino].size) && Starves(old(View()), ino, BlocksFor(len))
    {
      ghost var s := View();
      FileMapped(s, ino);
      if len > MAX_FILE_SIZE {
        return Invalid;
      }
      var tblks := BlocksFor(len);
      if inodes[ino].size == len {
        if tblks != inodes[ino].blocks {
          return Panic;
        }
        Unchanged(s, ino);
        return Done;
      }
      st := Resize(ino, tblks, s);
      if st.Done? {
        assert inodes[ino].blocks == tblks;
        SettleSize(ino, len, s);
      }
    }

    /**
      sfs_tryseek: a seek beyond the end grows the file first, so right after it the position lies in the file.
      It can lie behind the end later, since another open file may cut the same file.
    */
    method TrySeek(ino: nat, pos: nat) returns (st: Status)
      requires Consistent() && ino in inodes
      modifies this, freemap.words
      ensures Consistent() && ino in inodes
      ensures st.Invalid? <==> pos >= MAX_FILE_SIZE
      ensures st.Panic? <==>
        old(inodes[ino].size) < pos < MAX_FILE_SIZE && Overgrows(old(View()), ino, BlocksFor(pos))
      ensures st.Done? ==> pos <= inodes[ino].size
      ensures st.Done? && pos > old(inodes[ino].size) ==> Truncated(old(View()), View(), ino, pos)
      ensures st.Invalid? || pos <= old(inodes[ino].size) ==> View() == old(View())
      ensures st.Full? <==> old(inodes[ino].size) < pos < MAX_FILE_SIZE && Starves(old(View()), ino, BlocksFor(pos))
      ensures Balanced(old(View()), View(), ino)
    {
      hide Sound, AllDense, AllNear, Truncated, Enlarged, Overgrows, Starves, Balanced;
      FileMapped(View(), ino);
      NothingMoved(View(), ino);
      if pos >= MAX_FILE_SIZE {
        return Invalid;
      }
      st := Done;
      if pos > inodes[ino].size {
        st := Truncfile(ino, pos);
        TruncatedSize(old(View()), View(), ino, pos);
      }
    }

    /** The two loops of sfs_truncfile. */
    method Resize(ino: nat, tblks: nat, ghost s: Fs) returns (st: Status)
      requires s == View() && Consistent() && ino in inodes && Mapped(s, ino)
      modifies this, freemap.words
      ensures Valid() && AllDense(View()) && ino in inodes && (st.Done? ==> inodes[ino].blocks == tblks)
      ensures st.Done? ==> Cut(s, View(), ino) || Overlay(s, View(), ino, 0, [])
      ensures Balanced(s, View(), ino)
      ensures !st.Done? ==> Consistent() && Enlarged(s, View(), ino, tblks, st)
      ensures !st.Invalid? && (st.Panic? <==> Overgrows(s, ino, tblks)) && (st.Full? <==> Starves(s, ino, tblks))
    {
      if inodes[ino].blocks <= tblks {
        st := Enlarge(ino, tblks, s);
        if !st.Done? { GrownNear(s, View(), ino); }
      } else {
        Reduce(ino, tblks, s);
        st := Done;
      }
    }

    method SettleSize(ino: nat, len: nat, ghost s: Fs)
      requires Valid() && AllDense(View()) && ino in inodes && inodes[ino].blocks == BlocksFor(len)
      requires IsDisk(s.disk) && ino in s.inodes && Mapped(s, ino) && AllNear(s)
      requires (Cut(s, View(), ino) || Overlay(s, View(), ino, 0, [])) && Balanced(s, View(), ino)
      modifies this`inodes
      ensures Balanced(s, View(), ino)
      ensures Consistent() && ino in inodes && Sized(View(), ino) && Truncated(s, View(), ino, len)
    {
      hide Balanced, Cut, Overlay, Truncated, Sound, AllDense, AllNear, Counted;
      ResizedBalanced(s, View(), ino, len);
      ghost var s' := TruncatedState(s, View(), ino, len);
      SetSize(ino, len, inodes[ino].blocks, s');
    }

    /** The size fields of an inode take new values. */
    method SetSize(ino: nat, size: nat, blocks: nat, ghost s': Fs)
      requires Counted() && ino in inodes && s' == Resized(View(), ino, size, blocks)
      modifies this`inodes
      ensures Counted() && View() == s'
    {
      inodes := inodes[ino := inodes[ino].(size := size, blocks := blocks)];
    }
  }

  lemma DirectFreed(s: Fs, ino: nat, i: nat, c: nat) returns (s': Fs)
    requires Sound(s, {}) && ino in s.inodes && i < NDIRECT && Mapped(s, ino) && s.inodes[ino].direct[i] == c != 0
    ensures s' == Release(UnlinkDirect(s, ino, i, c), c) && Sound(s', {}) && Shrunk(s, s', ino, i) && 0 < c < |s.disk|
    ensures c !in s.free
  {
    assert Recorded(s, ino) && RecordedAt(s, ino, i);
    ShrunkDirect(s, ino, i, c);
    s' := Release(UnlinkDirect(s, ino, i, c), c);
  }

  lemma EntryFreed(s: Fs, ino: nat, i: nat, c: nat) returns (s': Fs)
    requires Sound(s, {}) && ino in s.inodes && NDIRECT <= i < NBLOCKS && Mapped(s, ino)
    requires BlockOf(s.inodes[ino], s.disk, i) == c != 0
    ensures s' == Release(UnlinkEntry(s, ino, i, c), c) && Sound(s', {}) && Shrunk(s, s', ino, i) && 0 < c < |s.disk|
    ensures c !in s.free
  {
    assert Recorded(s, ino) && RecordedAt(s, ino, i);
    ShrunkEntry(s, ino, i, c);
    s' := Release(UnlinkEntry(s, ino, i, c), c);
  }

  /** The first `alen` bytes of `buf` have been written at `offset`; the file has just the blocks that takes. */
  ghost predicate Writing(s: Fs, s': Fs, ino: nat, offset: nat, buf: seq<Byte>, alen: nat) {
    && IsDisk(s.disk) && ino in s.inodes && Mapped(s, ino) && alen <= |buf|
    && Overlay(s, s', ino, offset, buf[..alen])
    && s'.inodes[ino].blocks == Extent(s, ino, offset, alen)
    && (alen > 0 ==> offset / 4096 <= s.inodes[ino].blocks && offset + alen <= 1036 * 4096)
    && Charged(s, s', ino)
  }

  /** How many blocks the file has after `alen` bytes have been written at `offset`. */
  ghost function Extent(s: Fs, ino: nat, offset: nat, alen: nat): nat
    requires ino in s.inodes
  {
    if alen == 0 then s.inodes[ino].blocks else Max(s.inodes[ino].blocks, BlocksFor(offset + alen))
  }

  /** There are too few free blocks for file `ino` to reach to `end`. */
  ghost predicate TooFew(s: Fs, ino: nat, end: nat)
    requires ino in s.inodes
  {
    |s.free| < Cost(s, ino, BlocksFor(end))
  }

  /** How far a transfer to `end` can get at most. */
  function Limit(end: nat): nat {
    if end < 1036 * 4096 then end else 1036 * 4096
  }

  /** Nothing has been written yet, and the first block to write is not even the next one of the file. */
  ghost predicate Misses(s: Fs, ino: nat, offset: nat, alen: nat) {
    ino in s.inodes && alen == 0 && offset / 4096 > s.inodes[ino].blocks
  }

  /** Why a transfer of `buf` stopped after `alen` bytes. */
  ghost predicate Stopped(s: Fs, s': Fs, ino: nat, offset: nat, buf: seq<Byte>, alen: nat, st: Status) {
    && ino in s.inodes && (st.Full? || st.Panic?)
    && (st.Full? ==> !Misses(s, ino, offset, alen) && TooFew(s, ino, Limit(offset + |buf|)))
    && (st.Full? ==> alen < |buf| && Exhausted(s', ino, offset + alen))
    && (st.Panic? ==> alen < |buf| && (Misses(s, ino, offset, alen) || (offset + alen) / 4096 >= NBLOCKS))
  }

  /** The byte at `end` lies in the block after the last, and there is no room for that block. */
  ghost predicate Exhausted(s: Fs, ino: nat, end: nat) {
    ino in s.inodes && end / 4096 == s.inodes[ino].blocks && |s.free| < Needs(s, ino, end / 4096)
  }

  /** A write of `len` bytes at `offset` panics. */
  ghost predicate Breaks(s: Fs, ino: nat, offset: nat, len: nat)
    requires ino in s.inodes
  {
    offset / 4096 > s.inodes[ino].blocks || (offset + len > 1036 * 4096 && !TooFew(s, ino, 1036 * 4096))
  }

  /** A write of `len` bytes at `offset` runs out of space. */
  ghost predicate Short(s: Fs, ino: nat, offset: nat, len: nat)
    requires ino in s.inodes
  {
    offset / 4096 <= s.inodes[ino].blocks && TooFew(s, ino, Limit(offset + len))
  }

  /**
    After the write all bytes of the file lie in its blocks: it gets the block after the last, or does not need it
    because neither the old size nor the start of the write lies there.
  */
  ghost predicate EndsCovered(s: Fs, ino: nat, offset: nat, len: nat)
    requires ino in s.inodes
  {
    var n := s.inodes[ino].blocks;
    if offset + len <= n * 4096 then Covered(s, ino)
    else |s.free| >= Needs(s, ino, n) || (Covered(s, ino) && offset <= n * 4096)
  }

  /** The blocks reach to the size that the file has after `alen` bytes were written. */
  ghost predicate Reaches(s: Fs, ino: nat, offset: nat, alen: nat)
    requires ino in s.inodes
  {
    BlocksFor(offset + alen) <= Extent(s, ino, offset, alen)
    && BlocksFor(s.inodes[ino].size) <= Extent(s, ino, offset, alen)
  }

  lemma OutOfMap(s: Fs, s1: Fs, ino: nat, offset: nat, buf: seq<Byte>, alen: nat, index: nat)
    requires Writing(s, s1, ino, offset, buf, alen) && index == (offset + alen) / 4096 && alen < |buf|
    requires ino in s1.inodes && (index > s1.inodes[ino].blocks || index >= NBLOCKS)
    ensures Stopped(s, s1, ino, offset, buf, alen, Panic) && (Misses(s, ino, offset, alen) || index >= NBLOCKS)
  {
    if alen > 0 { Enough(offset + alen); }
  }

  lemma Enough(n: nat)
    ensures n / 4096 <= BlocksFor(n)
  {
  }

  /** How a transfer that stopped as it did ends the write. */
  lemma WriteEnds(s: Fs, s': Fs, ino: nat, offset: nat, buf: seq<Byte>, alen: nat, st: Status)
    requires Writing(s, s', ino, offset, buf, alen) && (st.Done? || Stopped(s, s', ino, offset, buf, alen, st))
    requires buf != [] && (st.Done? <==> alen == |buf|) && Near(s, ino)
    ensures !st.Invalid? && ino in s'.inodes && (st.Panic? <==> Breaks(s, ino, offset, |buf|))
    ensures st.Done? ==> offset + |buf| <= 1036 * 4096
    ensures st.Full? ==> alen < |buf| && Exhausted(s', ino, offset + alen)
    ensures st.Full? <==> Short(s, ino, offset, |buf|)
    ensures !st.Panic? ==> offset / 4096 <= s.inodes[ino].blocks
    ensures !st.Panic? ==> (Reaches(s, ino, offset, alen) <==> EndsCovered(s, ino, offset, |buf|))
  {
    hide Mapped;
    assert s'.inodes[ino].blocks == Extent(s, ino, offset, alen);
  }

  /** What lies behind the largest file size is not reached anyway. */
  lemma Clamped(s: Fs, ino: nat, offset: nat, n: nat, m: nat)
    requires ino in s.inodes && (n == m || (offset + n >= MAX_FILE_SIZE && offset + m >= MAX_FILE_SIZE))
    ensures Breaks(s, ino, offset, n) == Breaks(s, ino, offset, m)
    ensures Short(s, ino, offset, n) == Short(s, ino, offset, m)
    ensures !Breaks(s, ino, offset, n) ==> EndsCovered(s, ino, offset, n) == EndsCovered(s, ino, offset, m)
  {
  }

  /** The disk blocks that the block map of a file reaches. */
  ghost function Held(s: Fs, ino: nat): nat
    requires ino in s.inodes
  {
    (if s.inodes[ino].blocks < NBLOCKS then s.inodes[ino].blocks else NBLOCKS)
      + if s.inodes[ino].indirect == 0 then 0 else 1
  }

  /**
    What file `ino` gained came from the free blocks, and what it lost went there.  It has got an indirect block
    exactly if it grew beyond the direct ones, and never loses it.
  */
  ghost predicate Balanced(s: Fs, s': Fs, ino: nat) {
    && ino in s.inodes && ino in s'.inodes && |s.free| + Held(s, ino) == |s'.free| + Held(s', ino)
    && (s'.inodes[ino].indirect == 0 <==>
      s.inodes[ino].indirect == 0
        && (s'.inodes[ino].blocks <= NDIRECT || s'.inodes[ino].blocks <= s.inodes[ino].blocks))
  }

  lemma ChargedBalanced(s: Fs, s': Fs, ino: nat)
    requires ino in s.inodes && ino in s'.inodes && Charged(s, s', ino) && s.inodes[ino].blocks <= s'.inodes[ino].blocks
    requires s'.inodes[ino].blocks == s.inodes[ino].blocks || s'.inodes[ino].blocks <= NBLOCKS
    ensures Balanced(s, s', ino)
  {
  }

  lemma WritingBalanced(s: Fs, s': Fs, ino: nat, offset: nat, buf: seq<Byte>, alen: nat)
    requires Writing(s, s', ino, offset, buf, alen)
    ensures Balanced(s, s', ino)
  {
    hide Overlay, Charged, Held;
    OverlayGrows(s, s', ino, offset, buf[..alen]);
    ChargedBalanced(s, s', ino);
  }

  lemma OverlayGrows(s: Fs, s': Fs, ino: nat, off: nat, data: seq<Byte>)
    requires IsDisk(s.disk) && ino in s.inodes && Mapped(s, ino) && Overlay(s, s', ino, off, data)
    ensures ino in s'.inodes && s.inodes[ino].blocks <= s'.inodes[ino].blocks
  {
  }

  lemma ResizedBalanced(s: Fs, s1: Fs, ino: nat, size: nat)
    requires Balanced(s, s1, ino)
    ensures Balanced(s, Resized(s1, ino, size, s1.inodes[ino].blocks), ino)
  {
  }

  lemma WritingNear(s: Fs, s': Fs, ino: nat, offset: nat, buf: seq<Byte>, alen: nat)
    requires Writing(s, s', ino, offset, buf, alen) && AllNear(s)
    ensures AllNear(s')
  {
    assert Near(s, ino);
    StillNear(s, s', ino);
  }

  lemma WritingKeepsSize(s: Fs, s': Fs, ino: nat, offset: nat, buf: seq<Byte>, alen: nat)
    requires Writing(s, s', ino, offset, buf, alen)
    ensures alen <= |buf| && ino in s.inodes && ino in s'.inodes && s'.inodes[ino].size == s.inodes[ino].size
  {
  }

  function Max(a: nat, b: nat): nat {
    if a < b then b else a
  }

  lemma FirstPiece(offset: nat, endpos: nat)
    requires offset < endpos
    ensures var blkno, blkoff := offset / 4096, offset % 4096;
      && offset == blkno * 4096 + blkoff && 0 <= blkoff < BLKSIZE && blkno <= endpos / 4096
      && (endpos / 4096 == blkno ==> blkoff + endpos - offset <= BLKSIZE)
      && (endpos / 4096 != blkno ==> offset + BLKSIZE - blkoff == (blkno + 1) * 4096 <= endpos)
      && (endpos <= 1036 * 4096 ==> blkno < NBLOCKS)
  {
  }

  lemma LastPiece(blkno: nat, endpos: nat)
    requires blkno * 4096 <= endpos
    ensures var last, size := endpos / 4096, endpos % 4096;
      && blkno <= last && 0 <= size < BLKSIZE && endpos == last * 4096 + size
      && blkno * 4096 + (last - blkno) * 4096 + size == endpos
      && (endpos <= 1036 * 4096 ==> last <= NBLOCKS && (size != 0 ==> last < NBLOCKS))
  {
  }

  lemma OneBlockLess(n: nat)
    requires n > 0
    ensures n * 4096 == (n - 1) * 4096 + BLKSIZE && (n - 1) * 4096 >= 0
  {
  }

  lemma Reached(index: nat, at: nat)
    requires at < BLKSIZE
    ensures BlocksFor(index * 4096 + at) == if at == 0 then index else index + 1
  {
  }

  lemma PieceWritten(s: Fs, s1: Fs, s2: Fs, ino: nat, offset: nat, buf: seq<Byte>, alen: nat, index: nat, at: nat,
                     size: nat, r: Result)
    requires Writing(s, s1, ino, offset, buf, alen) && ino in s1.inodes && Mapped(s1, ino)
    requires offset + alen == index * 4096 + at && 0 < size && at + size <= BLKSIZE && alen + size <= |buf|
    requires index <= s1.inodes[ino].blocks && Chunked(s1, s2, ino, index, at, buf[alen..alen + size], r)
    requires index < NBLOCKS && !r.OutOfRange?
    ensures Writing(s, s2, ino, offset, buf, if r.Ok? then alen + size else alen)
    ensures r.NoSpace? ==> Stopped(s, s2, ino, offset, buf, alen, Full)
    ensures !Misses(s, ino, offset, alen)
  {
    PieceCharged(s, s1, s2, ino, index, at, size, r, Limit(offset + |buf|));
    PieceStops(s, s1, s2, ino, offset, buf, alen, index, at, r);
    hide Stopped, Misses, Exhausted;
    hide Cost, TooFew, Charged, Spent, Extent, BlocksFor;
    var chunk := if r.Ok? then buf[alen..alen + size] else [];
    OverlayTwice(s, s1, s2, ino, offset, buf[..alen], chunk);
    assert buf[..alen] + chunk == buf[..if r.Ok? then alen + size else alen];
    if r.Ok? { PieceExtent(s, s1.inodes[ino].blocks, ino, offset, alen, index, at, size); }
  }

  lemma PieceExtent(s: Fs, n: nat, ino: nat, offset: nat, alen: nat, index: nat, at: nat, size: nat)
    requires ino in s.inodes && n == Extent(s, ino, offset, alen) && offset / 4096 <= s.inodes[ino].blocks
    requires offset + alen == index * 4096 + at && 0 < size && at + size <= BLKSIZE && index <= n && index < NBLOCKS
    ensures (if index == n then index + 1 else n) == Extent(s, ino, offset, alen + size)
    ensures offset + alen + size <= 1036 * 4096
  {
    Reached(index, at);
    if at + size < BLKSIZE { Reached(index, at + size); } else { Reached(index + 1, 0); }
  }

  lemma PieceStops(s: Fs, s1: Fs, s2: Fs, ino: nat, offset: nat, buf: seq<Byte>, alen: nat, index: nat, at: nat,
                   r: Result)
    requires Writing(s, s1, ino, offset, buf, alen) && ino in s1.inodes && index <= s1.inodes[ino].blocks
    requires offset + alen == index * 4096 + at && at < BLKSIZE && alen < |buf|
    requires ino in s2.inodes && (r.NoSpace? ==> s2.free == s1.free && s2.inodes[ino].blocks == s1.inodes[ino].blocks)
    requires r.NoSpace? ==> s2.inodes[ino].indirect == s1.inodes[ino].indirect
    requires r.NoSpace? ==> index == s1.inodes[ino].blocks && |s1.free| < Needs(s1, ino, index)
    requires r.NoSpace? ==> TooFew(s, ino, Limit(offset + |buf|))
    ensures offset / 4096 <= s.inodes[ino].blocks && !Misses(s, ino, offset, alen)
    ensures r.NoSpace? ==> Stopped(s, s2, ino, offset, buf, alen, Full)
  {
    hide Overlay, Mapped;
    Located(index, at, 0);
  }

  lemma PieceCharged(s: Fs, s1: Fs, s2: Fs, ino: nat, index: nat, at: nat, size: nat, r: Result, end: nat)
    requires ino in s.inodes && ino in s1.inodes && ino in s2.inodes && Charged(s, s1, ino)
    requires s.inodes[ino].blocks <= s1.inodes[ino].blocks && index <= s1.inodes[ino].blocks
    requires s2.inodes[ino].blocks == if r.Ok? && index == s1.inodes[ino].blocks then index + 1
      else s1.inodes[ino].blocks
    requires if s2.inodes[ino].blocks == s1.inodes[ino].blocks
             then s2.free == s1.free && s2.inodes[ino].indirect == s1.inodes[ino].indirect
             else Spent(s1, s2, ino, index)
    requires r.NoSpace? ==> index == s1.inodes[ino].blocks && |s1.free| < Needs(s1, ino, index)
    requires 0 < size && at + size <= BLKSIZE && index * 4096 + at + size <= end
    ensures Charged(s, s2, ino) && (r.NoSpace? ==> TooFew(s, ino, end))
  {
    assert BlocksFor(end) >= index + 1 by {
      Reached(index, 1);
      MoreBlocks(index * 4096 + 1, end);
    }
  }

  /**
    File `ino` has `data` at `off`.  Its other bytes are those its blocks held before, also where they lay behind
    the old size, and zeros where it had no block.  So up to the old size `data` is spliced into the contents.
    Every other file is untouched.
  */
  ghost predicate Wrote(s: Fs, s': Fs, ino: nat, off: nat, data: seq<Byte>)
    requires IsDisk(s.disk) && ino in s.inodes && Mapped(s, ino)
  {
    && IsDisk(s'.disk) && OthersSame(s, s', ino) && Mapped(s', ino)
    && s'.inodes[ino].size == NewSize(s, ino, off, data) && s'.inodes[ino].blocks == Extent(s, ino, off, |data|)
    && (forall p: nat :: LaidAt(s, s', ino, off, data, p))
    && (off <= s.inodes[ino].size ==> Contents(s', ino) == Spliced(Contents(s, ino), off, data))
  }

  lemma StartsWriting(s: Fs, ino: nat, offset: nat, buf: seq<Byte>)
    requires Sound(s, {}) && AllDense(s) && ino in s.inodes && Mapped(s, ino)
    ensures Writing(s, s, ino, offset, buf, 0)
  {
    NothingLaid(s, ino, offset);
    assert buf[..0] == [];
  }

  lemma MoreBlocks(a: nat, b: nat)
    requires a <= b
    ensures BlocksFor(a) <= BlocksFor(b)
  {
  }

  lemma Finished(s: Fs, s1: Fs, ino: nat, offset: nat, buf: seq<Byte>, alen: nat) returns (s': Fs)
    requires Sound(s1, {}) && AllDense(s1) && Writing(s, s1, ino, offset, buf, alen)
    requires AllNear(s) && Near(s, ino) && offset / 4096 <= s.inodes[ino].blocks
    ensures s' == Resized(s1, ino, NewSize(s, ino, offset, buf[..alen]), s1.inodes[ino].blocks)
    ensures Sound(s', {}) && AllDense(s') && AllNear(s') && ino in s'.inodes
    ensures Covered(s', ino) <==> Reaches(s, ino, offset, alen)
    ensures Covered(s', ino) && Sized(s, ino) ==> Sized(s', ino)
    ensures Wrote(s, s', ino, offset, buf[..alen])
  {
    var n := NewSize(s, ino, offset, buf[..alen]);
    assert |buf[..alen]| == alen;
    MoreBlocks(s.inodes[ino].size, n);
    MoreBlocks(offset + alen, n);
    s' := Resized(s1, ino, n, s1.inodes[ino].blocks);
    assert Mapped(s1, ino);
    ResizedSound(s1, ino, n, s1.inodes[ino].blocks);
    ResizedDense(s1, ino, n);
    ResizedOthers(s, s1, ino, n, s1.inodes[ino].blocks);
    forall p: nat ensures LaidAt(s, s', ino, offset, buf[..alen], p) {
      ResizedLays(s, s1, ino, offset, buf[..alen], n, p);
    }
    if offset <= s.inodes[ino].size {
      SplicedContents(s, s1, ino, offset, buf[..alen]);
    }
    AtMostOneMore(offset, s.inodes[ino].blocks);
    StillNear(s, s', ino);
  }

  lemma AtMostOneMore(offset: nat, n: nat)
    requires offset / 4096 <= n
    ensures BlocksFor(offset) <= n + 1
  {
  }

  lemma NothingMoved(s: Fs, ino: nat)
    requires ino in s.inodes
    ensures Balanced(s, s, ino)
  {
  }

  /** The block that was dropped is free, unless the block map did not reach it. */
  lemma DroppedBalanced(s: Fs, s1: Fs, s2: Fs, ino: nat)
    requires Sound(s1, {}) && AllDense(s1) && ino in s1.inodes && s1.inodes[ino].blocks > 0 && Dropped(s1, s2, ino)
    requires Balanced(s, s1, ino) && s1.inodes[ino].blocks <= s.inodes[ino].blocks
    ensures Balanced(s, s2, ino) && ino in s2.inodes && s2.inodes[ino].blocks == s1.inodes[ino].blocks - 1
  {
    hide Sound, AllDense, BlockOf;
    var n := s1.inodes[ino].blocks - 1;
    if n < NBLOCKS {
      LastBlock(s1, ino);
      LastInUse(s1, ino, n);
    }
  }

  lemma LastInUse(s: Fs, ino: nat, i: nat)
    requires Sound(s, {}) && ino in s.inodes && Mapped(s, ino) && i < NBLOCKS && BlockOf(s.inodes[ino], s.disk, i) != 0
    ensures BlockOf(s.inodes[ino], s.disk, i) !in s.free
  {
    assert Recorded(s, ino) && RecordedAt(s, ino, i);
  }

  lemma LastBlock(s: Fs, ino: nat)
    requires Sound(s, {}) && AllDense(s) && ino in s.inodes && s.inodes[ino].blocks != 0
    ensures Mapped(s, ino)
    ensures s.inodes[ino].blocks <= NBLOCKS ==> BlockOf(s.inodes[ino], s.disk, s.inodes[ino].blocks - 1) != 0
  {
    assert Mapped(s, ino) && Dense(s, ino);
    if s.inodes[ino].blocks <= NBLOCKS { assert DenseAt(s, ino, s.inodes[ino].blocks - 1); }
  }

  lemma FileMapped(s: Fs, ino: nat)
    requires Sound(s, {}) && ino in s.inodes
    ensures IsDisk(s.disk) && Mapped(s, ino)
  {
  }

  lemma FileNear(s: Fs, ino: nat)
    requires AllNear(s) && ino in s.inodes
    ensures Near(s, ino)
  {
  }

  /** Blocks added at the end leave all bytes as near as they were. */
  lemma GrownNear(s: Fs, s': Fs, ino: nat)
    requires IsDisk(s.disk) && ino in s.inodes && Mapped(s, ino) && AllNear(s) && Overlay(s, s', ino, 0, [])
    ensures ino in s'.inodes && AllNear(s') && (Covered(s, ino) ==> Covered(s', ino))
  {
    assert Near(s, ino);
    StillNear(s, s', ino);
  }

  lemma ContentsSize(s: Fs, ino: nat)
    requires IsDisk(s.disk) && ino in s.inodes && Mapped(s, ino)
    ensures |Contents(s, ino)| == s.inodes[ino].size
  {
  }

  /** `data` has been read from `offset` on; the file has the blocks that takes, a new one being zeroed. */
  ghost predicate Reading(s: Fs, s': Fs, ino: nat, offset: nat, data: seq<Byte>) {
    && IsDisk(s.disk) && ino in s.inodes && Mapped(s, ino) && Near(s, ino)
    && Overlay(s, s', ino, 0, []) && s'.inodes[ino].blocks == Extent(s, ino, offset, |data|)
    && offset + |data| <= s.inodes[ino].size && data == Contents(s, ino)[offset..offset + |data|]
    && (data != [] ==> offset + |data| <= 1036 * 4096)
    && Charged(s, s', ino) && (s'.inodes[ino].blocks == s.inodes[ino].blocks ==> s' == s)
  }

  /** Why reading stopped after `data`: there is no room for a block, or the block map does not reach further. */
  ghost predicate ReadStops(s: Fs, s': Fs, ino: nat, offset: nat, data: seq<Byte>, st: Status) {
    && IsDisk(s.disk) && ino in s.inodes && Mapped(s, ino) && Overlay(s, s', ino, 0, []) && (st.Full? || st.Panic?)
    && s'.inodes[ino].blocks == s.inodes[ino].blocks && Charged(s, s', ino)
    && offset + |data| <= s.inodes[ino].size && data == Contents(s, ino)[offset..offset + |data|]
    && (st.Full? ==> Exhausted(s, ino, offset + |data|) && s.inodes[ino].blocks < NBLOCKS)
    && (st.Panic? ==> s' == s && (offset + |data|) / 4096 >= NBLOCKS)
  }

  /** The bytes from `offset` to `end` go on behind the last block, and the block map reaches so far. */
  ghost predicate Lacks(s: Fs, ino: nat, offset: nat, end: nat)
    requires ino in s.inodes
  {
    offset < end <= 1036 * 4096 && end > s.inodes[ino].blocks * 4096
  }

  /** What a read of up to `len` bytes at `offset` returns and changes. */
  ghost predicate Reads(s: Fs, s': Fs, ino: nat, offset: nat, len: nat, st: Status, data: seq<Byte>) {
    && IsDisk(s.disk) && ino in s.inodes && Mapped(s, ino) && Overlay(s, s', ino, 0, [])
    && Contents(s', ino) == Contents(s, ino)
    && var f, n := Contents(s, ino), s.inodes[ino].blocks;
      var end := if offset + len < |f| then offset + len else |f|;
      && (st.Invalid? <==> offset >= MAX_FILE_SIZE)
      && (st.Panic? <==> offset < MAX_FILE_SIZE && offset < end && end > 1036 * 4096)
      && (st.Full? <==> offset < MAX_FILE_SIZE && Lacks(s, ino, offset, end) && |s.free| < Needs(s, ino, n))
      && (st.Done? ==> data == if offset < end then f[offset..end] else [])
      && (st.Full? ==> offset + |data| <= end && data == f[offset..offset + |data|] && (offset + |data|) / 4096 == n)
      && Balanced(s, s', ino)
      && (if st.Done? && Lacks(s, ino, offset, end) then s'.inodes[ino].blocks == n + 1
          else s'.inodes[ino].blocks == n && (st.Full? || s' == s))
  }

  lemma StartsReading(s: Fs, ino: nat, offset: nat)
    requires IsDisk(s.disk) && AllDense(s) && ino in s.inodes && Mapped(s, ino) && Near(s, ino)
    ensures Overlay(s, s, ino, 0, []) && (offset <= s.inodes[ino].size ==> Reading(s, s, ino, offset, []))
  {
    NothingLaid(s, ino, 0);
  }

  lemma ReadingMapped(s: Fs, s1: Fs, ino: nat, offset: nat, data: seq<Byte>)
    requires Reading(s, s1, ino, offset, data)
    ensures IsDisk(s1.disk) && ino in s1.inodes && Mapped(s1, ino)
  {
  }

  /** A piece of the file lies in one of its blocks, or it is the first in the block after the last. */
  lemma PieceInFile(s: Fs, s1: Fs, ino: nat, offset: nat, got: seq<Byte>, index: nat, at: nat, size: nat)
    requires Reading(s, s1, ino, offset, got) && offset + |got| == index * 4096 + at
    requires 0 < size && at + size <= BLKSIZE && offset + |got| + size <= s.inodes[ino].size
    ensures ino in s1.inodes && index <= s.inodes[ino].blocks && index <= s1.inodes[ino].blocks
    ensures index == s1.inodes[ino].blocks ==> s1 == s
  {
    hide Overlay, Contents;
    InFile(index * 4096 + at, s.inodes[ino].size);
    Located(index, at, 0);
    ReadingMapped(s, s1, ino, offset, got);
  }

  lemma ReadFails(s: Fs, s1: Fs, s2: Fs, ino: nat, offset: nat, got: seq<Byte>, index: nat, at: nat, r: Result)
    requires Sound(s1, {}) && AllDense(s1) && Sound(s2, {}) && Reading(s, s1, ino, offset, got)
    requires offset + |got| == index * 4096 + at && at < BLKSIZE && ino in s1.inodes && Mapped(s1, ino) && !r.Ok?
    requires index <= s.inodes[ino].blocks && (index == s1.inodes[ino].blocks ==> s1 == s)
    requires r.OutOfRange? <==> index >= NBLOCKS
    requires if r.OutOfRange? then s2 == s1 else Loads(s1, s2, ino, index, r)
    ensures ReadStops(s, s2, ino, offset, got, if r.NoSpace? then Full else Panic)
  {
    hide Contents, BlockOf, Used, Recorded;
    Located(index, at, 0);
    if r.NoSpace? { RolledBackLays(s, s2, ino, 0); }
  }

  /** The block that was loaded is the one the map has now. */
  lemma BlockThere(s1: Fs, s2: Fs, ino: nat, index: nat, b: nat)
    requires Sound(s1, {}) && AllDense(s1) && Sound(s2, {}) && ino in s1.inodes && Mapped(s1, ino)
    requires index <= s1.inodes[ino].blocks && index < NBLOCKS && Loads(s1, s2, ino, index, Ok(b))
    ensures IsDisk(s2.disk) && ino in s2.inodes && Mapped(s2, ino) && index < s2.inodes[ino].blocks && b < |s2.disk|
    ensures BlockOf(s2.inodes[ino], s2.disk, index) == b
  {
    assert Mapped(s2, ino) && Recorded(s2, ino) && RecordedAt(s2, ino, index);
  }

  lemma PieceRead(s: Fs, s1: Fs, s2: Fs, ino: nat, offset: nat, got: seq<Byte>, index: nat, at: nat, size: nat, b: nat)
    requires Sound(s1, {}) && AllDense(s1) && Reading(s, s1, ino, offset, got) && ino in s1.inodes && Mapped(s1, ino)
    requires offset + |got| == index * 4096 + at && 0 < size && at + size <= BLKSIZE
    requires offset + |got| + size <= s.inodes[ino].size && index <= s.inodes[ino].blocks && index < NBLOCKS
    requires index <= s1.inodes[ino].blocks && (index == s1.inodes[ino].blocks ==> s1 == s)
    requires Loads(s1, s2, ino, index, Ok(b))
    requires IsDisk(s2.disk) && ino in s2.inodes && Mapped(s2, ino) && index < s2.inodes[ino].blocks && b < |s2.disk|
    requires BlockOf(s2.inodes[ino], s2.disk, index) == b
    ensures Reading(s, s2, ino, offset, got + s2.disk[b][at..at + size])
  {
    hide BlockOf, Used, Recorded, AllDense, Contents;
    var data := got + s2.disk[b][at..at + size];
    if index == s1.inodes[ino].blocks { AppendedLays(s, s2, ino, b, 0); }
    PieceBytes(s, s2, ino, offset, got, index, at, size, b);
    Reached(index, at);
    if at + size < BLKSIZE { Reached(index, at + size); } else { Reached(index + 1, 0); }
  }

  /** The bytes of the block are the next ones of the file. */
  lemma PieceBytes(s: Fs, s2: Fs, ino: nat, offset: nat, got: seq<Byte>, index: nat, at: nat, size: nat, b: nat)
    requires IsDisk(s.disk) && ino in s.inodes && Mapped(s, ino) && Overlay(s, s2, ino, 0, [])
    requires offset + |got| == index * 4096 + at && at + size <= BLKSIZE
    requires offset + |got| + size <= s.inodes[ino].size && got == Contents(s, ino)[offset..offset + |got|]
    requires index < s2.inodes[ino].blocks && index < NBLOCKS
    requires BlockOf(s2.inodes[ino], s2.disk, index) == b < |s2.disk|
    ensures var data := got + s2.disk[b][at..at + size]; data == Contents(s, ino)[offset..offset + |data|]
  {
    hide BlockOf;
    var f, piece := Contents(s, ino), s2.disk[b][at..at + size];
    var start := offset + |got|;
    forall k: nat | k < size ensures f[start + k] == piece[k] {
      Located(index, at, k);
      assert LaidAt(s, s2, ino, 0, [], start + k);
    }
    assert f[start..start + size] == piece;
    assert f[offset..start + size] == f[offset..start] + f[start..start + size];
  }

  /** How a reading up to `endpos` ends. */
  lemma ReadEnds(s: Fs, s': Fs, ino: nat, offset: nat, len: nat, endpos: nat, st: Status, data: seq<Byte>)
    requires ino in s.inodes && AllNear(s) && offset < endpos <= s.inodes[ino].size && offset < MAX_FILE_SIZE
    requires endpos == offset + len || endpos == s.inodes[ino].size || endpos == MAX_FILE_SIZE
    requires endpos <= offset + len
    requires if st.Done? then Reading(s, s', ino, offset, data) && offset + |data| == endpos
      else ReadStops(s, s', ino, offset, data, st) && offset + |data| < endpos
    ensures AllNear(s') && Reads(s, s', ino, offset, len, st, data)
  {
    hide Overlay, Mapped, Contents;
    FileNear(s, ino);
    GrownNear(s, s', ino);
    NothingNew(s, s', ino, 0);
    OverlayGrows(s, s', ino, 0, []);
    ChargedBalanced(s, s', ino);
    ContentsSize(s, ino);
  }

  lemma NothingRead(s: Fs, ino: nat, offset: nat, len: nat, st: Status)
    requires IsDisk(s.disk) && ino in s.inodes && Mapped(s, ino) && Overlay(s, s, ino, 0, [])
    requires if offset >= MAX_FILE_SIZE then st.Invalid? else st.Done? && (len == 0 || offset >= s.inodes[ino].size)
    ensures Reads(s, s, ino, offset, len, st, [])
  {
  }

  lemma Located(index: nat, at: nat, k: nat)
    requires at + k < 4096
    ensures (index * 4096 + at + k) / 4096 == index && (index * 4096 + at + k) % 4096 == at + k
  {
  }

  /** How many free blocks it takes to give file `ino` `tblks` blocks, one of them perhaps for the indirect entries. */
  ghost function Cost(s: Fs, ino: nat, tblks: nat): int
    requires ino in s.inodes
  {
    tblks - s.inodes[ino].blocks +
    if s.inodes[ino].indirect == 0 && tblks > NDIRECT && tblks > s.inodes[ino].blocks then 1 else 0
  }

  ghost predicate Enlarging(s: Fs, s': Fs, ino: nat, tblks: nat)
    requires IsDisk(s.disk) && ino in s.inodes && Mapped(s, ino)
  {
    && Overlay(s, s', ino, 0, []) && s'.inodes[ino].blocks <= tblks
    && (s'.inodes[ino].blocks == s.inodes[ino].blocks || s'.inodes[ino].blocks <= NBLOCKS)
    && Charged(s, s', ino)
  }

  /** Growing file `ino` to `tblks` blocks gets to the end of what its block map reaches, and goes on. */
  ghost predicate Overgrows(s: Fs, ino: nat, tblks: nat)
    requires ino in s.inodes
  {
    tblks > s.inodes[ino].blocks && tblks > NBLOCKS && |s.free| >= Cost(s, ino, NBLOCKS)
  }

  /** There are too few free blocks for as many of the `tblks` blocks as the block map reaches. */
  ghost predicate Starves(s: Fs, ino: nat, tblks: nat)
    requires ino in s.inodes
  {
    |s.free| < Cost(s, ino, if tblks < NBLOCKS then tblks else NBLOCKS)
  }

  /** The blocks file `ino` has got have been taken from the free ones, one more if it has got an indirect block. */
  ghost predicate Charged(s: Fs, s': Fs, ino: nat)
    requires ino in s.inodes && ino in s'.inodes
  {
    && |s.free| == |s'.free| + Cost(s, ino, s'.inodes[ino].blocks)
    && (s'.inodes[ino].indirect == 0 <==>
      s.inodes[ino].indirect == 0
        && (s'.inodes[ino].blocks <= NDIRECT || s'.inodes[ino].blocks == s.inodes[ino].blocks))
  }

  /**
    The file has got zeroed blocks at its end: all of them, exactly if there were enough free blocks and the block
    map reaches so far.  If the disk was full those there was room for stay, although the size does not change.
  */
  ghost predicate Enlarged(s: Fs, s': Fs, ino: nat, tblks: nat, st: Status)
    requires IsDisk(s.disk) && ino in s.inodes && Mapped(s, ino)
  {
    && Overlay(s, s', ino, 0, []) && Balanced(s, s', ino) && !st.Invalid?
    && (st.Full? <==> Starves(s, ino, tblks))
    && (st.Panic? <==> Overgrows(s, ino, tblks))
    && (st.Done? ==> s'.inodes[ino].blocks == tblks)
    && (!st.Done? ==> s'.inodes[ino].blocks < tblks)
    && (st.Full? ==> Cost(s, ino, s'.inodes[ino].blocks) <= |s.free| < Cost(s, ino, s'.inodes[ino].blocks + 1))
  }

  lemma StartsEnlarging(s: Fs, ino: nat, tblks: nat)
    requires IsDisk(s.disk) && AllDense(s) && ino in s.inodes && Mapped(s, ino) && s.inodes[ino].blocks <= tblks
    ensures Enlarging(s, s, ino, tblks)
  {
    NothingLaid(s, ino, 0);
  }

  lemma EndsEnlarging(s: Fs, s': Fs, ino: nat, tblks: nat)
    requires IsDisk(s.disk) && ino in s.inodes && Mapped(s, ino) && Enlarging(s, s', ino, tblks)
    requires s'.inodes[ino].blocks == tblks
    ensures Enlarged(s, s', ino, tblks, Done)
  {
  }

  lemma OneMore(s: Fs, s1: Fs, s2: Fs, ino: nat, tblks: nat, r: Result)
    requires Sound(s1, {}) && AllDense(s1) && IsDisk(s.disk) && ino in s.inodes && Mapped(s, ino)
    requires Enlarging(s, s1, ino, tblks)
    requires Sound(s2, {}) && s1.inodes[ino].blocks < tblks
    requires r.OutOfRange? <==> s1.inodes[ino].blocks >= NBLOCKS
    requires if r.OutOfRange? then s2 == s1 else Loads(s1, s2, ino, s1.inodes[ino].blocks, r)
    ensures ino in s2.inodes
    ensures r.Ok? ==> Enlarging(s, s2, ino, tblks) && s2.inodes[ino].blocks == s1.inodes[ino].blocks + 1
    ensures !r.Ok? ==> Enlarged(s, s2, ino, tblks, if r.NoSpace? then Full else Panic)
  {
    hide Sound;
    if r.OutOfRange? {
      return;
    }
    if r.Ok? {
      AppendedLays(s1, s2, ino, r.block, 0);
    } else {
      RolledBackLays(s1, s2, ino, 0);
    }
    var none: seq<Byte> := [];
    OverlayTwice(s, s1, s2, ino, 0, none, none);
    assert none + none == none;
  }

  /** File `ino` has size `len`; the blocks it still has keep their bytes, and blocks it did not have are zero. */
  ghost predicate Truncated(s: Fs, s': Fs, ino: nat, len: nat)
    requires IsDisk(s.disk) && ino in s.inodes && Mapped(s, ino)
  {
    && IsDisk(s'.disk) && OthersSame(s, s', ino) && Mapped(s', ino) && s'.inodes[ino].size == len
    && forall p: nat :: p / 4096 < s'.inodes[ino].blocks ==> ByteAt(s', ino, p) == ByteAt(s, ino, p)
  }

  lemma TruncatedSize(s: Fs, s': Fs, ino: nat, len: nat)
    requires IsDisk(s.disk) && ino in s.inodes && Mapped(s, ino)
    ensures Truncated(s, s', ino, len) ==> ino in s'.inodes && s'.inodes[ino].size == len
  {
  }

  lemma Unchanged(s: Fs, ino: nat)
    requires Sound(s, {}) && AllDense(s) && ino in s.inodes && Mapped(s, ino) && Sized(s, ino)
    ensures Truncated(s, s, ino, s.inodes[ino].size)
  {
    NothingLaid(s, ino, 0);
  }

  lemma TruncatedState(s: Fs, s1: Fs, ino: nat, len: nat) returns (s': Fs)
    requires IsDisk(s.disk) && ino in s.inodes && Mapped(s, ino) && Sound(s1, {}) && AllDense(s1)
    requires (Cut(s, s1, ino) || Overlay(s, s1, ino, 0, [])) && AllNear(s)
    requires s1.inodes[ino].blocks == BlocksFor(len)
    ensures s' == Resized(s1, ino, len, BlocksFor(len))
    ensures Sound(s', {}) && AllDense(s') && AllNear(s') && ino in s'.inodes && Sized(s', ino)
    ensures Truncated(s, s', ino, len)
  {
    hide Used, Recorded;
    s' := Resized(s1, ino, len, BlocksFor(len));
    assert Mapped(s1, ino);
    ResizedSound(s1, ino, len, BlocksFor(len));
    ResizedDense(s1, ino, len);
    ResizedOthers(s, s1, ino, len, BlocksFor(len));
    StillNear(s, s', ino);
    forall p: nat | p / 4096 < BlocksFor(len) ensures ByteAt(s', ino, p) == ByteAt(s, ino, p) {
      ResizedMapping(s1, ino, len, BlocksFor(len), ino, if p / 4096 < NBLOCKS then p / 4096 else 0);
      assert Overlay(s, s1, ino, 0, []) ==> LaidAt(s, s1, ino, 0, [], p);
    }
  }

  lemma DroppedState(s: Fs, s1: Fs, ino: nat) returns (s': Fs)
    requires Sound(s, {}) && Sound(s1, {}) && AllDense(s) && ino in s.inodes && s.inodes[ino].blocks > 0
    requires if s.inodes[ino].blocks <= NBLOCKS then Shrunk(s, s1, ino, s.inodes[ino].blocks - 1) else s1 == s
    ensures ino in s1.inodes && s' == Resized(s1, ino, s1.inodes[ino].size, s.inodes[ino].blocks - 1)
    ensures Sound(s', {}) && AllDense(s') && Dropped(s, s', ino)
  {
    DroppedByResize(s, s1, ino);
    s' := Resized(s1, ino, s1.inodes[ino].size, s.inodes[ino].blocks - 1);
  }

  /** A piece of one block has been written, or the disk is full and nothing has changed. */
  ghost predicate Chunked(s: Fs, s': Fs, ino: nat, i: nat, at: nat, chunk: seq<Byte>, r: Result)
    requires IsDisk(s.disk) && ino in s.inodes && Mapped(s, ino)
  {
    && Overlay(s, s', ino, i * 4096 + at, if r.Ok? then chunk else [])
    && s'.inodes[ino].blocks == (if r.Ok? && i == s.inodes[ino].blocks then i + 1 else s.inodes[ino].blocks)
    && (if s'.inodes[ino].blocks == s.inodes[ino].blocks
        then s'.free == s.free && s'.inodes[ino].indirect == s.inodes[ino].indirect
        else Spent(s, s', ino, i))
    && (r.NoSpace? ==> i == s.inodes[ino].blocks && |s.free| < Needs(s, ino, i))
  }

  lemma ChunkWritten(s: Fs, s1: Fs, ino: nat, i: nat, at: nat, chunk: seq<Byte>, r: Result) returns (s': Fs)
    requires Sound(s, {}) && AllDense(s) && Sound(s1, {}) && AllDense(s1) && ino in s.inodes && Mapped(s, ino)
    requires i <= s.inodes[ino].blocks && i < NBLOCKS && at + |chunk| <= BLKSIZE && chunk != []
    requires Loads(s, s1, ino, i, r) && !r.OutOfRange?
    ensures r.Ok? ==> r.block < |s1.disk| && s' == Patched(s1, r.block, at, chunk)
    ensures r.NoSpace? ==> s' == s1
    ensures Sound(s', {}) && AllDense(s') && Chunked(s, s', ino, i, at, chunk, r)
  {
    hide Used, Recorded, BlockOf;
    var off := i * 4096 + at;
    if r.NoSpace? {
      s' := s1;
      RolledBackLays(s, s1, ino, off);
    } else {
      if i < s.inodes[ino].blocks {
        NothingLaid(s, ino, off);
      } else {
        AppendedLays(s, s1, ino, r.block, off);
      }
      PatchedLays(s1, ino, i, at, chunk);
      s' := Patched(s1, r.block, at, chunk);
      PatchedDense(s1, ino, i, at, chunk);
      OverlayTwice(s, s1, s', ino, off, [], chunk);
      assert [] + chunk == chunk;
    }
  }

  lemma RolledBackLays(s: Fs, s': Fs, ino: nat, off: nat)
    requires Sound(s, {}) && AllDense(s) && Sound(s', {}) && RolledBack(s, s') && ino in s.inodes && Mapped(s, ino)
    ensures AllDense(s') && Overlay(s, s', ino, off, [])
  {
    RolledBackDense(s, s');
    assert SameFile(s, s', ino);
    forall p: nat ensures LaidAt(s, s', ino, off, [], p) {
      if p / 4096 < NBLOCKS && p / 4096 < s.inodes[ino].blocks {
        assert SameBlock(s, s', ino, p / 4096);
        assert Recorded(s, ino) && RecordedAt(s, ino, p / 4096) && Dense(s, ino) && DenseAt(s, ino, p / 4096);
      }
    }
  }

  lemma Loaded(s: Fs, s1: Fs, ino: nat, r: Result) returns (s': Fs)
    requires Sound(s, {}) && Sound(s1, {}) && AllDense(s) && ino in s.inodes && Mapped(s, ino)
    requires s.inodes[ino].blocks < NBLOCKS
    requires DenseAt(s, ino, s.inodes[ino].blocks) && Gets(s, s1, ino, s.inodes[ino].blocks, true, r)
    ensures ino in s1.inodes && s' == if r.Ok?
      then Resized(s1, ino, s1.inodes[ino].size, s1.inodes[ino].blocks + 1) else s1
    ensures Sound(s', {}) && AllDense(s') && Loads(s, s', ino, s.inodes[ino].blocks, r)
  {
    hide Used, Recorded, BlockOf;
    if r.Ok? {
      AppendedByResize(s, s1, ino, r.block);
      s' := Resized(s1, ino, s1.inodes[ino].size, s1.inodes[ino].blocks + 1);
    } else {
      RolledBackDense(s, s1);
      s' := s1;
    }
  }

  /** What sfs_bmap_load_nolock promises. */
  ghost predicate Loads(s: Fs, s': Fs, ino: nat, i: nat, r: Result)
    requires IsDisk(s.disk) && ino in s.inodes && Mapped(s, ino) && i < NBLOCKS
  {
    if i < s.inodes[ino].blocks then r == Ok(BlockOf(s.inodes[ino], s.disk, i)) && r.block != 0 && s' == s
    else if |s.free| < Needs(s, ino, i) then r == NoSpace && RolledBack(s, s')
    else r.Ok? && Appended(s, s', ino, r.block) && Spent(s, s', ino, i)
  }

  lemma RolledBackDense(s: Fs, s': Fs)
    requires Sound(s, {}) && AllDense(s) && Sound(s', {}) && RolledBack(s, s')
    ensures AllDense(s') && forall x :: x in s.inodes ==> SameFile(s, s', x)
  {
    forall x | x in s.inodes ensures SameFile(s, s', x) && Mapped(s', x) && Dense(s', x) {
      assert Mapped(s, x) && Recorded(s, x) && Dense(s, x);
      forall j | 0 <= j < NBLOCKS ensures SameBlock(s, s', x, j) && DenseAt(s', x, j) {
        assert RecordedAt(s, x, j) && DenseAt(s, x, j);
      }
    }
  }

  ghost predicate InRange(free: set<nat>, n: nat) {
    forall b :: b in free ==> 0 < b < n
  }

  lemma FreeInRange(s: Fs)
    requires Sound(s, {})
    ensures InRange(s.free, |s.disk|) && |s.disk| <= WORD
  {
  }

  /** How many blocks it takes to give file `ino` its block `i`. */
  ghost function Needs(s: Fs, ino: nat, i: nat): nat
    requires ino in s.inodes
  {
    if i >= NDIRECT && s.inodes[ino].indirect == 0 then 2 else 1
  }

  /** Nothing has changed but the contents of free blocks. */
  ghost predicate RolledBack(s: Fs, s': Fs) {
    && s'.inodes == s.inodes && s'.owner == s.owner && s'.free == s.free && |s'.disk| == |s.disk|
    && forall c :: 0 <= c < |s.disk| && c in s.owner ==> s'.disk[c] == s.disk[c]
  }

  /** What sfs_bmap_get_nolock promises: the block that is there, a new one, or no change at all. */
  ghost predicate Gets(s: Fs, s': Fs, ino: nat, i: nat, create: bool, r: Result)
    requires IsDisk(s.disk) && ino in s.inodes && Mapped(s, ino) && i < NBLOCKS
  {
    var b := BlockOf(s.inodes[ino], s.disk, i);
    if b != 0 || !create then r == Ok(b) && s' == s
    else if |s.free| < Needs(s, ino, i) then r == NoSpace && RolledBack(s, s')
    else r.Ok? && Grown(s, s', ino, i, r.block) && s'.inodes[ino].blocks == s.inodes[ino].blocks && Spent(s, s', ino, i)
  }

  /** Giving the file its block `i` has taken just the blocks it needs. */
  ghost predicate Spent(s: Fs, s': Fs, ino: nat, i: nat)
    requires ino in s.inodes && ino in s'.inodes
  {
    && |s.free| == |s'.free| + Needs(s, ino, i)
    && (s'.inodes[ino].indirect == 0 <==> s.inodes[ino].indirect == 0 && i < NDIRECT)
  }

  lemma NothingGot(s: Fs, ino: nat, i: nat)
    requires IsDisk(s.disk) && ino in s.inodes && Mapped(s, ino) && i < NBLOCKS
    requires BlockOf(s.inodes[ino], s.disk, i) == 0 && s.free == {}
    ensures Gets(s, s, ino, i, true, NoSpace)
  {
  }

  lemma OnlyOne(s: Fs, ino: nat, i: nat, ent: nat)
    requires Sound(s, {}) && ino in s.inodes && Mapped(s, ino) && NDIRECT <= i < NBLOCKS && s.inodes[ino].indirect == 0
    requires ent in s.free && s.free - {ent} == {} && RolledBack(s, Release(Allocated(s, ent), ent))
    ensures Gets(s, Release(Allocated(s, ent), ent), ino, i, true, NoSpace)
  {
    OneLess(s.free, ent);
  }

  lemma DirectGot(s: Fs, s1: Fs, ino: nat, i: nat, b: nat) returns (s': Fs)
    requires Sound(s, {}) && ino in s.inodes && i < NDIRECT && Mapped(s, ino) && s.inodes[ino].direct[i] == 0
    requires b in s.free
    requires s1 == Allocated(s, b)
    ensures s' == LinkDirect(s1, ino, i, b) && Sound(s', {}) && Gets(s, s', ino, i, true, Ok(b))
  {
    GrownDirect(s, ino, i, b);
    OneLess(s.free, b);
    s' := LinkDirect(s1, ino, i, b);
  }

  lemma EntryGot(s: Fs, s1: Fs, ino: nat, i: nat, b: nat) returns (s': Fs)
    requires Sound(s, {}) && ino in s.inodes && NDIRECT <= i < NBLOCKS && Mapped(s, ino) && s.inodes[ino].indirect != 0
    requires BlockOf(s.inodes[ino], s.disk, i) == 0 && b in s.free
    requires s1 == Allocated(s, b)
    ensures IsDisk(s1.disk) && s' == LinkEntry(s1, ino, i, b) && Sound(s', {}) && Gets(s, s', ino, i, true, Ok(b))
  {
    GrownEntry(s, ino, i, b);
    OneLess(s.free, b);
    s' := LinkEntry(s1, ino, i, b);
  }

  lemma IndirectGot(s: Fs, s1: Fs, ino: nat, i: nat, ent: nat, b: nat) returns (s': Fs)
    requires Sound(s, {}) && ino in s.inodes && NDIRECT <= i < NBLOCKS && Mapped(s, ino) && s.inodes[ino].indirect == 0
    requires ent in s.free && b in s.free - {ent}
    requires s1 == Allocated(Allocated(s, ent), b)
    ensures IsDisk(s1.disk) && s' == LinkEntry(LinkIndirect(s1, ino, ent), ino, i, b)
    ensures Sound(s', {}) && Gets(s, s', ino, i, true, Ok(b))
  {
    GrownIndirect(s, ino, i, ent, b);
    OneLess(s.free, ent);
    OneLess(s.free - {ent}, b);
    s' := LinkEntry(LinkIndirect(s1, ino, ent), ino, i, b);
  }

  /** Taking a block and giving it back leaves everything in use as it was. */
  lemma TakeBack(s: Fs, b: nat)
    requires Sound(s, {}) && b in s.free
    ensures Sound(Release(Allocated(s, b), b), {}) && RolledBack(s, Release(Allocated(s, b), b))
  {
    AllocatedSound(s, {}, b);
    ReleasedSound(Allocated(s, b), {b}, b);
    assert {} + {b} == {b} && {b} - {b} == {};
  }

  lemma OneLess(s: set<nat>, b: nat)
    requires b in s
    ensures |s| == |s - {b}| + 1
  {
  }
}
