/**
  The image builder tools/mksfs.c: block numbers are handed out in order, files record their blocks in
  cached entry blocks, and the freemap is written when the image is closed.
*/
module Mksfs {
  import opened Machine
  import opened Options
  import opened SfsLayout

  const BLKBITS: nat := 32768
  const L0: nat := 12                 // SFS_L0_NBLKS
  const L1: nat := 1036               // SFS_L1_NBLKS
  const LN: nat := 32768              // SFS_LN_NBLKS
  const MAX_NBLKS: nat := 524288      // SFS_MAX_NBLKS
  const ROOT: nat := 1                // SFS_BLKN_ROOT

  // ---------------------------------------------------------------- files

  /** What a cached entry block is used for. */
  datatype Role = Single(file: nat) | Top(file: nat) | Leaf(file: nat, k: nat)

  /** struct cache_inode; `l1` and `l2` are the numbers of the blocks they point to, 0 for none. */
  datatype File = File(ino: nat, size: nat, nblks: nat, direct: seq<nat>, indirect: nat, dbIndirect: nat, l1: nat,
    l2: nat)

  /** What a block that has been handed out is used for. */
  datatype Purpose = Node(file: nat) | Entry(role: Role) | Content(file: nat, i: nat)

  type Cache = map<nat, seq<nat>>

  ghost predicate IsEntryBlock(entries: seq<nat>) {
    |entries| == NENTRY && forall j :: 0 <= j < NENTRY ==> entries[j] < WORD
  }

  ghost predicate AllEntries(c: Cache) {
    forall b :: b in c ==> IsEntryBlock(c[b])
  }

  lemma PutEntries(c: Cache, b: nat, j: nat, v: nat)
    requires AllEntries(c) && b in c && j < |c[b]| && v < WORD
    ensures AllEntries(Put(c, b, j, v))
  {
  }

  /** Cached block `b` holds entries and has this role. */
  ghost predicate Plays(c: Cache, owner: map<nat, Role>, b: nat, role: Role) {
    b != 0 && b in c && |c[b]| == NENTRY && b in owner && owner[b] == role
  }

  /** The entries of block `b` are the numbers `rec` from index `base` on, then zeros. */
  ghost predicate Holds(c: Cache, b: nat, rec: seq<nat>, base: nat)
    requires b in c && |c[b]| == NENTRY
  {
    forall j :: 0 <= j < NENTRY ==> c[b][j] == if base + j < |rec| then rec[base + j] else 0
  }

  /** How many leaf blocks a file of `n` blocks has below its double indirect block. */
  ghost function Leaves(n: nat): nat {
    if n <= L1 then 0 else (n - L1 + NENTRY - 1) / NENTRY
  }

  ghost predicate LeafOk(c: Cache, owner: map<nat, Role>, id: nat, f: File, rec: seq<nat>, k: nat)
    requires f.dbIndirect in c && |c[f.dbIndirect]| == NENTRY && k < NENTRY
  {
    var b := c[f.dbIndirect][k];
    if k < Leaves(|rec|) then Plays(c, owner, b, Leaf(id, k)) && Holds(c, b, rec, L1 + NENTRY * k) else b == 0
  }

  /** File `id` records exactly the blocks `rec`. */
  ghost predicate Records(c: Cache, owner: map<nat, Role>, id: nat, f: File, rec: seq<nat>) {
    && |rec| == f.nblks <= LN && |f.direct| == L0
    && (forall i :: 0 <= i < L0 ==> f.direct[i] == if i < |rec| then rec[i] else 0)
    && (if |rec| <= L0 then f.indirect == 0
        else Plays(c, owner, f.indirect, Single(id)) && Holds(c, f.indirect, rec, L0))
    && (if |rec| <= L1 then f.dbIndirect == 0
        else Plays(c, owner, f.dbIndirect, Top(id)) && forall k :: 0 <= k < NENTRY ==> LeafOk(c, owner, id, f, rec, k))
    && Cursor(c, f)
  }

  /** The pointers to the entry blocks that are being filled. */
  ghost predicate Cursor(c: Cache, f: File) {
    && (L0 < f.nblks <= L1 ==> f.l1 == f.indirect)
    && (L1 < f.nblks ==>
      && f.l2 == f.dbIndirect && f.dbIndirect in c && |c[f.dbIndirect]| == NENTRY
      && 0 < Leaves(f.nblks) <= NENTRY && f.l1 == c[f.dbIndirect][Leaves(f.nblks) - 1])
  }

  /** Other files' entry blocks are the same. */
  ghost predicate Elsewhere(c: Cache, owner: map<nat, Role>, c': Cache, owner': map<nat, Role>, id: nat) {
    forall b :: b in c && b in owner && owner[b].file != id ==>
      b in c' && c'[b] == c[b] && b in owner' && owner'[b] == owner[b]
  }

  lemma OtherRecords(c: Cache, owner: map<nat, Role>, c': Cache, owner': map<nat, Role>, id: nat, x: nat, f: File,
                     rec: seq<nat>)
    requires Records(c, owner, x, f, rec) && x != id && Elsewhere(c, owner, c', owner', id)
    ensures Records(c', owner', x, f, rec)
  {
    if |rec| > L1 {
      forall k | 0 <= k < NENTRY ensures LeafOk(c', owner', x, f, rec, k) {
        assert LeafOk(c, owner, x, f, rec, k);
      }
    }
  }

  // ---------------------------------------------------------------- one more block, in the three ranges

  lemma DirectRecorded(c: Cache, owner: map<nat, Role>, id: nat, f: File, rec: seq<nat>, ino: nat)
    requires Records(c, owner, id, f, rec) && |rec| < L0
    ensures Records(c, owner, id, f.(direct := f.direct[|rec| := ino], nblks := f.nblks + 1), rec + [ino])
  {
  }

  /** A zeroed entry block, as alloc_cache_block makes it. */
  function NoEntries(): (r: seq<nat>)
    ensures |r| == NENTRY
  {
    seq(NENTRY, _ => 0)
  }

  function Put(c: Cache, b: nat, j: nat, v: nat): Cache
    requires b in c && j < |c[b]|
  {
    var entries: seq<nat> := c[b][j := v];
    c[b := entries]
  }

  /** update_cache: block `b` was there, or it is new and zeroed. */
  ghost predicate Provided(c: Cache, owner: map<nat, Role>, b: nat, role: Role, isNew: bool, c1: Cache,
                           owner1: map<nat, Role>) {
    if isNew then b != 0 && b !in c && b !in owner && c1 == c[b := NoEntries()] && owner1 == owner[b := role]
    else Plays(c, owner, b, role) && c1 == c && owner1 == owner
  }

  lemma SingleRecorded(c: Cache, owner: map<nat, Role>, id: nat, f: File, rec: seq<nat>, ino: nat, b: nat, c1: Cache,
                       owner1: map<nat, Role>)
    requires Records(c, owner, id, f, rec) && L0 <= |rec| < L1
    requires Provided(c, owner, b, Single(id), |rec| == L0, c1, owner1) && (|rec| > L0 ==> b == f.indirect)
    ensures b in c1 && |c1[b]| == NENTRY
    ensures Records(Put(c1, b, |rec| - L0, ino), owner1, id, f.(indirect := b, l1 := b, nblks := f.nblks + 1), rec
      + [ino])
  {
  }

  lemma Quotient(n: nat)
    requires L1 <= n < LN
    ensures var q, r := (n - L1) / NENTRY, (n - L1) % NENTRY;
      && q < NENTRY && r < NENTRY && n == L1 + NENTRY * q + r
      && Leaves(n + 1) == q + 1 && Leaves(n) == if r == 0 then q else q + 1
  {
  }

  /** The double indirect range: block `t` holds the leaves, leaf `b` gets the new entry. */
  lemma DoubleRecorded(c: Cache, owner: map<nat, Role>, id: nat, f: File, rec: seq<nat>, ino: nat,
                       t: nat, c1: Cache, owner1: map<nat, Role>, b: nat, c2: Cache, owner2: map<nat, Role>)
    requires Records(c, owner, id, f, rec) && L1 <= |rec| < LN
    requires Provided(c, owner, t, Top(id), |rec| == L1, c1, owner1) && (|rec| > L1 ==> t == f.dbIndirect)
    requires var q, r := (|rec| - L1) / NENTRY, (|rec| - L1) % NENTRY;
      q < NENTRY && Provided(c1, owner1, b, Leaf(id, q), r == 0, c2, owner2) && (r != 0 ==> b == c1[t][q])
    ensures t in c2 && b in c2 && |c2[t]| == NENTRY && |c2[b]| == NENTRY && t != b
    ensures var q, r := (|rec| - L1) / NENTRY, (|rec| - L1) % NENTRY;
      Records(Put(Put(c2, t, q, b), b, r, ino), owner2, id,
        f.(dbIndirect := t, l2 := t, l1 := b, nblks := f.nblks + 1), rec + [ino])
  {
    Quotient(|rec|);
    var q, r := (|rec| - L1) / NENTRY, (|rec| - L1) % NENTRY;
    var c3, f3 := Put(Put(c2, t, q, b), b, r, ino), f.(dbIndirect := t, l2 := t, l1 := b, nblks := f.nblks + 1);
    forall k | 0 <= k < NENTRY ensures LeafOk(c3, owner2, id, f3, rec + [ino], k) {
      DoubleLeaf(c, owner, id, f, rec, ino, t, c1, owner1, b, c2, owner2, k);
    }
    assert Holds(c, f.indirect, rec, L0);
    assert Holds(c3, f.indirect, rec + [ino], L0);
  }

  lemma DoubleElsewhere(c: Cache, owner: map<nat, Role>, id: nat, t: nat, c1: Cache, owner1: map<nat, Role>,
                        b: nat, c2: Cache, owner2: map<nat, Role>, q: nat, r: nat, ino: nat)
    requires c.Keys == owner.Keys
    requires exists isNew :: Provided(c, owner, t, Top(id), isNew, c1, owner1)
    requires exists isNew :: Provided(c1, owner1, b, Leaf(id, q), isNew, c2, owner2)
    requires t in c2 && b in c2 && t != b && q < |c2[t]| && r < |c2[b]|
    ensures Elsewhere(c, owner, Put(Put(c2, t, q, b), b, r, ino), owner2, id)
  {
  }

  lemma DoubleLeaf(c: Cache, owner: map<nat, Role>, id: nat, f: File, rec: seq<nat>, ino: nat,
                   t: nat, c1: Cache, owner1: map<nat, Role>, b: nat, c2: Cache, owner2: map<nat, Role>, k: nat)
    requires Records(c, owner, id, f, rec) && L1 <= |rec| < LN && k < NENTRY
    requires Provided(c, owner, t, Top(id), |rec| == L1, c1, owner1) && (|rec| > L1 ==> t == f.dbIndirect)
    requires var q, r := (|rec| - L1) / NENTRY, (|rec| - L1) % NENTRY;
      && q < NENTRY && Provided(c1, owner1, b, Leaf(id, q), r == 0, c2, owner2) && (r != 0 ==> b == c1[t][q])
      && t in c2 && b in c2 && |c2[t]| == NENTRY && |c2[b]| == NENTRY && t != b
    ensures var q, r := (|rec| - L1) / NENTRY, (|rec| - L1) % NENTRY;
      LeafOk(Put(Put(c2, t, q, b), b, r, ino), owner2, id, f.(dbIndirect := t, l2 := t, l1 := b, nblks := f.nblks + 1),
        rec + [ino], k)
  {
    Quotient(|rec|);
    if |rec| > L1 { assert LeafOk(c, owner, id, f, rec, k); }
  }

  // ---------------------------------------------------------------- who uses a block

  /** The purpose of block `b` is what the files say. */
  ghost predicate Justified(files: map<nat, File>, rec: map<nat, seq<nat>>, owner: map<nat, Role>, b: nat, p: Purpose) {
    match p
    case Node(id) => id in files && files[id].ino == b
    case Entry(role) =>
      && b in owner && owner[b] == role && role.file in files
      && (if role.Single? then files[role.file].indirect == b else files[role.file].nblks > L1)
    case Content(id, i) => id in rec && i < |rec[id]| && rec[id][i] == b
  }

  ghost predicate EntriesKnown(owner: map<nat, Role>, purpose: map<nat, Purpose>) {
    forall b :: b in owner ==> b in purpose && purpose[b] == Entry(owner[b])
  }

  ghost predicate NodesKnown(files: map<nat, File>, purpose: map<nat, Purpose>) {
    forall id :: id in files ==> files[id].ino in purpose && purpose[files[id].ino] == Node(id)
  }

  ghost predicate ContentKnown(rec: map<nat, seq<nat>>, purpose: map<nat, Purpose>) {
    forall id, i :: id in rec && 0 <= i < |rec[id]| ==> rec[id][i] in purpose && purpose[rec[id][i]] == Content(id, i)
  }

  ghost predicate AllJustified(files: map<nat, File>, rec: map<nat, seq<nat>>, owner: map<nat, Role>,
                               purpose: map<nat, Purpose>) {
    forall b :: b in purpose ==> Justified(files, rec, owner, b, purpose[b])
  }

  /** Every block that a file refers to has that purpose, and every purpose is real: so no block is used twice. */
  ghost predicate Assigned(files: map<nat, File>, rec: map<nat, seq<nat>>, owner: map<nat, Role>,
                           purpose: map<nat, Purpose>) {
    && EntriesKnown(owner, purpose) && NodesKnown(files, purpose) && ContentKnown(rec, purpose)
    && AllJustified(files, rec, owner, purpose)
  }

  /** Two places in the records of any files never hold the same block. */
  lemma RecordedOnce(files: map<nat, File>, rec: map<nat, seq<nat>>, owner: map<nat, Role>, purpose: map<nat, Purpose>,
                     id: nat, i: nat, id': nat, i': nat)
    requires Assigned(files, rec, owner, purpose)
    requires id in rec && i < |rec[id]| && id' in rec && i' < |rec[id']| && rec[id][i] == rec[id'][i']
    ensures id == id' && i == i'
  {
    assert purpose[rec[id][i]] == Content(id, i) && purpose[rec[id'][i']] == Content(id', i');
  }

  /** The entry blocks that file `id` got on top of `owner`, as the file `f` refers to them. */
  ghost predicate Extended(owner: map<nat, Role>, purpose: map<nat, Purpose>, id: nat, f: File,
                           owner': map<nat, Role>, purpose': map<nat, Purpose>)
  {
    && (forall b :: b in owner ==> b in owner' && owner'[b] == owner[b])
    && (forall b :: b in owner' && b !in owner ==> b !in purpose && NewEntry(id, f, b, owner'[b]))
    && (forall b :: b in purpose' <==> b in purpose || (b in owner' && b !in owner))
    && (forall b :: b in purpose' ==> purpose'[b] == if b in purpose then purpose[b] else Entry(owner'[b]))
  }

  ghost predicate NewEntry(id: nat, f: File, b: nat, role: Role) {
    role.file == id && if role.Single? then f.indirect == b else f.nblks > L1
  }

  /** `f` is the file `f0` with one more block. */
  ghost predicate Continues(f0: File, f: File) {
    f.ino == f0.ino && f.nblks == f0.nblks + 1 && f.size == f0.size && (f0.indirect != 0 ==> f.indirect == f0.indirect)
  }

  lemma AssignedAppended(files: map<nat, File>, rec: map<nat, seq<nat>>, owner: map<nat, Role>,
                         purpose: map<nat, Purpose>,
                         id: nat, f: File, ino: nat, owner': map<nat, Role>, purpose': map<nat, Purpose>, size: nat)
    requires Assigned(files, rec, owner, purpose) && files.Keys == rec.Keys && id in files && 0 !in purpose
    requires Extended(owner, purpose, id, f, owner', purpose') && Continues(files[id], f) && ino !in purpose'
    ensures Assigned(files[id := f.(size := size)], rec[id := rec[id] + [ino]], owner',
      purpose'[ino := Content(id, |rec[id]|)])
  {
    hide ContentKnown, AllJustified;
    ContentAppended(rec, purpose, id, ino, purpose');
    JustifiedAppended(files, rec, owner, purpose, id, f, ino, owner', purpose', size);
  }

  lemma ContentAppended(rec: map<nat, seq<nat>>, purpose: map<nat, Purpose>, id: nat, ino: nat,
                        purpose': map<nat, Purpose>)
    requires ContentKnown(rec, purpose) && id in rec && ino !in purpose'
    requires forall b :: b in purpose ==> b in purpose' && purpose'[b] == purpose[b]
    ensures ContentKnown(rec[id := rec[id] + [ino]], purpose'[ino := Content(id, |rec[id]|)])
  {
    var rec', p' := rec[id := rec[id] + [ino]], purpose'[ino := Content(id, |rec[id]|)];
    forall x, i | x in rec' && 0 <= i < |rec'[x]| ensures rec'[x][i] in p' && p'[rec'[x][i]] == Content(x, i) {
      if x != id || i < |rec[id]| {
        assert rec'[x][i] == rec[x][i];
      }
    }
  }

  lemma JustifiedAppended(files: map<nat, File>, rec: map<nat, seq<nat>>, owner: map<nat, Role>,
                          purpose: map<nat, Purpose>,
                          id: nat, f: File, ino: nat, owner': map<nat, Role>, purpose': map<nat, Purpose>, size: nat)
    requires AllJustified(files, rec, owner, purpose) && files.Keys == rec.Keys && id in files && 0 !in purpose
    requires Extended(owner, purpose, id, f, owner', purpose') && Continues(files[id], f) && ino !in purpose'
    ensures AllJustified(files[id := f.(size := size)], rec[id := rec[id] + [ino]], owner',
      purpose'[ino := Content(id, |rec[id]|)])
  {
    var files', rec', p' := files[id := f.(size := size)], rec[id := rec[id] + [ino]],
      purpose'[ino := Content(id, |rec[id]|)];
    forall b | b in p' ensures Justified(files', rec', owner', b, p'[b]) {
      if b in purpose {
        assert Justified(files, rec, owner, b, purpose[b]);
      }
    }
  }

  lemma AssignedAdded(files: map<nat, File>, rec: map<nat, seq<nat>>, owner: map<nat, Role>,
                      purpose: map<nat, Purpose>, id: nat, f: File)
    requires Assigned(files, rec, owner, purpose) && files.Keys == rec.Keys && id !in files && f.ino !in purpose
    ensures Assigned(files[id := f], rec[id := []], owner, purpose[f.ino := Node(id)])
  {
    hide AllJustified;
    JustifiedAdded(files, rec, owner, purpose, id, f);
  }

  lemma JustifiedAdded(files: map<nat, File>, rec: map<nat, seq<nat>>, owner: map<nat, Role>,
                       purpose: map<nat, Purpose>, id: nat, f: File)
    requires AllJustified(files, rec, owner, purpose) && files.Keys == rec.Keys && id !in files && f.ino !in purpose
    ensures AllJustified(files[id := f], rec[id := []], owner, purpose[f.ino := Node(id)])
  {
    var files', rec', p' := files[id := f], rec[id := []], purpose[f.ino := Node(id)];
    forall b | b in p' ensures Justified(files', rec', owner, b, p'[b]) {
      if b != f.ino {
        assert Justified(files, rec, owner, b, purpose[b]);
      }
    }
  }

  // ---------------------------------------------------------------- the builder

  /** The numbers handed out when `next` is the next one: the root inode and those behind the freemap. */
  ghost function Handed(ninos: nat, next: nat): set<nat> {
    set b: nat | b <= next && IsHanded(ninos, next, b)
  }

  ghost predicate IsHanded(ninos: nat, next: nat, b: nat) {
    b == ROOT || FirstIno(ninos) <= b < next
  }

  /** alloc_cache_inode */
  function NewFile(ino: nat): (f: File)
    ensures f.ino == ino && |f.direct| == L0 && forall i :: 0 <= i < L0 ==> f.direct[i] == 0
  {
    File(ino, 0, 0, seq(L0, _ => 0), 0, 0, 0, 0)
  }

  class Builder {
    const ninos: nat
    var nextIno: nat
    var unused: nat                   // super.unused_blocks
    var cache: Cache
    var files: map<nat, File>         // the cached inodes by their number on the host; the root has 0
    ghost var owner: map<nat, Role>
    ghost var rec: map<nat, seq<nat>>
    ghost var purpose: map<nat, Purpose>
    ghost var loose: set<nat>         // handed out and not in use yet

    /** Every file records its blocks, and every number handed out is used once or still loose. */
    ghost predicate Valid()
      reads this
    {
      && Usable() && rec.Keys == files.Keys && 0 in files && files[0].ino == ROOT
      && AllRecord(cache, owner, files, rec) && Assigned(files, rec, owner, purpose)
    }

    /** create_sfs, on an image with room for more than the metadata: a root directory without entries. */
    constructor (blocks: nat)
      requires FirstIno(Least(blocks, MAX_NBLKS)) < Least(blocks, MAX_NBLKS)
      ensures Valid() && ninos == Least(blocks, MAX_NBLKS) && nextIno == FirstIno(ninos) && loose == {}
      ensures files == map[0 := NewFile(ROOT)] && rec == map[0 := []]
    {
      ninos := Least(blocks, MAX_NBLKS);
      nextIno, unused := FirstIno(Least(blocks, MAX_NBLKS)),
        Least(blocks, MAX_NBLKS) - FirstIno(Least(blocks, MAX_NBLKS));
      cache, files, owner, rec := map[], map[0 := NewFile(ROOT)], map[], map[0 := []];
      purpose, loose := map[ROOT := Node(0)], {};
      new;
      assert Handed(ninos, nextIno) == {ROOT};
    }

    /** The numbering part of the invariant, which holds also while append_block is at work on a file. */
    ghost predicate Usable()
      reads this
    {
      && FirstIno(ninos) <= nextIno <= ninos <= MAX_NBLKS && unused == ninos - nextIno
      && cache.Keys == owner.Keys && owner.Keys <= purpose.Keys && AllEntries(cache)
      && purpose.Keys !! loose && purpose.Keys + loose == Handed(ninos, nextIno)
    }

    /** sfs_alloc_ino; nothing if the image is full, which ends the program. */
    method AllocIno() returns (r: Option<nat>)
      requires Usable()
      modifies this`nextIno, this`unused, this`loose
      ensures Usable() && (r.None? <==> old(nextIno) == ninos)
      ensures r.Some? ==> r.value == old(nextIno) && r.value > ROOT && nextIno == r.value + 1
      ensures r.Some? ==> loose == old(loose) + {r.value} && r.value !in old(loose) && r.value !in purpose
      ensures r.None? ==> nextIno == old(nextIno) && loose == old(loose)
    {
      hide AllEntries;
      if nextIno < ninos {
        HandedNext(ninos, nextIno);
        unused := unused - 1;
        r := Some(nextIno);
        loose := loose + {nextIno};
        nextIno := nextIno + 1;
      } else {
        r := None;
      }
    }

    /** alloc_cache_inode: a file without blocks. */
    method AddFile(id: nat) returns (r: Option<nat>)
      requires Valid() && id !in files
      modifies this
      ensures Valid() && (r.None? <==> old(nextIno) == ninos) && loose == old(loose)
      ensures r.Some? ==> r.value == old(nextIno) && nextIno == old(nextIno) + 1
      ensures r.Some? ==> files == old(files)[id := NewFile(r.value)] && rec == old(rec)[id := []]
      ensures r.Some? ==> forall x :: x in old(files) ==> old(files)[x].ino != r.value && r.value !in old(rec)[x]
    {
      hide Records, Handed, Assigned, AllRecord, NewFile, AllEntries;
      ghost var was := loose;
      r := AllocIno();
      if r.Some? {
        NewRecorded(files, rec, owner, purpose, r.value);
        AssignedAdded(files, rec, owner, purpose, id, NewFile(r.value));
        AddedRecorded(cache, owner, files, rec, id, r.value);
        files := files[id := NewFile(r.value)];
        rec, purpose, loose := rec[id := []], purpose[r.value := Node(id)], was;
      }
    }

    /**
      sfs_alloc_ino, write_block and append_block, which follow each other for every block of a file or directory.
      They fail exactly if the file is too big, or the numbers left do not suffice.
    */
    method AddBlock(id: nat, size: nat) returns (r: Option<nat>)
      requires Valid() && id in files && size <= BLKSIZE
      modifies this
      ensures r.Some? ==> Valid() && loose == old(loose) && rec == old(rec)[id := old(rec)[id] + [r.value]]
      ensures r.Some? ==> id in files && files[id].ino == old(files[id].ino)
      ensures r.Some? ==> files[id].size == old(files[id].size) + size
      ensures r.Some? ==> files == old(files)[id := files[id]] && r.value == old(nextIno)
      ensures r.Some? ==> forall x :: x in old(rec) ==> r.value !in old(rec)[x]
      ensures r.Some? <==> old(files[id].nblks) < LN && old(nextIno + 1 + NewEntries(files[id].nblks)) <= ninos
      ensures r.Some? ==> nextIno == old(nextIno + 1 + NewEntries(files[id].nblks))
    {
      hide Records, Handed, Assigned, AllEntries, NewEntries;
      r := AllocIno();
      if r.Some? {
        NewRecorded(files, rec, owner, purpose, r.value);
        var ok := AppendBlock(id, size, r.value);
        if !ok { r := None; }
      }
    }

    /**
      update_cache: the entry block `ino`, or a new one.  The cached pointer is always the right one, so the
      search by number, which looks in another hash chain than the one new blocks are put in, is never made.
    */
    method UpdateCache(cb: nat, ino: nat, ghost role: Role) returns (r: Option<nat>)
      requires Usable() && (ino != 0 ==> cb == ino && Plays(cache, owner, ino, role))
      modifies this`nextIno, this`unused, this`cache, this`owner, this`purpose, this`loose
      ensures r.Some? ==>
        Usable() && Provided(old(cache), old(owner), r.value, role, ino == 0, cache, owner) && loose == old(loose)
      ensures r.None? <==> ino == 0 && old(nextIno) == ninos
      ensures r.Some? ==> nextIno == old(nextIno) + if ino == 0 then 1 else 0
      ensures r.Some? && ino != 0 ==> r.value == ino && purpose == old(purpose)
      ensures r.Some? && ino == 0 ==> r.value !in old(purpose) && purpose == old(purpose)[r.value := Entry(role)]
    {
      if ino == 0 {
        hide Handed;
        ghost var was := loose;
        r := AllocIno();
        if r.Some? {
          cache := cache[r.value := NoEntries()];
          owner, purpose, loose := owner[r.value := role], purpose[r.value := Entry(role)], was;
        }
      } else {
        assert cb == ino;
        r := Some(ino);
      }
    }

    /** append_block: false exactly if the file is too big or the image is full, which ends the program. */
    method AppendBlock(id: nat, size: nat, ino: nat) returns (ok: bool)
      requires Valid() && id in files && size <= BLKSIZE && ino in loose
      modifies this
      ensures ok <==> old(files[id].nblks) < LN && old(nextIno + NewEntries(files[id].nblks)) <= ninos
      ensures ok ==> nextIno == old(nextIno + NewEntries(files[id].nblks))
      ensures ok ==> Valid() && loose == old(loose) - {ino} && rec == old(rec)[id := old(rec)[id] + [ino]]
      ensures ok ==> id in files && files[id].size == old(files[id].size) + size && files[id].ino == old(files[id].ino)
      ensures ok ==> files == old(files)[id := files[id]]
    {
      hide Records, Elsewhere, Assigned, Extended, Handed, AllRecord, AllEntries, NewEntries;
      ghost var c, own, was := cache, owner, purpose;
      HandedBelow(ninos, nextIno, ino);
      var f;
      ok, f := Record(id, ino);
      if !ok { return; }
      NoZero(ninos, nextIno, purpose, loose);
      ExtendedKeys(own, was, id, f, owner, purpose);
      AssignedAppended(files, rec, own, was, id, f, ino, owner, purpose, f.size + size);
      f := f.(size := f.size + size);
      AllRecorded(c, own, cache, owner, files, rec, id, f, ino);
      purpose, loose := purpose[ino := Content(id, |rec[id]|)], loose - {ino};
      files, rec := files[id := f], rec[id := rec[id] + [ino]];
    }

    /** The three ranges of append_block. */
    method Record(id: nat, ino: nat) returns (ok: bool, f: File)
      requires Valid() && id in files && ino < WORD
      modifies this`nextIno, this`unused, this`cache, this`owner, this`purpose, this`loose
      ensures ok <==> files[id].nblks < LN && old(nextIno) + NewEntries(files[id].nblks) <= ninos
      ensures ok ==> Usable() && loose == old(loose) && nextIno == old(nextIno) + NewEntries(files[id].nblks)
      ensures ok ==> Appended(old(cache), old(owner), id, files[id], rec[id], ino, cache, owner, f)
      ensures ok ==> Continues(files[id], f) && Extended(old(owner), old(purpose), id, f, owner, purpose)
    {
      hide Records, Elsewhere, Assigned, Extended, Handed, AllEntries, AllRecord, Appended;
      f := files[id];
      if f.nblks >= LN {
        return false, f;
      }
      if f.nblks < L0 {
        f := AppendDirect(id, f, ino);
        ok := true;
      } else if f.nblks < L1 {
        ok, f := AppendSingle(id, f, ino);
      } else {
        ok, f := AppendDouble(id, f, ino);
      }
    }

    method AppendDirect(id: nat, f: File, ino: nat) returns (f': File)
      requires Valid() && id in files && f == files[id] && f.nblks < L0
      ensures Usable() && Appended(cache, owner, id, f, rec[id], ino, cache, owner, f')
      ensures Continues(f, f') && Extended(owner, purpose, id, f', owner, purpose)
    {
      DirectRecorded(cache, owner, id, f, rec[id], ino);
      return f.(direct := f.direct[f.nblks := ino], nblks := f.nblks + 1);
    }

    method AppendSingle(id: nat, f: File, ino: nat) returns (ok: bool, f': File)
      requires Valid() && id in files && f == files[id] && L0 <= f.nblks < L1 && ino < WORD
      modifies this`nextIno, this`unused, this`cache, this`owner, this`purpose, this`loose
      ensures ok <==> old(nextIno) + NewEntries(f.nblks) <= ninos
      ensures ok ==> nextIno == old(nextIno) + NewEntries(f.nblks)
      ensures ok ==>
        Usable() && loose == old(loose) && Appended(old(cache), old(owner), id, f, rec[id], ino, cache, owner, f')
      ensures ok ==> Continues(f, f') && Extended(old(owner), old(purpose), id, f', owner, purpose)
    {
      hide Records, Holds, Assigned, Handed, Elsewhere, Extended, AllEntries;
      ghost var c, own, was := cache, owner, purpose;
      SingleReady(c, own, id, f, rec[id]);
      var r := UpdateCache(f.l1, f.indirect, Single(id));
      if r.None? { return false, f; }
      SingleRecorded(c, own, id, f, rec[id], ino, r.value, cache, owner);
      SingleElsewhere(c, own, id, r.value, cache, owner, f.nblks - L0, ino);
      PutEntries(cache, r.value, f.nblks - L0, ino);
      cache := Put(cache, r.value, f.nblks - L0, ino);
      f' := f.(indirect := r.value, l1 := r.value, nblks := f.nblks + 1);
      OneEntry(own, was, id, f', r.value, Single(id), f.indirect == 0, owner, purpose);
      return true, f';
    }

    /** The two entries that append_block writes in the double indirect range. */
    method PutTwo(t: nat, q: nat, b: nat, j: nat, ino: nat)
      requires Usable() && t in cache && q < |cache[t]| && b in cache && j < |cache[b]| && t != b && ino < WORD
      modifies this`cache
      ensures Usable() && cache == Put(Put(old(cache), t, q, b), b, j, ino)
    {
      hide AllEntries, Handed;
      HandedBelow(ninos, nextIno, b);
      PutEntries(cache, t, q, b);
      PutEntries(Put(cache, t, q, b), b, j, ino);
      cache := Put(cache, t, q, b);
      cache := Put(cache, b, j, ino);
    }

    lemma KeysFit()
      requires Usable()
      ensures cache.Keys == owner.Keys && owner.Keys <= purpose.Keys && nextIno <= ninos
    {
    }

    method AppendDouble(id: nat, f: File, ino: nat) returns (ok: bool, f': File)
      requires Valid() && id in files && f == files[id] && L1 <= f.nblks < LN && ino < WORD
      modifies this`nextIno, this`unused, this`cache, this`owner, this`purpose, this`loose
      ensures ok ==>
        Usable() && loose == old(loose) && Appended(old(cache), old(owner), id, f, rec[id], ino, cache, owner, f')
      ensures ok ==> Continues(f, f') && Extended(old(owner), old(purpose), id, f', owner, purpose)
      ensures ok <==> old(nextIno) + NewEntries(f.nblks) <= ninos
      ensures ok ==> nextIno == old(nextIno) + NewEntries(f.nblks)
    {
      hide Records, Leaves, Elsewhere, Assigned, Handed, Extended, Provided, Plays, Usable;
      KeysFit();
      ghost var c, own, was := cache, owner, purpose;
      var q, j := (f.nblks - L1) / NENTRY, (f.nblks - L1) % NENTRY;
      DoubleReady(c, own, id, f, rec[id]);
      var top := UpdateCache(f.l2, f.dbIndirect, Top(id));
      if top.None? { return false, f; }
      var t := top.value;
      ghost var c1, own1, was1 := cache, owner, purpose;
      KeysFit();
      LeafSlot(c, own, id, f, rec[id], t, c1, own1);
      var leaf := UpdateCache(f.l1, cache[t][q], Leaf(id, q));
      if leaf.None? { return false, f; }
      var b := leaf.value;
      KeysFit();
      DoubleStep(c, own, was, id, f, rec[id], ino, t, c1, own1, was1, b, cache, owner, purpose);
      PutTwo(t, q, b, j, ino);
      return true, f.(dbIndirect := t, l2 := t, l1 := b, nblks := f.nblks + 1);
    }
  }

  /** How many new entry blocks a file of `n` blocks needs for one more block. */
  function NewEntries(n: nat): nat {
    if n < L1 then if n == L0 then 1 else 0
    else (if n == L1 then 1 else 0) + if (n - L1) % NENTRY == 0 then 1 else 0
  }

  lemma HandedBelow(ninos: nat, next: nat, b: nat)
    requires b in Handed(ninos, next) && FirstIno(ninos) <= next <= ninos <= MAX_NBLKS
    ensures b < ninos < WORD
  {
    assert IsHanded(ninos, next, b) && FirstIno(ninos) >= 2;
  }

  /** The slot of the leaf in the top block is empty exactly if the leaf is new. */
  lemma LeafSlot(c: Cache, owner: map<nat, Role>, id: nat, f: File, rec: seq<nat>, t: nat, c1: Cache,
                 owner1: map<nat, Role>)
    requires Records(c, owner, id, f, rec) && L1 <= f.nblks < LN
    requires Provided(c, owner, t, Top(id), f.dbIndirect == 0, c1, owner1)
    requires f.dbIndirect != 0 ==> t == f.dbIndirect
    ensures var q, r := (f.nblks - L1) / NENTRY, (f.nblks - L1) % NENTRY;
      && t in c1 && |c1[t]| == NENTRY && q < NENTRY && (c1[t][q] == 0 <==> r == 0)
      && (r != 0 ==> f.l1 == c1[t][q] && Plays(c1, owner1, c1[t][q], Leaf(id, q)))
  {
    DoubleReady(c, owner, id, f, rec);
  }

  lemma DoubleStep(c: Cache, owner: map<nat, Role>, purpose: map<nat, Purpose>, id: nat, f: File, rec: seq<nat>,
                   ino: nat,
                   t: nat, c1: Cache, owner1: map<nat, Role>, purpose1: map<nat, Purpose>,
                   b: nat, c2: Cache, owner2: map<nat, Role>, purpose2: map<nat, Purpose>)
    requires c.Keys == owner.Keys && owner.Keys <= purpose.Keys && owner1.Keys <= purpose1.Keys
    requires Records(c, owner, id, f, rec) && L1 <= |rec| < LN && (f.dbIndirect == 0 <==> |rec| == L1)
    requires Provided(c, owner, t, Top(id), f.dbIndirect == 0, c1, owner1) && (f.dbIndirect != 0 ==> t == f.dbIndirect)
    requires if f.dbIndirect == 0 then t !in purpose && purpose1 == purpose[t := Entry(Top(id))]
      else purpose1 == purpose
    requires var q, r := (|rec| - L1) / NENTRY, (|rec| - L1) % NENTRY;
      && q < NENTRY && t in c1 && |c1[t]| == NENTRY && (c1[t][q] == 0 <==> r == 0)
      && Provided(c1, owner1, b, Leaf(id, q), c1[t][q] == 0, c2, owner2) && (c1[t][q] != 0 ==> b == c1[t][q])
      && if c1[t][q] == 0 then b !in purpose1 && purpose2 == purpose1[b := Entry(Leaf(id, q))] else purpose2 == purpose1
    ensures t in c2 && b in c2 && |c2[t]| == NENTRY && |c2[b]| == NENTRY && t != b
    ensures var q, r := (|rec| - L1) / NENTRY, (|rec| - L1) % NENTRY;
      var f' := f.(dbIndirect := t, l2 := t, l1 := b, nblks := f.nblks + 1);
      && Appended(c, owner, id, f, rec, ino, Put(Put(c2, t, q, b), b, r, ino), owner2, f')
      && Extended(owner, purpose, id, f', owner2, purpose2)
  {
    hide Records, Elsewhere, Extended;
    var q, r := (|rec| - L1) / NENTRY, (|rec| - L1) % NENTRY;
    var f' := f.(dbIndirect := t, l2 := t, l1 := b, nblks := f.nblks + 1);
    DoubleRecorded(c, owner, id, f, rec, ino, t, c1, owner1, b, c2, owner2);
    DoubleElsewhere(c, owner, id, t, c1, owner1, b, c2, owner2, q, r, ino);
    RecordedLength(c, owner, id, f, rec);
    OneEntry(owner, purpose, id, f', t, Top(id), f.dbIndirect == 0, owner1, purpose1);
    OneEntry(owner1, purpose1, id, f', b, Leaf(id, q), c1[t][q] == 0, owner2, purpose2);
    ExtendedTwice(owner, purpose, id, f', owner1, purpose1, owner2, purpose2);
  }

  lemma RecordedLength(c: Cache, owner: map<nat, Role>, id: nat, f: File, rec: seq<nat>)
    requires Records(c, owner, id, f, rec)
    ensures f.nblks == |rec|
  {
  }

  lemma HandedNext(ninos: nat, next: nat)
    requires FirstIno(ninos) <= next
    ensures Handed(ninos, next + 1) == Handed(ninos, next) + {next} && next !in Handed(ninos, next)
  {
  }

  lemma NoZero(ninos: nat, next: nat, purpose: map<nat, Purpose>, loose: set<nat>)
    requires purpose.Keys + loose == Handed(ninos, next)
    ensures 0 !in purpose
  {
    assert FirstIno(ninos) >= 2;
    assert !IsHanded(ninos, next, 0);
    assert 0 !in Handed(ninos, next);
  }

  lemma OneEntry(owner: map<nat, Role>, purpose: map<nat, Purpose>, id: nat, f: File, b: nat, role: Role, isNew: bool,
                 owner': map<nat, Role>, purpose': map<nat, Purpose>)
    requires owner.Keys <= purpose.Keys
    requires isNew ==>
      b !in purpose && owner' == owner[b := role] && purpose' == purpose[b := Entry(role)] && NewEntry(id, f, b, role)
    requires !isNew ==> owner' == owner && purpose' == purpose
    ensures Extended(owner, purpose, id, f, owner', purpose')
  {
  }

  lemma ExtendedTwice(owner: map<nat, Role>, purpose: map<nat, Purpose>, id: nat, f: File, owner1: map<nat, Role>,
                      purpose1: map<nat, Purpose>,
                      owner2: map<nat, Role>, purpose2: map<nat, Purpose>)
    requires owner.Keys <= purpose.Keys
    requires Extended(owner, purpose, id, f, owner1, purpose1) && Extended(owner1, purpose1, id, f, owner2, purpose2)
    ensures Extended(owner, purpose, id, f, owner2, purpose2)
  {
  }

  lemma SingleElsewhere(c: Cache, owner: map<nat, Role>, id: nat, b: nat, c1: Cache, owner1: map<nat, Role>, j: nat,
                        ino: nat)
    requires c.Keys == owner.Keys && b in c1 && j < |c1[b]|
    requires exists isNew :: Provided(c, owner, b, Single(id), isNew, c1, owner1)
    ensures Elsewhere(c, owner, Put(c1, b, j, ino), owner1, id)
  {
  }

  lemma ExtendedKeys(owner: map<nat, Role>, purpose: map<nat, Purpose>, id: nat, f: File, owner': map<nat, Role>,
                     purpose': map<nat, Purpose>)
    requires Extended(owner, purpose, id, f, owner', purpose')
    ensures purpose.Keys <= purpose'.Keys
  {
  }

  /** Every file records its blocks and is no longer than they are. */
  ghost predicate AllRecord(c: Cache, owner: map<nat, Role>, files: map<nat, File>, rec: map<nat, seq<nat>>) {
    forall id :: id in files ==>
      id in rec && Records(c, owner, id, files[id], rec[id]) && files[id].size <= BLKSIZE * files[id].nblks
  }

  lemma AddedRecorded(c: Cache, owner: map<nat, Role>, files: map<nat, File>, rec: map<nat, seq<nat>>, id: nat,
                      ino: nat)
    requires AllRecord(c, owner, files, rec) && id !in files
    ensures AllRecord(c, owner, files[id := NewFile(ino)], rec[id := []])
  {
    assert Records(c, owner, id, NewFile(ino), []);
  }

  /** A number without a purpose is recorded nowhere. */
  lemma NewRecorded(files: map<nat, File>, rec: map<nat, seq<nat>>, owner: map<nat, Role>, purpose: map<nat, Purpose>,
                    b: nat)
    requires Assigned(files, rec, owner, purpose) && b !in purpose
    ensures forall x :: x in files ==> files[x].ino != b
    ensures forall x :: x in rec ==> b !in rec[x]
  {
  }

  function Least(a: nat, b: nat): nat {
    if a < b then a else b
  }

  /** File `id` records one more block, and the entry blocks of all other files are the same. */
  ghost predicate Appended(c: Cache, owner: map<nat, Role>, id: nat, f: File, rec: seq<nat>, ino: nat, c': Cache,
                           owner': map<nat, Role>, f': File) {
    Records(c', owner', id, f', rec + [ino]) && f'.size == f.size && Elsewhere(c, owner, c', owner', id)
  }

  lemma SingleReady(c: Cache, owner: map<nat, Role>, id: nat, f: File, rec: seq<nat>)
    requires Records(c, owner, id, f, rec) && L0 <= f.nblks < L1
    ensures |rec| == f.nblks && (f.indirect == 0 <==> |rec| == L0)
    ensures f.indirect != 0 ==> f.l1 == f.indirect && Plays(c, owner, f.indirect, Single(id))
  {
  }

  lemma DoubleReady(c: Cache, owner: map<nat, Role>, id: nat, f: File, rec: seq<nat>)
    requires Records(c, owner, id, f, rec) && L1 <= f.nblks < LN
    ensures |rec| == f.nblks && (f.dbIndirect == 0 <==> |rec| == L1)
    ensures var q, r := (|rec| - L1) / NENTRY, (|rec| - L1) % NENTRY;
      && q < NENTRY && r < NENTRY && (|rec| == L1 ==> r == 0)
      && (f.dbIndirect != 0 ==>
        && f.l2 == f.dbIndirect && Plays(c, owner, f.dbIndirect, Top(id))
        && (c[f.dbIndirect][q] == 0 <==> r == 0)
        && (r != 0 ==> f.l1 == c[f.dbIndirect][q] && Plays(c, owner, f.l1, Leaf(id, q))))
  {
    Quotient(|rec|);
    if |rec| > L1 { assert LeafOk(c, owner, id, f, rec, (|rec| - L1) / NENTRY); }
  }

  lemma AllRecorded(c: Cache, owner: map<nat, Role>, c': Cache, owner': map<nat, Role>, files: map<nat, File>,
                    rec: map<nat, seq<nat>>,
                    id: nat, f': File, ino: nat)
    requires AllRecord(c, owner, files, rec) && id in files && f'.nblks == files[id].nblks + 1
    requires f'.size <= files[id].size + BLKSIZE
    requires Records(c', owner', id, f'.(size := files[id].size), rec[id] + [ino])
    requires Elsewhere(c, owner, c', owner', id)
    ensures AllRecord(c', owner', files[id := f'], rec[id := rec[id] + [ino]])
  {
    hide Records, Elsewhere;
    forall x | x in files && x != id ensures Records(c', owner', x, files[x], rec[x]) {
      OtherRecords(c, owner, c', owner', id, x, files[x], rec[x]);
    }
    SizeIrrelevant(c', owner', id, f', rec[id] + [ino], files[id].size);
  }

  lemma SizeIrrelevant(c: Cache, owner: map<nat, Role>, id: nat, f: File, rec: seq<nat>, size: nat)
    requires Records(c, owner, id, f.(size := size), rec)
    ensures Records(c, owner, id, f, rec)
  {
    if |rec| > L1 {
      forall k | 0 <= k < NENTRY ensures LeafOk(c, owner, id, f, rec, k) {
        assert LeafOk(c, owner, id, f.(size := size), rec, k);
      }
    }
  }

  /** The first block after the superblock, the root inode and the freemap. */
  function FirstIno(ninos: nat): nat {
    2 + (ninos + BLKBITS - 1) / BLKBITS
  }
}
