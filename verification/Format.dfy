/** A new volume, and the metadata as it is read back from the disk. */
module Format {
  import opened Base
  import opened Bitmap
  import opened Codec
  import opened Layout
  import opened Volume
  import opened VolumeInv
  import opened VolumeSpace
  import Disk
  import Paths

  /** The bitmap with the first `k` bits set. */
  function SetFirst(bmap: seq<byte>, k: nat): (r: seq<byte>)
    requires k <= 8 * |bmap|
    ensures |r| == |bmap|
  {
    if k == 0 then bmap else SetBit(SetFirst(bmap, k - 1), k - 1)
  }

  lemma {:induction false} SetFirstSets(bmap: seq<byte>, k: nat)
    requires k <= 8 * |bmap|
    ensures forall b | 0 <= b < 8 * |bmap| :: IsSet(SetFirst(bmap, k), b) <==> b < k || IsSet(bmap, b)
  {
    if k > 0 {
      SetFirstSets(bmap, k - 1);
      SetBitSets(SetFirst(bmap, k - 1), k - 1);
    }
  }

  lemma FirstTwoSet(bmap: seq<byte>)
    requires |bmap| > 0
    ensures SetFirst(bmap, 2) == SetBit(SetBit(bmap, 0), 1)
  {
    assert SetFirst(bmap, 1) == SetBit(bmap, 0);
  }

  lemma OneMoreSet(bmap: seq<byte>, k: nat)
    requires k < 8 * |bmap|
    ensures SetFirst(bmap, k + 1) == SetBit(SetFirst(bmap, k), k)
  {
  }

  lemma NoBitOfZeros(n: nat, b: nat)
    requires b < 8 * n
    ensures !IsSet(Zeros(n), b)
  {
    assert Zeros(n)[b / 8] == 0;
  }

  /** An inode of a disk that was never written. */
  function UnusedInode(): Inode {
    Inode(0, 0, seq(INODE_NUM_BLKS, _ => 0), seq(4, _ => 0))
  }

  /** `fs_format` of a disk that was never written. */
  function Formatted(): Vol {
    Vol(SetFirst(Zeros(BLOCK_SIZE), 10), SetFirst(Zeros(BLOCK_SIZE), 2),
        seq(ITAB_SIZE, _ => UnusedInode())[1 := InodeInit(FS_DIR)],
        seq(ITAB_SIZE, _ => Free)[1 := Dir([])])
  }

  lemma {:induction false} NoEntries(objs: seq<Obj>)
    requires forall i | 0 <= i < |objs| :: objs[i] == Free || objs[i] == Dir([])
    ensures EntryCount(objs) == 0
  {
    if objs != [] {
      NoEntries(objs[..|objs| - 1]);
    }
  }

  /** A new volume keeps the invariant, and no block of it is lost. */
  lemma FormattedKeepsInv(n: nat)
    requires 10 <= n <= 8 * BLOCK_SIZE
    ensures Inv(Formatted(), n) && AllNamed(Formatted())
  {
    hide SetFirst, IsSet, EntryCount;
    var v := Formatted();
    FormattedBits();
    assert Wf(v);
    assert Top(v) == 2;
    NoEntries(v.objs);
  }

  lemma FormattedBits()
    ensures var v := Formatted();
            && |v.bmap| == |v.ibmap| == BLOCK_SIZE
            && (forall b: nat | b < 8 * BLOCK_SIZE :: IsSet(v.bmap, b) <==> b < 10)
            && (forall b: nat | b < 8 * BLOCK_SIZE :: IsSet(v.ibmap, b) <==> b < 2)
  {
    hide SetFirst, IsSet;
    SetFirstSets(Zeros(BLOCK_SIZE), 10);
    SetFirstSets(Zeros(BLOCK_SIZE), 2);
    forall b: nat | b < 8 * BLOCK_SIZE ensures !IsSet(Zeros(BLOCK_SIZE), b) {
      NoBitOfZeros(BLOCK_SIZE, b);
    }
  }

  lemma FormattedIsHeld(known: Known, n: nat)
    requires 10 <= n <= 8 * BLOCK_SIZE
    ensures Formatted() in Held(known, n) && Formatted().objs == Objs(known, Formatted().itab)
  {
    FormattedKeepsInv(n);
    var v := Formatted();
    hide Inv, SetFirst, ObjOf, Objs;
    forall i | 0 <= i < ITAB_SIZE ensures v.objs[i] == ObjOf(known, v.itab[i]) {
      EmptyObj(known, v.itab[i]);
    }
    assert v.objs == Objs(known, v.itab);
  }

  lemma EmptyObj(known: Known, i: Inode)
    requires i.size == 0 && i.itype != FS_FILE
    ensures ObjOf(known, i) == if i.itype == FS_DIR then Dir([]) else Free
  {
  }

  // ----- loading -----

  /** The first `j` blocks of the inode table, one behind the other. */
  function TableOnDisk(d: Disk.Disk, j: nat): (b: seq<byte>)
    requires Disk.Ok(d) && 2 + j <= Disk.Size(d)
    ensures |b| == BLOCK_SIZE * j
  {
    if j == 0 then [] else TableOnDisk(d, j - 1) + Disk.Read(d, 2 + (j - 1))
  }

  lemma StoredPart(d: Disk.Disk, known: Known, table: seq<byte>, j: nat)
    requires Disk.Knows(d, known) && |table| == ITAB_NUM_BLKS * BLOCK_SIZE && j < ITAB_NUM_BLKS
    requires TablePart(known, table, j)
    ensures 2 + j < Disk.Size(d) && Disk.Read(d, 2 + j) == table[BLOCK_SIZE * j..BLOCK_SIZE * j + BLOCK_SIZE]
  {
    hide Disk.Read;
    assert 2 + j in known;
  }

  /** What `fsi_store_fsdata` wrote is the table that is read. */
  lemma {:induction false} TableIsStored(d: Disk.Disk, known: Known, table: seq<byte>, j: nat)
    requires Disk.Knows(d, known) && 10 <= Disk.Size(d) && j <= ITAB_NUM_BLKS
    requires |table| == ITAB_NUM_BLKS * BLOCK_SIZE
    requires forall i | 0 <= i < ITAB_NUM_BLKS :: TablePart(known, table, i)
    ensures TableOnDisk(d, j) == table[..BLOCK_SIZE * j]
  {
    if j > 0 {
      TableIsStored(d, known, table, j - 1);
      StoredPart(d, known, table, j - 1);
      hide Disk.Knows, TablePart;
      assert table[..BLOCK_SIZE * j] ==
             table[..BLOCK_SIZE * (j - 1)] + table[BLOCK_SIZE * (j - 1)..BLOCK_SIZE * (j - 1) + BLOCK_SIZE];
    }
  }

  /** Loading gives back the volume whose metadata were stored. */
  lemma LoadGivesSaved(d: Disk.Disk, known: Known, saved: Vol)
    requires Disk.Knows(d, known) && saved in Saved(known, Disk.Size(d))
    ensures Disk.Ok(d) && 10 <= Disk.Size(d)
    ensures Disk.Read(d, 0) == saved.bmap && Disk.Read(d, 1) == saved.ibmap
    ensures TableOfBytes(TableOnDisk(d, ITAB_NUM_BLKS)) == saved.itab
  {
    hide Owned, Prefix, Tree, TableOfBytes;
    var table := TableBytes(saved.itab);
    TableIsStored(d, known, table, ITAB_NUM_BLKS);
    assert table[..BLOCK_SIZE * ITAB_NUM_BLKS] == table;
    TableBytesRoundTrip(saved.itab);
  }

  lemma {:induction false} BlankTable(d: Disk.Disk, j: nat)
    requires Disk.Ok(d) && 2 + j <= Disk.Size(d)
    requires forall no | 0 <= no < Disk.Size(d) :: Disk.Read(d, no) == Zeros(BLOCK_SIZE)
    ensures TableOnDisk(d, j) == Zeros(BLOCK_SIZE * j)
  {
    if j > 0 {
      BlankTable(d, j - 1);
    }
  }

  lemma ZeroByte()
    ensures ValueOf(0) == 0
  {
  }

  lemma {:induction false} ZeroWords(n: nat)
    ensures DecodeWords(Zeros(4 * n)) == seq(n, _ => 0)
  {
    hide ValueOf;
    if n > 0 {
      ZeroByte();
      assert Zeros(4 * n)[4..] == Zeros(4 * (n - 1));
      ZeroWords(n - 1);
    }
  }

  lemma {:induction false} ZeroTable(n: nat)
    ensures TableOfWords(seq(INODE_WORDS * n, _ => 0)) == seq(n, _ => UnusedInode())
  {
    if n > 0 {
      var ws := seq(INODE_WORDS * n, _ => 0);
      assert ws[INODE_WORDS..] == seq(INODE_WORDS * (n - 1), _ => 0);
      ZeroTable(n - 1);
      assert ws[2..12] == UnusedInode().blocks && ws[12..16] == UnusedInode().reserved;
    }
  }

  /** A disk that was never written loads as empty bitmaps and unused inodes. */
  lemma BlankLoads(d: Disk.Disk)
    requires Disk.Ok(d) && 10 <= Disk.Size(d)
    requires forall no | 0 <= no < Disk.Size(d) :: Disk.Read(d, no) == Zeros(BLOCK_SIZE)
    ensures TableOfBytes(TableOnDisk(d, ITAB_NUM_BLKS)) == seq(ITAB_SIZE, _ => UnusedInode())
  {
    BlankTable(d, ITAB_NUM_BLKS);
    ZeroWords(INODE_WORDS * ITAB_SIZE);
    ZeroTable(ITAB_SIZE);
    assert Zeros(BLOCK_SIZE * ITAB_NUM_BLKS) == Zeros(4 * (INODE_WORDS * ITAB_SIZE));
  }

  // ----- truncation -----

  lemma TruncateIsHeld(known: Known, v: Vol, n: nat, file: nat)
    requires v in Held(known, n) && file < ITAB_SIZE
    ensures var w := Truncate(v, n, file).vol;
            w in Held(known, n) && w.objs == Objs(known, w.itab)
  {
    TruncateKeepsInv(v, n, file);
  }

  /** The first `k` blocks of a file are in the bitmap. */
  ghost predicate BlocksBounded(v: Vol, n: nat, file: nat, k: nat) {
    && file < |v.itab| && |v.bmap| == BLOCK_SIZE && k <= Used(v.itab[file]) <= |v.itab[file].blocks|
    && forall j | 0 <= j < k :: v.itab[file].blocks[j] < 8 * BLOCK_SIZE
  }

  lemma BlocksCleared(v: Vol, n: nat, file: nat, k: nat)
    requires Inv(v, n) && file < ITAB_SIZE && k <= Used(v.itab[file])
    ensures BlocksBounded(v, n, file, k)
    ensures ClearBlocks(v.bmap, v.itab[file].blocks[..k]) ==
            if k == 0 then v.bmap
            else ClearBit(ClearBlocks(v.bmap, v.itab[file].blocks[..k - 1]), v.itab[file].blocks[k - 1])
  {
    hide Prefix, Tree;
    assert forall j: nat | j < k :: Slot(v, file, j);
    if k > 0 {
      assert v.itab[file].blocks[..k][..k - 1] == v.itab[file].blocks[..k - 1];
    }
  }

  // ----- formatting again -----

  /** `fs_format`: marks the reserved blocks and inodes, and empties the root. */
  function Reformatted(v: Vol): Vol
    requires |v.bmap| == |v.ibmap| == BLOCK_SIZE && |v.itab| == |v.objs| == ITAB_SIZE
  {
    v.(bmap := SetFirst(v.bmap, 10), ibmap := SetFirst(v.ibmap, 2),
       itab := v.itab[1 := InodeInit(FS_DIR)], objs := v.objs[1 := Dir([])])
  }

  lemma {:induction false} SetFirstAgain(bmap: seq<byte>, k: nat)
    requires k <= 8 * |bmap| && forall b | 0 <= b < k :: IsSet(bmap, b)
    ensures SetFirst(bmap, k) == bmap
  {
    if k > 0 {
      SetFirstAgain(bmap, k - 1);
      SetAgain(bmap, k - 1);
    }
  }

  /** All marks stay, and every inode but the root stays with what it holds. */
  lemma ReformattedIs(v: Vol, n: nat)
    requires Inv(v, n)
    ensures |v.bmap| == |v.ibmap| == BLOCK_SIZE && |v.itab| == |v.objs| == ITAB_SIZE && v.objs[1].Dir?
    ensures Reformatted(v) == v.(itab := v.itab[1 := InodeInit(FS_DIR)], objs := v.objs[1 := Dir([])])
    ensures Top(Reformatted(v)) == Top(v) && Wf(Reformatted(v)) && Owned(Reformatted(v), n)
  {
    SetFirstAgain(v.bmap, 10);
    SetFirstAgain(v.ibmap, 2);
    hide SetFirst, IsSet, Tree;
    var w := Reformatted(v);
    assert Wf(w);
    forall i: nat, k: nat | Slot(w, i, k) ensures Slot(v, i, k) && w.itab[i] == v.itab[i] {
    }
  }

  /** The reformatted volume keeps the invariant, but names no inode. */
  lemma ReformattedKeepsInv(v: Vol, n: nat)
    requires Inv(v, n)
    ensures |v.bmap| == |v.ibmap| == BLOCK_SIZE && |v.itab| == |v.objs| == ITAB_SIZE
    ensures Inv(Reformatted(v), n) && (AllNamed(Reformatted(v)) <==> Top(v) == 2)
  {
    ReformattedIs(v, n);
    hide SetFirst, IsSet, Owned, EntryCount;
    var w := Reformatted(v);
    EntryCountUpdate(v.objs, 1, Dir([]));
    forall d: nat, e: nat | IsEntry(w, d, e) ensures IsEntry(v, d, e) && w.objs[d] == v.objs[d] {
    }
    assert Top(v) > 2 ==> !HasEntry(w, 2);
  }

  /**
   * Formatting a volume in use frees nothing: all files can still be read by number and none is
   * found by name, and the blocks of the root are lost. The volume stays sound, with every inode
   * named exactly if there was none but the root.
   */
  lemma ReformattedIff(v: Vol, n: nat)
    requires Inv(v, n)
    ensures |v.bmap| == |v.ibmap| == BLOCK_SIZE && |v.itab| == |v.objs| == ITAB_SIZE
    ensures var w := Reformatted(v);
            && Inv(w, n) && Wf(w)
            && (forall file, offset, count ::
                  Volume.Read(w, file, offset, count) == Volume.Read(v, file, offset, count))
            && (forall path: seq<byte> | Paths.Tokens(path) != [] :: Paths.Lookup(w, path).rc != 1)
            && Lost(w, n) == Lost(v, n) + Used(v.itab[1])
            && (AllNamed(w) <==> Top(v) == 2)
  {
    ReformattedIs(v, n);
    ReformattedKeepsInv(v, n);
    var w := Reformatted(v);
    SumUsedUpdate(v.itab, 1, InodeInit(FS_DIR));
    hide SetFirst, IsSet, CountSet, SumUsed, Inv, AllNamed;
    forall path: seq<byte> | Paths.Tokens(path) != [] ensures Paths.Lookup(w, path).rc != 1 {
      assert Search([], Paths.Tokens(path)[0], 0) == None;
    }
  }

  lemma ReformattedFits(v: Vol, n: nat)
    requires Inv(v, n)
    ensures |v.bmap| == |v.ibmap| == BLOCK_SIZE && |v.itab| == |v.objs| == ITAB_SIZE
    ensures forall k | 0 <= k < ITAB_SIZE :: InodeFits(Reformatted(v).itab[k])
  {
    ReformattedIs(v, n);
    hide Inv, SetFirst;
  }

  /** The disk after the metadata of the reformatted volume were written. */
  lemma ReformattedIsHeld(was: Known, known: Known, v: Vol, n: nat)
    requires v in Held(was, n)
    requires |v.bmap| == |v.ibmap| == BLOCK_SIZE && |v.itab| == |v.objs| == ITAB_SIZE
    requires forall k | 0 <= k < ITAB_SIZE :: InodeFits(Reformatted(v).itab[k])
    requires forall b | b in was :: b in known
    requires forall b: nat | b >= 10 :: Contents(known, b) == Contents(was, b)
    requires 0 in known && known[0] == Reformatted(v).bmap && 1 in known && known[1] == Reformatted(v).ibmap
    requires forall j | 0 <= j < ITAB_NUM_BLKS :: TablePart(known, TableBytes(Reformatted(v).itab), j)
    ensures var w := Reformatted(v);
            && w == Vol(w.bmap, w.ibmap, w.itab, Objs(known, w.itab)) && Wf(w)
            && w in Saved(known, n) && w in Held(known, n)
  {
    ReformattedIs(v, n);
    ReformattedKeepsInv(v, n);
    HoldsFrame(was, known, v, n);
    var w := Reformatted(v);
    hide Inv, SetFirst, TableBytes, TablePart, FileBytes, DirEntries;
    forall i | 0 <= i < ITAB_SIZE ensures w.objs[i] == ObjOf(known, w.itab[i]) {
      if i == 1 {
        EmptyRoot(known);
      }
    }
  }

  lemma EmptyRoot(known: Known)
    ensures ObjOf(known, InodeInit(FS_DIR)) == Dir([])
  {
  }

  lemma FormattedFits()
    ensures forall k | 0 <= k < ITAB_SIZE :: InodeFits(Formatted().itab[k])
  {
  }

  lemma FormattedIsSaved(known: Known, n: nat)
    requires 10 <= n <= 8 * BLOCK_SIZE && forall k | 0 <= k < ITAB_SIZE :: InodeFits(Formatted().itab[k])
    requires 0 in known && known[0] == Formatted().bmap && 1 in known && known[1] == Formatted().ibmap
    requires forall j | 0 <= j < ITAB_NUM_BLKS :: TablePart(known, TableBytes(Formatted().itab), j)
    ensures Formatted() in Saved(known, n) && Formatted() in Held(known, n)
    ensures Formatted().objs == Objs(known, Formatted().itab)
  {
    FormattedIsHeld(known, n);
    FormattedKeepsInv(n);
    hide SetFirst, Formatted, TableBytes, TablePart, Owned, Prefix, Tree;
  }
}
