/** How a volume lies on the disk: metadata in blocks 0 to 9, the rest behind the inodes. */
module Layout {
  import opened Base
  import opened Bitmap
  import opened Codec
  import opened Volume

  type Known = map<nat, Block>

  /** The contents of a block that was written; anything for another one. */
  function Contents(known: Known, b: nat): (block: Block)
    ensures |block| == BLOCK_SIZE
  {
    if b in known && |known[b]| == BLOCK_SIZE then known[b] else Zeros(BLOCK_SIZE)
  }

  function SlotContents(known: Known, i: Inode, k: nat): (block: Block)
    ensures |block| == BLOCK_SIZE
  {
    if k < |i.blocks| then Contents(known, i.blocks[k]) else Zeros(BLOCK_SIZE)
  }

  function FileBytes(known: Known, i: Inode): (bytes: seq<byte>)
    ensures |bytes| == i.size
  {
    seq(i.size, j requires 0 <= j => SlotContents(known, i, j / BLOCK_SIZE)[j % BLOCK_SIZE])
  }

  lemma FileByte(known: Known, i: Inode, j: nat)
    requires j < i.size
    ensures FileBytes(known, i)[j] == SlotContents(known, i, j / BLOCK_SIZE)[j % BLOCK_SIZE]
  {
  }

  function DirEntries(known: Known, i: Inode): (entries: seq<Dentry>)
    ensures |entries| == i.size / DENTRY_SIZE
  {
    seq(i.size / DENTRY_SIZE, e requires 0 <= e =>
      DentryAt(SlotContents(known, i, e / DIR_PAGE_ENTRIES), e % DIR_PAGE_ENTRIES))
  }

  lemma DirEntry(known: Known, i: Inode, e: nat)
    requires e < i.size / DENTRY_SIZE
    ensures DirEntries(known, i)[e] ==
            DentryAt(SlotContents(known, i, e / DIR_PAGE_ENTRIES), e % DIR_PAGE_ENTRIES)
  {
  }

  function ObjOf(known: Known, i: Inode): Obj {
    if i.itype == FS_FILE then File(FileBytes(known, i))
    else if i.itype == FS_DIR then Dir(DirEntries(known, i))
    else Free
  }

  function Objs(known: Known, itab: seq<Inode>): (objs: seq<Obj>)
    ensures |objs| == |itab|
    ensures forall i | 0 <= i < |itab| :: objs[i] == ObjOf(known, itab[i])
  {
    seq(|itab|, i requires 0 <= i < |itab| => ObjOf(known, itab[i]))
  }

  /** An inode holds what the blocks in use hold. */
  lemma ObjFrame(known: Known, known': Known, i: Inode, i': Inode)
    requires i.itype == i'.itype && i.size == i'.size
    requires forall k | 0 <= k < Used(i) :: SlotContents(known, i, k) == SlotContents(known', i', k)
    ensures ObjOf(known, i) == ObjOf(known', i')
  {
    forall j | 0 <= j < i.size ensures FileBytes(known, i)[j] == FileBytes(known', i')[j] {
      assert j / BLOCK_SIZE < Used(i);
    }
    forall e | 0 <= e < i.size / DENTRY_SIZE ensures DirEntries(known, i)[e] == DirEntries(known', i')[e] {
      assert DENTRY_SIZE * e < i.size && e / DIR_PAGE_ENTRIES == DENTRY_SIZE * e / BLOCK_SIZE;
    }
  }

  /** Every block in use was written. */
  ghost predicate SlotsKnown(known: Known, itab: seq<Inode>) {
    forall i: nat, k: nat | i < |itab| && k < Used(itab[i]) && k < |itab[i].blocks| :: itab[i].blocks[k] in known
  }

  /** Every block in use by the inode was written. */
  ghost predicate Readable(known: Known, i: Inode) {
    Used(i) <= |i.blocks| && forall k | 0 <= k < Used(i) :: i.blocks[k] in known
  }

  /** Block `2 + j` holds the `j`th part of the inode table. */
  predicate TablePart(known: Known, table: seq<byte>, j: nat)
    requires |table| == ITAB_NUM_BLKS * BLOCK_SIZE && j < ITAB_NUM_BLKS
  {
    2 + j in known && known[2 + j] == table[BLOCK_SIZE * j..BLOCK_SIZE * j + BLOCK_SIZE]
  }

  /** Blocks 0 to 9 hold the bitmaps and the inode table. */
  ghost predicate MetaOnDisk(known: Known, v: Vol)
    requires Wf(v)
  {
    && 0 in known && known[0] == v.bmap
    && 1 in known && known[1] == v.ibmap
    && forall j | 0 <= j < ITAB_NUM_BLKS :: TablePart(known, TableBytes(v.itab), j)
  }

  /** `v` is what the disk holds, metadata apart. */
  ghost predicate Holds(known: Known, v: Vol) {
    |v.itab| == |v.objs| && v.objs == Objs(known, v.itab) && SlotsKnown(known, v.itab)
  }

  /** The volumes on `n` blocks that the disk holds, metadata apart. */
  ghost function Held(known: Known, n: nat): iset<Vol> {
    iset v: Vol | Inv(v, n) && Holds(known, v)
  }

  /** Those whose metadata is on the disk as well. */
  ghost function Saved(known: Known, n: nat): iset<Vol> {
    iset v: Vol | v in Held(known, n) && MetaOnDisk(known, v)
  }

  /** Writing metadata blocks does not touch what the inodes hold. */
  lemma HoldsFrame(known: Known, known': Known, v: Vol, n: nat)
    requires Inv(v, n) && Holds(known, v)
    requires forall b | b in known :: b in known'
    requires forall b: nat | b >= 10 :: Contents(known', b) == Contents(known, b)
    ensures Holds(known', v)
  {
    forall i | 0 <= i < ITAB_SIZE ensures ObjOf(known', v.itab[i]) == ObjOf(known, v.itab[i]) {
      forall k | 0 <= k < Used(v.itab[i])
        ensures SlotContents(known, v.itab[i], k) == SlotContents(known', v.itab[i], k)
      {
        if k < INODE_NUM_BLKS {
          assert Slot(v, i, k);
        }
      }
      ObjFrame(known, known', v.itab[i], v.itab[i]);
    }
  }
}
