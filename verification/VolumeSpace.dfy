/** Free blocks: when a write succeeds, and that only a write that fails for lack of space loses any. */
module VolumeSpace {
  import opened Base
  import opened Bitmap
  import opened Codec
  import opened Volume
  import opened VolumeInv

  function FreeBlocks(v: Vol, n: nat): int
    requires n <= 8 * |v.bmap|
  {
    n - CountSet(v.bmap, n)
  }

  function SumUsed(itab: seq<Inode>): nat {
    if itab == [] then 0 else SumUsed(itab[..|itab| - 1]) + Used(itab[|itab| - 1])
  }

  /** Blocks marked in the bitmap that are neither reserved nor part of any file or directory. */
  function Lost(v: Vol, n: nat): int
    requires n <= 8 * |v.bmap|
  {
    CountSet(v.bmap, n) - 10 - SumUsed(v.itab)
  }

  lemma {:induction false} SumUsedUpdate(itab: seq<Inode>, i: nat, x: Inode)
    requires i < |itab|
    ensures SumUsed(itab[i := x]) == SumUsed(itab) - Used(itab[i]) + Used(x)
  {
    var k := |itab| - 1;
    if i < k {
      assert itab[i := x][..k] == itab[..k][i := x];
      SumUsedUpdate(itab[..k], i, x);
    } else {
      assert itab[i := x][..k] == itab[..k];
    }
  }

  /** The allocation loop succeeds exactly when there are enough free blocks. */
  lemma {:induction false} AllocateSucceedsIff(bmap: seq<byte>, blocks: seq<nat>, k: nat, m: nat, n: nat)
    requires n <= 8 * |bmap| && k + m <= |blocks|
    ensures Allocate(bmap, blocks, k, m, n).ok <==> m <= n - CountSet(bmap, n)
    decreases m
  {
    CountAll(bmap, n);
    if m > 0 && FirstFree(bmap, 0, n).Some? {
      var b := FirstFree(bmap, 0, n).value;
      SetBitSets(bmap, b);
      CountChanges(bmap, SetBit(bmap, b), b, n);
      AllocateSucceedsIff(SetBit(bmap, b), blocks[k := b], k + 1, m - 1, n);
    }
  }

  /** The blocks a write would have to add. */
  function Lacks(v: Vol, file: nat, offset: nat, count: nat): nat
    requires Wf(v) && file < ITAB_SIZE
  {
    Required(v.itab[file].size, Min(offset, v.itab[file].size), count)
  }

  /** The disk-full return of `fs_write`. */
  predicate DiskFull(v: Vol, n: nat, file: nat, offset: nat, count: nat)
    requires Wf(v) && n <= 8 * BLOCK_SIZE
  {
    && IsFile(v, file)
    && Lacks(v, file, offset, count) <= INODE_NUM_BLKS - Used(v.itab[file])
    && Lacks(v, file, offset, count) > FreeBlocks(v, n)
  }

  /** A write succeeds exactly when its file has the slots and the disk the blocks that it lacks. */
  lemma WriteSucceedsIff(v: Vol, n: nat, file: nat, offset: nat, data: seq<byte>)
    requires Inv(v, n)
    ensures Write(v, n, file, offset, data).rc == 0
       <==> IsFile(v, file)
            && Lacks(v, file, offset, |data|) <= INODE_NUM_BLKS - Used(v.itab[file])
            && Lacks(v, file, offset, |data|) <= FreeBlocks(v, n)
  {
    if IsFile(v, file) && Lacks(v, file, offset, |data|) <= INODE_NUM_BLKS - Used(v.itab[file]) {
      var i := v.itab[file];
      AllocateSucceedsIff(v.bmap, i.blocks, Used(i), Lacks(v, file, offset, |data|), n);
    }
  }

  /**
   * A failed write leaves every file and directory as it was. It leaves the whole volume as it was
   * exactly if it did not run out of blocks, or had none to begin with; otherwise every block that
   * was still free is marked and lost.
   */
  lemma FailedWriteIsAtomicIff(v: Vol, n: nat, file: nat, offset: nat, data: seq<byte>)
    requires Inv(v, n) && Write(v, n, file, offset, data).rc != 0
    ensures var w := Write(v, n, file, offset, data).vol;
            && w.objs == v.objs && w.ibmap == v.ibmap
            && (forall i | 0 <= i < ITAB_SIZE :: w.itab[i].size == v.itab[i].size)
            && (w == v <==> !DiskFull(v, n, file, offset, |data|) || FreeBlocks(v, n) == 0)
            && (DiskFull(v, n, file, offset, |data|) ==>
                  FreeBlocks(w, n) == 0 && Lost(w, n) == Lost(v, n) + FreeBlocks(v, n))
  {
    WriteSucceedsIff(v, n, file, offset, data);
    if DiskFull(v, n, file, offset, |data|) {
      var i, m, w := v.itab[file], Lacks(v, file, offset, |data|), Write(v, n, file, offset, data).vol;
      AllocateTakes(v.bmap, i.blocks, Used(i), m, n);
      SumUsedUpdate(v.itab, file, w.itab[file]);
      CountAll(v.bmap, n);
      if FreeBlocks(v, n) == 0 {
        AllocateNothing(v.bmap, i.blocks, Used(i), m, n);
        assert v.itab[file := i] == v.itab;
      }
    }
  }

  lemma AllocateNothing(bmap: seq<byte>, blocks: seq<nat>, k: nat, m: nat, n: nat)
    requires n <= 8 * |bmap| && k + m <= |blocks| && CountSet(bmap, n) == n
    ensures Allocate(bmap, blocks, k, m, n) == Allocated(bmap, blocks, m == 0)
  {
    CountAll(bmap, n);
  }

  /** A write that succeeds takes exactly the blocks it lacks. */
  lemma WriteLosesNothing(v: Vol, n: nat, file: nat, offset: nat, data: seq<byte>)
    requires Inv(v, n) && Write(v, n, file, offset, data).rc == 0
    ensures var w := Write(v, n, file, offset, data).vol;
            && Lost(w, n) == Lost(v, n)
            && FreeBlocks(w, n) == FreeBlocks(v, n) - Lacks(v, file, offset, |data|)
  {
    var i, m, w := v.itab[file], Lacks(v, file, offset, |data|), Write(v, n, file, offset, data).vol;
    AllocateTakes(v.bmap, i.blocks, Used(i), m, n);
    RequiredIs(i.size, Min(offset, i.size), |data|);
    assert w.itab == v.itab[file := w.itab[file]];
    SumUsedUpdate(v.itab, file, w.itab[file]);
  }

  lemma MakeLosesNothing(v: Vol, n: nat, dir: nat, key: seq<byte>, name: seq<byte>, itype: nat)
    requires Inv(v, n) && CString(name) && itype in {FS_DIR, FS_FILE}
    ensures Lost(Make(v, n, dir, key, name, itype).vol, n) == Lost(v, n)
  {
    MadeIs(v, n, dir, key, name, itype);
    hide Make, Entered, CountSet, SumUsed;
    var made := Make(v, n, dir, key, name, itype);
    if made.rc == 0 {
      EnteredLosesNothing(v, made.vol, n, dir, name, itype);
    }
  }

  lemma EnteredLosesNothing(v: Vol, w: Vol, n: nat, dir: nat, name: seq<byte>, itype: nat)
    requires Inv(v, n) && Entered(v, w, n, dir, name, itype)
    ensures Lost(w, n) == Lost(v, n)
  {
    hide Tree, Owned, FirstFree, CountSet, SumUsed, SetBit;
    assert v.objs[Top(v)] == Free && v.itab[dir].size % DENTRY_SIZE == 0;
    MadeCounted(v.bmap, w.bmap, n, v.itab[dir].size % BLOCK_SIZE == 0);
    MadeSummed(v.itab, dir, w.itab[dir], Top(v), InodeInit(itype));
  }

  lemma MadeSummed(itab: seq<Inode>, dir: nat, i: Inode, id: nat, made: Inode)
    requires dir < |itab| && id < |itab| && dir != id
    requires itab[id].size == 0 && made.size == 0
    requires i.size == itab[dir].size + DENTRY_SIZE && itab[dir].size % DENTRY_SIZE == 0
    ensures SumUsed(itab[dir := i][id := made]) ==
            SumUsed(itab) + (if itab[dir].size % BLOCK_SIZE == 0 then 1 else 0)
  {
    hide SumUsed, ToBlocks;
    SumUsedUpdate(itab, dir, i);
    SumUsedUpdate(itab[dir := i], id, made);
    UsedAfterEntry(itab[dir].size);
    UsedAfterEntry(0);
  }

  lemma MadeCounted(bmap: seq<byte>, bmap': seq<byte>, n: nat, full: bool)
    requires n <= 8 * |bmap|
    requires full ==> FirstFree(bmap, 0, n).Some?
    requires bmap' == if full then SetBit(bmap, FirstFree(bmap, 0, n).value) else bmap
    ensures CountSet(bmap', n) == CountSet(bmap, n) + (if full then 1 else 0)
  {
    if full {
      var b := FirstFree(bmap, 0, n).value;
      SetBitSets(bmap, b);
      CountChanges(bmap, bmap', b, n);
    }
  }

  lemma {:induction false} ClearBlocksCounted(bmap: seq<byte>, blocks: seq<nat>, n: nat)
    requires n <= 8 * |bmap|
    requires forall k | 0 <= k < |blocks| :: blocks[k] < n && IsSet(bmap, blocks[k])
    requires forall k, l | 0 <= k < l < |blocks| :: blocks[k] != blocks[l]
    ensures CountSet(ClearBlocks(bmap, blocks), n) == CountSet(bmap, n) - |blocks|
  {
    if blocks != [] {
      var k := |blocks| - 1;
      var rest := ClearBlocks(bmap, blocks[..k]);
      ClearBlocksCounted(bmap, blocks[..k], n);
      ClearBlocksClears(bmap, blocks[..k]);
      ClearBitClears(rest, blocks[k]);
      CountChanges(ClearBit(rest, blocks[k]), rest, blocks[k], n);
    }
  }

  lemma TruncateLosesNothing(v: Vol, n: nat, file: nat)
    requires Inv(v, n) && file < ITAB_SIZE
    ensures Lost(Truncate(v, n, file).vol, n) == Lost(v, n)
    ensures v.objs[file].File? ==> FreeBlocks(Truncate(v, n, file).vol, n) == FreeBlocks(v, n) + Used(v.itab[file])
  {
    if v.objs[file].File? {
      var i, w := v.itab[file], Truncate(v, n, file).vol;
      var blocks := i.blocks[..Used(i)];
      assert forall k | 0 <= k < |blocks| :: Slot(v, file, k) && blocks[k] == v.itab[file].blocks[k];
      ClearBlocksCounted(v.bmap, blocks, n);
      SumUsedUpdate(v.itab, file, w.itab[file]);
    }
  }
}
