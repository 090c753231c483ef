/** Every call of the file system keeps the volume invariant, and what it does to the free blocks. */
module VolumeInv {
  import opened Base
  import opened Bitmap
  import opened Codec
  import opened Volume

  // ----- block arithmetic -----

  lemma ToBlocksIs(pos: nat)
    ensures BLOCK_SIZE * (ToBlocks(pos) - 1) < pos <= BLOCK_SIZE * ToBlocks(pos) || (pos == 0 && ToBlocks(pos) == 0)
  {
  }

  lemma ToBlocksGrows(a: nat, b: nat)
    requires a <= b
    ensures ToBlocks(a) <= ToBlocks(b)
  {
  }

  lemma RequiredIs(size: nat, from: nat, count: nat)
    ensures ToBlocks(Max(from + count, size)) == ToBlocks(size) + Required(size, from, count)
  {
    if from + count <= size {
      ToBlocksGrows(from + count, size);
    } else {
      ToBlocksGrows(size, from + count);
    }
  }

  // ----- allocation -----

  /** The allocation loop only adds marks, and changes no other slot. */
  lemma {:induction false} AllocateKeeps(bmap: seq<byte>, blocks: seq<nat>, k: nat, m: nat, n: nat)
    requires n <= 8 * |bmap| && k + m <= |blocks|
    ensures var a := Allocate(bmap, blocks, k, m, n);
            && (forall b | 0 <= b < 8 * |bmap| && IsSet(bmap, b) :: IsSet(a.bmap, b))
            && (forall j | 0 <= j < |blocks| :: (k <= j < k + m && a.blocks[j] < n) || a.blocks[j] == blocks[j])
    decreases m
  {
    if m > 0 && FirstFree(bmap, 0, n).Some? {
      var b := FirstFree(bmap, 0, n).value;
      SetBitSets(bmap, b);
      AllocateKeeps(SetBit(bmap, b), blocks[k := b], k + 1, m - 1, n);
    }
  }

  /** Slots `k` to `k + m - 1` have different blocks that were free in `bmap` and are marked in `bmap'`. */
  ghost predicate Takes(bmap: seq<byte>, bmap': seq<byte>, blocks: seq<nat>, k: nat, m: nat, n: nat)
    requires n <= 8 * |bmap| && |bmap'| == |bmap| && k + m <= |blocks|
  {
    && (forall j | k <= j < k + m :: blocks[j] < n && !IsSet(bmap, blocks[j]) && IsSet(bmap', blocks[j]))
    && (forall i, j | k <= i < j < k + m :: blocks[i] != blocks[j])
  }

  lemma TakesOneMore(bmap: seq<byte>, bmap': seq<byte>, b: nat, blocks: seq<nat>, k: nat, m: nat, n: nat)
    requires n <= 8 * |bmap| && |bmap'| == |bmap| && 0 < m && k + m <= |blocks| && b < n && !IsSet(bmap, b)
    requires Takes(SetBit(bmap, b), bmap', blocks, k + 1, m - 1, n) && blocks[k] == b && IsSet(bmap', b)
    ensures Takes(bmap, bmap', blocks, k, m, n)
  {
    hide IsSet, SetBit;
    SetBitSets(bmap, b);
    forall j | k + 1 <= j < k + m ensures !IsSet(bmap, blocks[j]) && blocks[j] != b {
      assert !IsSet(SetBit(bmap, b), blocks[j]);
    }
  }

  /** When it succeeds the slots get different blocks that were free; when it fails no block is free any more. */
  lemma {:induction false} AllocateTakes(bmap: seq<byte>, blocks: seq<nat>, k: nat, m: nat, n: nat)
    requires n <= 8 * |bmap| && k + m <= |blocks|
    ensures var a := Allocate(bmap, blocks, k, m, n);
            if a.ok then Takes(bmap, a.bmap, a.blocks, k, m, n) && CountSet(a.bmap, n) == CountSet(bmap, n) + m
            else CountSet(a.bmap, n) == n
    decreases m
  {
    hide IsSet, SetBit, CountSet, Takes;
    if m == 0 {
      NoneTaken(bmap, blocks, k, n);
    } else {
      match FirstFree(bmap, 0, n)
      case None =>
        CountAll(bmap, n);
      case Some(b) =>
        var bmap', blocks' := SetBit(bmap, b), blocks[k := b];
        SetBitSets(bmap, b);
        AllocateKeeps(bmap', blocks', k + 1, m - 1, n);
        AllocateTakes(bmap', blocks', k + 1, m - 1, n);
        CountChanges(bmap, bmap', b, n);
        var a := Allocate(bmap', blocks', k + 1, m - 1, n);
        if a.ok {
          TakesOneMore(bmap, a.bmap, b, a.blocks, k, m, n);
        }
    }
  }

  lemma NoneTaken(bmap: seq<byte>, blocks: seq<nat>, k: nat, n: nat)
    requires n <= 8 * |bmap| && k <= |blocks|
    ensures Takes(bmap, bmap, blocks, k, 0, n)
  {
  }

  // ----- fs_write -----

  /** Inode `file` grows by blocks that were free; any other inode stays or is emptied. */
  ghost predicate GrowsBy(v: Vol, w: Vol, n: nat, file: nat)
    requires Wf(v) && Wf(w) && file < ITAB_SIZE && n <= 8 * BLOCK_SIZE
  {
    var i, i' := v.itab[file], w.itab[file];
    && (forall j | 0 <= j < ITAB_SIZE && j != file :: w.itab[j] == v.itab[j] || w.itab[j].size == 0)
    && Used(i) <= Used(i')
    && (forall b | 0 <= b < 8 * BLOCK_SIZE && IsSet(v.bmap, b) :: IsSet(w.bmap, b))
    && (forall k | 0 <= k < Used(i) :: k < INODE_NUM_BLKS ==> i'.blocks[k] == i.blocks[k])
    && (forall k | Used(i) <= k < Used(i') :: k < INODE_NUM_BLKS ==>
          i'.blocks[k] < n && !IsSet(v.bmap, i'.blocks[k]) && IsSet(w.bmap, i'.blocks[k]))
    && (forall k, l | Used(i) <= k < l < Used(i') :: l < INODE_NUM_BLKS ==> i'.blocks[k] != i'.blocks[l])
  }

  lemma OwnedAfterGrowth(v: Vol, w: Vol, n: nat, file: nat)
    requires Inv(v, n) && Wf(w) && file < ITAB_SIZE && Wf(v) && GrowsBy(v, w, n, file)
    ensures Owned(w, n)
  {
    hide Tree, Prefix;
    forall i: nat, k: nat | Slot(w, i, k)
      ensures 10 <= w.itab[i].blocks[k] < n && IsSet(w.bmap, w.itab[i].blocks[k])
      ensures Slot(v, i, k) || (i == file && Used(v.itab[file]) <= k)
      ensures Slot(v, i, k) ==> w.itab[i].blocks[k] == v.itab[i].blocks[k]
    {
      assert Slot(v, i, k) || (i == file && Used(v.itab[file]) <= k);
    }
  }

  lemma {:induction false} EntryCountUpdate(objs: seq<Obj>, i: nat, o: Obj)
    requires i < |objs|
    ensures EntryCount(objs[i := o]) == EntryCount(objs) - Entries(objs[i]) + Entries(o)
  {
    var k := |objs| - 1;
    if i < k {
      assert objs[i := o][..k] == objs[..k][i := o];
      EntryCountUpdate(objs[..k], i, o);
    } else {
      assert objs[i := o][..k] == objs[..k];
    }
  }

  /** What becomes of a file's bytes does not matter to the names. */
  lemma TreeAfterFileChange(v: Vol, w: Vol, file: nat)
    requires Wf(v) && Wf(w) && Prefix(v) && Tree(v) && file < ITAB_SIZE
    requires w.ibmap == v.ibmap && v.objs[file].File?
    requires exists o: Obj :: o.File? && w.objs == v.objs[file := o]
    ensures Prefix(w) && Tree(w) && (AllNamed(v) ==> AllNamed(w))
  {
    EntryCountUpdate(v.objs, file, w.objs[file]);
    hide Wf, IsSet, FirstFree, EntryCount;
    SameEntries(v, w, file);
    if AllNamed(v) {
      forall i | 2 <= i < Top(w) ensures HasEntry(w, i) {
        assert HasEntry(v, i);
        var d: nat, e: nat :| IsEntry(v, d, e) && EntryId(v, d, e) == i;
        assert IsEntry(w, d, e) && EntryId(w, d, e) == i;
      }
    }
  }

  lemma SameEntries(v: Vol, w: Vol, file: nat)
    requires file < |v.objs| && v.objs[file].File? && exists o: Obj :: o.File? && w.objs == v.objs[file := o]
    ensures forall d: nat, e: nat :: IsEntry(w, d, e) <==> IsEntry(v, d, e)
    ensures forall d: nat, e: nat | IsEntry(v, d, e) :: w.objs[d] == v.objs[d]
    ensures forall i | 0 <= i < |v.objs| :: v.objs[i] == Free <==> w.objs[i] == Free
    ensures forall i | 0 <= i < |v.objs| :: v.objs[i].Dir? <==> w.objs[i].Dir?
  {
  }

  /** What a write changes: one file and its blocks. */
  ghost predicate Written(v: Vol, w: Vol, n: nat, file: nat)
    requires Wf(v) && file < ITAB_SIZE && n <= 8 * BLOCK_SIZE
  {
    && Wf(w) && w.ibmap == v.ibmap && v.objs[file].File? && GrowsBy(v, w, n, file)
    && exists o: Obj :: o.File? && w.objs == v.objs[file := o]
  }

  /** The allocation as it leaves the inode. */
  lemma GrowAllocates(v: Vol, n: nat, file: nat, required: nat)
    requires Wf(v) && n <= 8 * BLOCK_SIZE && file < ITAB_SIZE
    requires required <= INODE_NUM_BLKS - Used(v.itab[file])
    ensures var (g, ok), i := Grow(v, n, file, required), v.itab[file];
            && g == v.(bmap := g.bmap, itab := v.itab[file := i.(blocks := g.itab[file].blocks)])
            && |g.bmap| == BLOCK_SIZE && |g.itab[file].blocks| == INODE_NUM_BLKS
            && (forall b | 0 <= b < 8 * BLOCK_SIZE && IsSet(v.bmap, b) :: IsSet(g.bmap, b))
            && (forall k | 0 <= k < INODE_NUM_BLKS ::
                  g.itab[file].blocks[k] == i.blocks[k] ||
                  (Used(i) <= k < Used(i) + required && g.itab[file].blocks[k] < n))
            && (ok ==> Takes(v.bmap, g.bmap, g.itab[file].blocks, Used(i), required, n))
  {
    hide Allocate, IsSet, Takes;
    AllocateKeeps(v.bmap, v.itab[file].blocks, Used(v.itab[file]), required, n);
    AllocateTakes(v.bmap, v.itab[file].blocks, Used(v.itab[file]), required, n);
  }

  lemma FailedGrowthIsWritten(v: Vol, n: nat, file: nat, required: nat)
    requires Wf(v) && n <= 8 * BLOCK_SIZE && file < ITAB_SIZE && v.objs[file].File?
    requires required <= INODE_NUM_BLKS - Used(v.itab[file])
    ensures Written(v, Grow(v, n, file, required).0, n, file)
  {
    hide Grow, IsSet, Takes;
    GrowAllocates(v, n, file, required);
    assert v.objs == v.objs[file := v.objs[file]];
  }

  lemma GrowthIsWritten(v: Vol, n: nat, file: nat, required: nat, size: nat, bytes: seq<byte>)
    requires Wf(v) && n <= 8 * BLOCK_SIZE && file < ITAB_SIZE && v.objs[file].File?
    requires required <= INODE_NUM_BLKS - Used(v.itab[file]) && Grow(v, n, file, required).1
    requires ToBlocks(size) == Used(v.itab[file]) + required && |bytes| == size
    ensures var g := Grow(v, n, file, required).0;
            Written(v, g.(itab := g.itab[file := g.itab[file].(size := size)], objs := g.objs[file := File(bytes)]),
                    n, file)
  {
    hide Grow, IsSet, ToBlocks;
    ToBlocksIs(size);
    GrowAllocates(v, n, file, required);
    var g := Grow(v, n, file, required).0;
    var w := g.(itab := g.itab[file := g.itab[file].(size := size)], objs := g.objs[file := File(bytes)]);
    assert w.itab[file].blocks == g.itab[file].blocks && Used(w.itab[file]) == Used(v.itab[file]) + required;
    assert Wf(w);
    assert GrowsBy(v, w, n, file);
    assert w.objs == v.objs[file := File(bytes)];
  }

  lemma WriteIsWritten(v: Vol, n: nat, file: nat, offset: nat, data: seq<byte>)
    requires Wf(v) && n <= 8 * BLOCK_SIZE
    ensures var w := Write(v, n, file, offset, data).vol;
            w == v || (file < ITAB_SIZE && Written(v, w, n, file))
  {
    hide Grow, IsSet, Splice, Written, Required, ToBlocks;
    if IsFile(v, file) {
      var size, bytes := v.itab[file].size, v.objs[file].bytes;
      var from := Min(offset, size);
      var required := Required(size, from, |data|);
      if required <= INODE_NUM_BLKS - Used(v.itab[file]) {
        RequiredIs(size, from, |data|);
        SplicedLength(bytes, from, data);
        if Grow(v, n, file, required).1 {
          GrowthIsWritten(v, n, file, required, Max(from + |data|, size), Splice(bytes, from, data));
        } else {
          FailedGrowthIsWritten(v, n, file, required);
        }
      }
    }
  }

  lemma SplicedLength(bytes: seq<byte>, from: nat, data: seq<byte>)
    requires from <= |bytes|
    ensures |Splice(bytes, from, data)| == Max(from + |data|, |bytes|)
  {
  }

  lemma WrittenKeepsInv(v: Vol, w: Vol, n: nat, file: nat)
    requires Inv(v, n) && file < ITAB_SIZE && Wf(v) && Written(v, w, n, file)
    ensures Inv(w, n) && (AllNamed(v) ==> AllNamed(w))
  {
    hide Tree, Prefix, Owned, GrowsBy, AllNamed;
    OwnedAfterGrowth(v, w, n, file);
    TreeAfterFileChange(v, w, file);
  }

  lemma InvIsWf(v: Vol, n: nat)
    requires Inv(v, n)
    ensures Wf(v) && 10 <= n <= 8 * BLOCK_SIZE
  {
  }

  lemma WriteKeepsInv(v: Vol, n: nat, file: nat, offset: nat, data: seq<byte>)
    requires Inv(v, n)
    ensures Inv(Write(v, n, file, offset, data).vol, n)
    ensures AllNamed(v) ==> AllNamed(Write(v, n, file, offset, data).vol)
  {
    hide Inv, Wf, Write, Written, AllNamed;
    InvIsWf(v, n);
    WriteIsWritten(v, n, file, offset, data);
    var w := Write(v, n, file, offset, data).vol;
    if w != v {
      WrittenKeepsInv(v, w, n, file);
    }
  }

  // ----- fs_create and fs_mkdir -----

  lemma TopAfterSet(v: Vol, w: Vol)
    requires |v.ibmap| == BLOCK_SIZE && Top(v) < ITAB_SIZE
    requires forall i | 0 <= i < ITAB_SIZE :: IsSet(v.ibmap, i) <==> i < Top(v)
    requires w.ibmap == SetBit(v.ibmap, Top(v))
    ensures Top(w) == Top(v) + 1
    ensures forall i | 0 <= i < ITAB_SIZE :: IsSet(w.ibmap, i) <==> i < Top(w)
  {
    SetBitSets(v.ibmap, Top(v));
    assert IsSet(w.ibmap, Top(v));
    assert Top(v) + 1 < ITAB_SIZE ==> !IsSet(w.ibmap, Top(v) + 1);
  }

  ghost predicate EntryAdded(v: Vol, w: Vol, dir: nat, name: seq<byte>, o: Obj)
    requires Wf(v)
  {
    && Wf(w) && Prefix(v) && IsDir(v, dir) && Top(v) < ITAB_SIZE && CString(name)
    && (o == File([]) || o == Dir([]))
    && w.ibmap == SetBit(v.ibmap, Top(v))
    && w.objs == v.objs[dir := Dir(v.objs[dir].entries + [Dentry(name, Top(v))])][Top(v) := o]
  }

  lemma EntriesAfterEntry(v: Vol, w: Vol, dir: nat, name: seq<byte>, o: Obj)
    requires Wf(v) && EntryAdded(v, w, dir, name, o)
    ensures IsEntry(w, dir, |v.objs[dir].entries|) && EntryId(w, dir, |v.objs[dir].entries|) == Top(v)
    ensures w.objs[dir].entries[|v.objs[dir].entries|].name == name
    ensures forall d: nat, e: nat | IsEntry(w, d, e) :: IsEntry(v, d, e) || (d == dir && e == |v.objs[dir].entries|)
    ensures forall d: nat, e: nat | IsEntry(v, d, e) :: IsEntry(w, d, e) && w.objs[d].entries[e] == v.objs[d].entries[e]
  {
  }

  lemma EntryCountAfterEntry(v: Vol, w: Vol, dir: nat, name: seq<byte>, o: Obj)
    requires Wf(v) && EntryAdded(v, w, dir, name, o)
    ensures EntryCount(w.objs) == EntryCount(v.objs) + 1
  {
    var middle := v.objs[dir := w.objs[dir]];
    EntryCountUpdate(v.objs, dir, w.objs[dir]);
    EntryCountUpdate(middle, Top(v), o);
  }

  /** The names after a new entry at the end of `dir` for the first free inode. */
  lemma TreeAfterEntry(v: Vol, w: Vol, dir: nat, name: seq<byte>, o: Obj)
    requires Wf(v) && Tree(v) && EntryAdded(v, w, dir, name, o)
    ensures Prefix(w) && Tree(w) && (AllNamed(v) ==> AllNamed(w))
  {
    hide Top, EntryCount, IsSet, SetBit;
    TopAfterSet(v, w);
    EntriesAfterEntry(v, w, dir, name, o);
    EntryCountAfterEntry(v, w, dir, name, o);
    TreeIdsAfterEntry(v, w, dir, name, o);
    if AllNamed(v) {
      forall i | 2 <= i < Top(w) ensures HasEntry(w, i) {
        if i < Top(v) {
          assert HasEntry(v, i);
          var d: nat, e: nat :| IsEntry(v, d, e) && EntryId(v, d, e) == i;
          assert IsEntry(w, d, e) && EntryId(w, d, e) == i;
        }
      }
    }
  }

  /** The new entry is the only one for the new inode, which lies behind its directory. */
  lemma TreeIdsAfterEntry(v: Vol, w: Vol, dir: nat, name: seq<byte>, o: Obj)
    requires Wf(v) && Tree(v) && EntryAdded(v, w, dir, name, o) && Top(w) == Top(v) + 1
    ensures forall d: nat, e: nat | IsEntry(w, d, e) ::
              d < EntryId(w, d, e) && 2 <= EntryId(w, d, e) < Top(w) && CString(w.objs[d].entries[e].name)
    ensures forall d: nat, e: nat, d': nat, e': nat |
              IsEntry(w, d, e) && IsEntry(w, d', e') && EntryId(w, d, e) == EntryId(w, d', e') :: d == d' && e == e'
  {
    hide EntryCount, FirstFree, IsSet, SetBit;
    var last := |v.objs[dir].entries|;
    EntriesAfterEntry(v, w, dir, name, o);
    forall d: nat, e: nat | IsEntry(w, d, e)
      ensures IsEntry(v, d, e) || (d == dir && e == last && EntryId(w, d, e) == Top(v))
      ensures IsEntry(v, d, e) ==> EntryId(w, d, e) == EntryId(v, d, e) < Top(v)
    {
    }
  }

  /** A successful call in full: the block it may take, the inode it takes and the entry it adds. */
  ghost predicate Entered(v: Vol, w: Vol, n: nat, dir: nat, name: seq<byte>, itype: nat)
    requires Wf(v) && n <= 8 * BLOCK_SIZE
  {
    && IsDir(v, dir) && Top(v) < ITAB_SIZE && dir != Top(v)
    && |w.bmap| == |w.ibmap| == BLOCK_SIZE && |w.itab| == ITAB_SIZE
    && v.itab[dir].size < INODE_NUM_BLKS * BLOCK_SIZE
    && w.ibmap == SetBit(v.ibmap, Top(v))
    && w.objs == v.objs[dir := Dir(v.objs[dir].entries + [Dentry(name, Top(v))])]
                       [Top(v) := if itype == FS_DIR then Dir([]) else File([])]
    && w.itab == v.itab[dir := w.itab[dir]][Top(v) := InodeInit(itype)]
    && Extended(v.itab[dir], w.itab[dir], v.bmap, w.bmap, n)
  }

  /** The inode of the directory and the block bitmap, before and after. */
  ghost predicate Extended(i: Inode, i': Inode, bmap: seq<byte>, bmap': seq<byte>, n: nat)
    requires n <= 8 * |bmap|
  {
    var full := i.size % BLOCK_SIZE == 0;
    && i'.size == i.size + DENTRY_SIZE && i'.itype == i.itype && i'.reserved == i.reserved
    && i.size < BLOCK_SIZE * |i.blocks|
    && (full ==> FirstFree(bmap, 0, n).Some?)
    && i'.blocks == (if full then i.blocks[i.size / BLOCK_SIZE := FirstFree(bmap, 0, n).value] else i.blocks)
    && bmap' == if full then SetBit(bmap, FirstFree(bmap, 0, n).value) else bmap
  }

  lemma MadeIs(v: Vol, n: nat, dir: nat, key: seq<byte>, name: seq<byte>, itype: nat)
    requires Inv(v, n) && CString(name) && itype in {FS_DIR, FS_FILE}
    ensures var made := Make(v, n, dir, key, name, itype);
            && (made.rc != 0 ==> made.vol == v)
            && (made.rc == 0 ==> made.id == Some(Top(v)) && Entered(v, made.vol, n, dir, name, itype))
  {
    hide Tree, Owned, EntryCount, SetBit, FirstFree;
    if IsDir(v, dir) {
      DirectoryHasRoom(v, n, dir);
    }
  }

  lemma MakeKeepsInv(v: Vol, n: nat, dir: nat, key: seq<byte>, name: seq<byte>, itype: nat)
    requires Inv(v, n) && CString(name) && itype in {FS_DIR, FS_FILE}
    ensures Inv(Make(v, n, dir, key, name, itype).vol, n)
    ensures AllNamed(v) ==> AllNamed(Make(v, n, dir, key, name, itype).vol)
  {
    MadeIs(v, n, dir, key, name, itype);
    hide Make, Entered;
    var made := Make(v, n, dir, key, name, itype);
    if made.rc == 0 {
      EnteredKeepsInv(v, made.vol, n, dir, name, itype);
    }
  }

  lemma EnteredKeepsInv(v: Vol, w: Vol, n: nat, dir: nat, name: seq<byte>, itype: nat)
    requires Inv(v, n) && Entered(v, w, n, dir, name, itype) && itype in {FS_DIR, FS_FILE} && CString(name)
    ensures Inv(w, n) && (AllNamed(v) ==> AllNamed(w))
  {
    hide Owned, Tree, Extended, EntryCount, SetBit;
    DirectoryHasRoom(v, n, dir);
    MadeWf(v, w, n, dir, name, itype);
    MadeOwned(v, w, n, dir, name, itype);
    TreeAfterEntry(v, w, dir, name, w.objs[Top(v)]);
  }

  lemma MadeWf(v: Vol, w: Vol, n: nat, dir: nat, name: seq<byte>, itype: nat)
    requires Inv(v, n) && Entered(v, w, n, dir, name, itype) && itype in {FS_DIR, FS_FILE}
    requires v.itab[dir].size <= 2 * BLOCK_SIZE - 2 * DENTRY_SIZE
    ensures Wf(w)
  {
    hide Owned, Prefix, Tree, FirstFree, SetBit;
    assert InodeFits(w.itab[dir]);
  }

  lemma MadeOwned(v: Vol, w: Vol, n: nat, dir: nat, name: seq<byte>, itype: nat)
    requires Inv(v, n) && Wf(w) && Entered(v, w, n, dir, name, itype)
    requires v.itab[dir].size % DENTRY_SIZE == 0
    ensures Owned(w, n)
  {
    hide Inv, Wf, Entered, GrowsBy, Owned;
    InvIsWf(v, n);
    MadeGrows(v, w, n, dir, name, itype);
    OwnedAfterGrowth(v, w, n, dir);
  }

  lemma MadeGrows(v: Vol, w: Vol, n: nat, dir: nat, name: seq<byte>, itype: nat)
    requires Inv(v, n) && Wf(w) && Entered(v, w, n, dir, name, itype)
    requires v.itab[dir].size % DENTRY_SIZE == 0
    ensures Wf(v) && n <= 8 * BLOCK_SIZE && dir < ITAB_SIZE && GrowsBy(v, w, n, dir)
  {
    hide Prefix, Tree, Owned, IsSet;
    var size := v.itab[dir].size;
    if size % BLOCK_SIZE == 0 {
      SetBitSets(v.bmap, FirstFree(v.bmap, 0, n).value);
    }
    UsedAfterEntry(size);
  }

  lemma UsedAfterEntry(size: nat)
    requires size % DENTRY_SIZE == 0
    ensures ToBlocks(size + DENTRY_SIZE) == size / BLOCK_SIZE + 1
    ensures ToBlocks(size) == size / BLOCK_SIZE + (if size % BLOCK_SIZE != 0 then 1 else 0)
  {
  }

  // ----- fs_truncate -----

  lemma {:induction false} ClearBlocksClears(bmap: seq<byte>, blocks: seq<nat>)
    requires forall k | 0 <= k < |blocks| :: blocks[k] < 8 * |bmap|
    ensures forall b | 0 <= b < 8 * |bmap| :: IsSet(ClearBlocks(bmap, blocks), b) <==> IsSet(bmap, b) && b !in blocks
  {
    if blocks != [] {
      var k := |blocks| - 1;
      ClearBlocksClears(bmap, blocks[..k]);
      ClearBitClears(ClearBlocks(bmap, blocks[..k]), blocks[k]);
      assert blocks == blocks[..k] + [blocks[k]];
    }
  }

  lemma TruncateKeepsInv(v: Vol, n: nat, file: nat)
    requires Inv(v, n) && file < ITAB_SIZE
    ensures Inv(Truncate(v, n, file).vol, n)
    ensures AllNamed(v) ==> AllNamed(Truncate(v, n, file).vol)
  {
    if v.objs[file].File? {
      var w := Truncate(v, n, file).vol;
      var blocks := v.itab[file].blocks[..Used(v.itab[file])];
      assert forall k | 0 <= k < |blocks| :: Slot(v, file, k) && blocks[k] == v.itab[file].blocks[k];
      ClearBlocksClears(v.bmap, blocks);
      assert Wf(w);
      TreeAfterFileChange(v, w, file);
      OwnedAfterTruncate(v, w, n, file, blocks);
    }
  }

  lemma OwnedAfterTruncate(v: Vol, w: Vol, n: nat, file: nat, blocks: seq<nat>)
    requires Inv(v, n) && Wf(w) && file < ITAB_SIZE
    requires w.itab == v.itab[file := v.itab[file].(size := 0)]
    requires |blocks| == Used(v.itab[file])
    requires forall k | 0 <= k < |blocks| :: Slot(v, file, k) && blocks[k] == v.itab[file].blocks[k]
    requires forall b | 0 <= b < 8 * BLOCK_SIZE :: IsSet(w.bmap, b) <==> IsSet(v.bmap, b) && b !in blocks
    ensures Owned(w, n)
  {
    forall i: nat, k: nat | Slot(w, i, k)
      ensures i != file && Slot(v, i, k) && v.itab[i].blocks[k] !in blocks
    {
    }
    forall b | 0 <= b < 10 ensures b !in blocks {
      assert forall k | 0 <= k < |blocks| :: blocks[k] >= 10;
    }
  }
}
