/** What the block loops of `fs_write` do to the bytes of a file. */
module FileContent {
  import opened Base
  import opened Bitmap
  import opened Codec
  import opened Layout
  import opened VolumeInv
  import Volume

  /** `block` with `bytes` over it from `start` on. */
  function Over(block: Block, start: nat, bytes: seq<byte>): (r: Block)
    requires start + |bytes| <= |block|
    ensures |r| == |block|
  {
    block[..start] + bytes + block[start + |bytes|..]
  }

  /** `block` with the bytes of `buffer` from `num` on copied over it from `start` on, as far as they fit. */
  function Copied(block: Block, start: nat, buffer: seq<byte>, num: nat): (r: Block)
    requires |block| == BLOCK_SIZE && start <= BLOCK_SIZE && num <= |buffer|
    ensures |r| == BLOCK_SIZE
  {
    Over(block, start, buffer[num..num + Min(BLOCK_SIZE - start, |buffer| - num)])
  }

  /** The copy loop inside one block. */
  method CopyInto(block: Block, start: nat, buffer: seq<byte>, num0: nat) returns (r: Block, num: nat)
    requires |block| == BLOCK_SIZE && start <= BLOCK_SIZE && num0 <= |buffer|
    ensures num == num0 + Min(BLOCK_SIZE - start, |buffer| - num0)
    ensures r == Copied(block, start, buffer, num0)
  {
    hide Over;
    r, num := block, num0;
    var i := start;
    NothingOver(block, start);
    assert buffer[num0..num0] == [];
    while i < BLOCK_SIZE && num < |buffer|
      invariant start <= i <= BLOCK_SIZE && num0 <= num <= |buffer| && i - start == num - num0
      invariant r == Over(block, start, buffer[num0..num])
    {
      OneMoreOver(block, start, buffer[num0..num], buffer[num]);
      r := r[i := buffer[num]];
      assert buffer[num0..num + 1] == buffer[num0..num] + [buffer[num]];
      i := i + 1;
      num := num + 1;
    }
  }

  lemma NothingOver(block: Block, start: nat)
    requires start <= |block|
    ensures Over(block, start, []) == block
  {
    assert block[..start] + [] + block[start..] == block;
  }

  lemma OneMoreOver(block: Block, start: nat, bytes: seq<byte>, x: byte)
    requires start + |bytes| < |block|
    ensures Over(block, start, bytes)[start + |bytes| := x] == Over(block, start, bytes + [x])
  {
  }

  /** Position `x` of block `k` lies in the stretch that is written. */
  predicate InData(k: nat, x: nat, from: nat, data: seq<byte>) {
    from <= k * BLOCK_SIZE + x < from + |data|
  }

  /**
   * Block `k` of a file after its part of `data`, which begins at `from`, was written: the rest is
   * as it was, unless the block is new.
   */
  ghost predicate Patched(r: Block, was: Block, isNew: bool, k: nat, from: nat, data: seq<byte>) {
    && |r| == |was| == BLOCK_SIZE
    && (forall x | 0 <= x < BLOCK_SIZE && InData(k, x, from, data) :: r[x] == data[k * BLOCK_SIZE + x - from])
    && (!isNew ==> forall x | 0 <= x < BLOCK_SIZE && !InData(k, x, from, data) :: r[x] == was[x])
  }

  /** The copy loop, entered at the first byte of `data` that belongs to block `k`, patches the block. */
  lemma CopyPatches(block: Block, k: nat, start: nat, from: nat, data: seq<byte>, num0: nat)
    requires |block| == BLOCK_SIZE && start <= BLOCK_SIZE && num0 <= |data|
    requires from + num0 == k * BLOCK_SIZE + start && (num0 == 0 || start == 0)
    ensures Patched(Copied(block, start, data, num0), block, false, k, from, data)
  {
  }

  lemma PatchedNew(r: Block, block: Block, was: Block, k: nat, from: nat, data: seq<byte>)
    requires Patched(r, block, false, k, from, data) && |was| == BLOCK_SIZE
    ensures Patched(r, was, true, k, from, data)
  {
  }

  /** `num` of the `count` bytes from `from` on are written, and block `k` comes next. */
  predicate At(from: nat, count: nat, num: nat, k: nat) {
    && (num == 0 ==> k == from / BLOCK_SIZE)
    && (0 < num < count ==> from + num == k * BLOCK_SIZE)
    && (0 < num == count ==> from + count <= k * BLOCK_SIZE)
  }

  lemma AtNext(from: nat, count: nat, num: nat, k: nat, start: nat)
    requires num < count && At(from, count, num, k) && start == if num == 0 then from % BLOCK_SIZE else 0
    ensures from + num == k * BLOCK_SIZE + start
    ensures start < BLOCK_SIZE && At(from, count, num + Min(BLOCK_SIZE - start, count - num), k + 1)
  {
  }

  /** The first loop ends at the end of the data or before a new block, which the data fill from its start. */
  lemma InNewBlocks(from: nat, count: nat, num: nat, k: nat, used: nat)
    requires num <= count && At(from, count, num, k) && (num == count || k >= used)
    requires from / BLOCK_SIZE < used || from == used * BLOCK_SIZE
    ensures num == 0 < count ==> from % BLOCK_SIZE == 0
  {
  }

  lemma AllWritten(from: nat, count: nat, num: nat, k: nat, total: nat)
    requires num <= count && At(from, count, num, k) && (num == count || k >= total)
    requires from + count <= total * BLOCK_SIZE
    ensures num == count
    ensures count > 0 ==> from + count <= k * BLOCK_SIZE
    ensures count == 0 ==> k == from / BLOCK_SIZE
  {
  }

  /** The disk after the blocks `first` to `next - 1` of a file with blocks `blks` were written. */
  ghost predicate Patches(was: Known, known: Known, blks: seq<nat>, first: nat, next: nat, used: nat,
                          from: nat, data: seq<byte>)
    requires first <= next <= |blks|
  {
    && (forall b | b in was :: b in known)
    && (forall k | first <= k < next ::
          blks[k] in known && Patched(known[blks[k]], Contents(was, blks[k]), k >= used, k, from, data))
    && (forall b | b in was && b !in blks[first..next] :: known[b] == was[b])
  }

  lemma NothingWritten(known: Known, blks: seq<nat>, used: nat, from: nat, data: seq<byte>)
    requires from / BLOCK_SIZE <= |blks|
    ensures At(from, |data|, 0, from / BLOCK_SIZE)
    ensures Patches(known, known, blks, from / BLOCK_SIZE, from / BLOCK_SIZE, used, from, data)
  {
  }

  lemma PatchesNext(was: Known, known: Known, blks: seq<nat>, first: nat, next: nat, used: nat,
                    from: nat, data: seq<byte>, block: Block)
    requires first <= next < |blks| && Patches(was, known, blks, first, next, used, from, data)
    requires forall k | first <= k < next :: blks[k] != blks[next]
    requires Patched(block, Contents(was, blks[next]), next >= used, next, from, data)
    ensures Patches(was, known[blks[next] := block], blks, first, next + 1, used, from, data)
  {
    assert blks[first..next + 1] == blks[first..next] + [blks[next]];
  }

  /** Outside the patched blocks nothing changed. */
  lemma PatchesKeep(was: Known, known: Known, blks: seq<nat>, first: nat, next: nat, used: nat,
                    from: nat, data: seq<byte>, b: nat)
    requires first <= next <= |blks| && Patches(was, known, blks, first, next, used, from, data)
    requires b in was && forall k | first <= k < next :: blks[k] != b
    ensures b in known && Contents(known, b) == Contents(was, b)
  {
  }

  /** The whole file after the loops: `data` spliced in, whatever the new blocks held before. */
  lemma ContentAfterWrite(was: Known, known: Known, i: Inode, i': Inode, from: nat, data: seq<byte>, next: nat)
    requires InodeFits(i) && InodeFits(i') && from <= i.size && i'.size == Max(from + |data|, i.size)
    requires Volume.Used(i') <= INODE_NUM_BLKS
    requires forall k | 0 <= k < Volume.Used(i) :: i'.blocks[k] == i.blocks[k] && i.blocks[k] in was
    requires forall k, l | 0 <= k < l < Volume.Used(i') :: i'.blocks[k] != i'.blocks[l]
    requires from / BLOCK_SIZE <= next <= Volume.Used(i')
    requires |data| > 0 ==> from + |data| <= next * BLOCK_SIZE
    requires |data| == 0 ==> next == from / BLOCK_SIZE
    requires Patches(was, known, i'.blocks, from / BLOCK_SIZE, next, Volume.Used(i), from, data)
    ensures FileBytes(known, i') == Volume.Splice(FileBytes(was, i), from, data)
  {
    var bytes, old' := FileBytes(known, i'), FileBytes(was, i);
    var spliced := Volume.Splice(old', from, data);
    forall j | 0 <= j < i'.size ensures bytes[j] == spliced[j] {
      ByteAfterWrite(was, known, i, i', from, data, next, j);
    }
  }

  lemma ByteAfterWrite(was: Known, known: Known, i: Inode, i': Inode, from: nat, data: seq<byte>, next: nat, j: nat)
    requires InodeFits(i) && InodeFits(i') && from <= i.size && i'.size == Max(from + |data|, i.size)
    requires Volume.Used(i') <= INODE_NUM_BLKS && j < i'.size
    requires forall k | 0 <= k < Volume.Used(i) :: k < INODE_NUM_BLKS ==>
             i'.blocks[k] == i.blocks[k] && i.blocks[k] in was
    requires forall k, l | 0 <= k < l < Volume.Used(i') :: i'.blocks[k] != i'.blocks[l]
    requires from / BLOCK_SIZE <= next <= Volume.Used(i')
    requires |data| > 0 ==> from + |data| <= next * BLOCK_SIZE
    requires |data| == 0 ==> next == from / BLOCK_SIZE
    requires Patches(was, known, i'.blocks, from / BLOCK_SIZE, next, Volume.Used(i), from, data)
    ensures FileBytes(known, i')[j] ==
            if from <= j < from + |data| then data[j - from] else if j < i.size then FileBytes(was, i)[j] else 0
  {
    var k, x := j / BLOCK_SIZE, j % BLOCK_SIZE;
    FileByte(known, i', j);
    if j < i.size {
      FileByte(was, i, j);
    }
    assert InData(k, x, from, data) <==> from <= j < from + |data|;
    assert k < Volume.Used(i') && (j < i.size ==> k < Volume.Used(i));
    if k < from / BLOCK_SIZE || next <= k {
      PatchesKeep(was, known, i'.blocks, from / BLOCK_SIZE, next, Volume.Used(i), from, data, i'.blocks[k]);
    }
  }

  // ----- a write to the disk and a write to the volume -----

  /** The write finds its file and the slots and blocks it lacks. */
  ghost predicate Writes(v: Volume.Vol, n: nat, file: nat, offset: nat, data: seq<byte>) {
    Volume.Inv(v, n) && file < ITAB_SIZE && Volume.Write(v, n, file, offset, data).rc == 0
  }

  /** The blocks of the file once the allocation is done. */
  lemma WriteSlots(v: Volume.Vol, n: nat, file: nat, offset: nat, data: seq<byte>)
    requires Writes(v, n, file, offset, data)
    ensures var i, i' := v.itab[file], Volume.Write(v, n, file, offset, data).vol.itab[file];
            var from, used, total := Min(offset, i.size), Volume.Used(i), Volume.Used(i');
            && Volume.IsFile(v, file) && i.itype == i'.itype == FS_FILE && InodeFits(i')
            && i'.size == Max(from + |data|, i.size)
            && total == used + Volume.Required(i.size, from, |data|) && total <= INODE_NUM_BLKS
            && (forall k | 0 <= k < used :: i'.blocks[k] == i.blocks[k])
            && (forall k | 0 <= k < total :: 10 <= i'.blocks[k] < n)
            && (forall k, l | 0 <= k < l < total :: i'.blocks[k] != i'.blocks[l])
            && (forall j: nat, l: nat, k | Volume.Slot(v, j, l) && j != file && 0 <= k < total ::
                v.itab[j].blocks[l] != i'.blocks[k])
  {
    hide Volume.Allocate, IsSet, Volume.Tree, Volume.Prefix, Volume.Owned, Volume.Splice;
    WriteKeepsInv(v, n, file, offset, data);
    var i, w := v.itab[file], Volume.Write(v, n, file, offset, data).vol;
    var i', from := w.itab[file], Min(offset, i.size);
    var required := Volume.Required(i.size, from, |data|);
    AllocateKeeps(v.bmap, i.blocks, Volume.Used(i), required, n);
    RequiredIs(i.size, from, |data|);
    OwnedSlots(w, n, file);
    assert forall j: nat, l: nat | j != file && Volume.Slot(v, j, l) :: Volume.Slot(w, j, l) && w.itab[j] == v.itab[j];
  }

  /** The blocks of one inode. */
  lemma OwnedSlots(w: Volume.Vol, n: nat, file: nat)
    requires Volume.Inv(w, n) && file < ITAB_SIZE
    ensures var i, used := w.itab[file], Volume.Used(w.itab[file]);
            && used <= |i.blocks| == INODE_NUM_BLKS
            && (forall k | 0 <= k < used :: 10 <= i.blocks[k] < n)
            && (forall k, l | 0 <= k < l < used :: i.blocks[k] != i.blocks[l])
            && (forall j: nat, l: nat, k | Volume.Slot(w, j, l) && j != file && 0 <= k < used ::
                w.itab[j].blocks[l] != i.blocks[k])
  {
    hide Volume.Tree, Volume.Prefix;
    assert forall k: nat | k < Volume.Used(w.itab[file]) :: k < INODE_NUM_BLKS ==> Volume.Slot(w, file, k);
  }

  /** What the loops of `fs_write` need of the blocks of the file. */
  ghost predicate Writable(blks: seq<nat>, used: nat, total: nat, n: nat, known: Known) {
    && used <= total <= |blks|
    && (forall k | 0 <= k < total :: blks[k] < n)
    && (forall k | 0 <= k < used :: blks[k] in known)
    && (forall k, l | 0 <= k < l < total :: blks[k] != blks[l])
  }

  lemma WriteIsReady(v: Volume.Vol, n: nat, file: nat, offset: nat, data: seq<byte>, known: Known)
    requires Writes(v, n, file, offset, data) && Holds(known, v)
    ensures var i, i' := v.itab[file], Volume.Write(v, n, file, offset, data).vol.itab[file];
            var from, used, total := Min(offset, i.size), Volume.Used(i), Volume.Used(i');
            && Writable(i'.blocks, used, total, n, known) && |i'.blocks| == INODE_NUM_BLKS && total <= INODE_NUM_BLKS
            && total == used + Volume.Required(i.size, from, |data|)
            && from + |data| <= total * BLOCK_SIZE
            && (from / BLOCK_SIZE < used || from == used * BLOCK_SIZE)
  {
    WriteSlots(v, n, file, offset, data);
    var i := v.itab[file];
    DataFits(i.size, Min(offset, i.size), |data|);
    assert forall k: nat | k < Volume.Used(i) :: Volume.Slot(v, file, k);
  }

  /** Where the loops of `fs_write` end. */
  ghost predicate LoopsEnd(from: nat, count: nat, next: nat, total: nat) {
    && from / BLOCK_SIZE <= next <= total
    && (count > 0 ==> from + count <= next * BLOCK_SIZE)
    && (count == 0 ==> next == from / BLOCK_SIZE)
  }

  lemma LoopsReachNewBlocks(size: nat, from: nat, count: nat, next: nat)
    requires from <= size
    requires LoopsEnd(from, count, next, Volume.ToBlocks(Max(from + count, size)))
    ensures from / BLOCK_SIZE <= Volume.ToBlocks(size)
    ensures Volume.ToBlocks(size) < Volume.ToBlocks(Max(from + count, size)) ==>
              next == Volume.ToBlocks(Max(from + count, size))
  {
  }

  lemma DataFits(size: nat, from: nat, count: nat)
    requires from <= size
    ensures from + count <= Volume.ToBlocks(Max(from + count, size)) * BLOCK_SIZE
    ensures from / BLOCK_SIZE < Volume.ToBlocks(size) || from == Volume.ToBlocks(size) * BLOCK_SIZE
  {
  }

  /** What the write changes in the volume, its blocks apart. */
  lemma WriteFrame(v: Volume.Vol, n: nat, file: nat, offset: nat, data: seq<byte>)
    requires Writes(v, n, file, offset, data)
    ensures Volume.Wf(v) && n <= 8 * BLOCK_SIZE && |v.itab| == |v.objs| == ITAB_SIZE
    ensures v.objs[file].File? && v.itab[file].itype == FS_FILE
    ensures var w, from := Volume.Write(v, n, file, offset, data).vol, Min(offset, v.itab[file].size);
            && |v.objs[file].bytes| == v.itab[file].size && |w.itab| == |w.objs| == ITAB_SIZE
            && w.objs == v.objs[file := Volume.File(Volume.Splice(v.objs[file].bytes, from, data))]
            && w.itab == v.itab[file := w.itab[file]]
  {
    hide Volume.Allocate, Volume.Tree, Volume.Prefix, Volume.Owned, Volume.Splice;
  }

  /** The file on the disk after the loops. */
  lemma FileAfterWrite(v: Volume.Vol, n: nat, file: nat, offset: nat, data: seq<byte>,
                       was: Known, known: Known, next: nat)
    requires Writes(v, n, file, offset, data) && Holds(was, v)
    requires var i, i' := v.itab[file], Volume.Write(v, n, file, offset, data).vol.itab[file];
             var from := Min(offset, i.size);
             && LoopsEnd(from, |data|, next, Volume.Used(i')) && |i'.blocks| == INODE_NUM_BLKS
             && Volume.Used(i') <= INODE_NUM_BLKS
             && Patches(was, known, i'.blocks, from / BLOCK_SIZE, next, Volume.Used(i), from, data)
    ensures var w := Volume.Write(v, n, file, offset, data).vol;
            |w.objs| == |w.itab| == ITAB_SIZE && w.objs[file] == ObjOf(known, w.itab[file])
  {
    hide Volume.Write, Volume.Inv, Volume.Splice, FileBytes, DirEntries, Patches, IsSet;
    WriteFrame(v, n, file, offset, data);
    WriteSlots(v, n, file, offset, data);
    var i, i' := v.itab[file], Volume.Write(v, n, file, offset, data).vol.itab[file];
    LoopsReachNewBlocks(i.size, Min(offset, i.size), |data|, next);
    assert forall k: nat | k < Volume.Used(i) :: Volume.Slot(v, file, k);
    ContentAfterWrite(was, known, i, i', Min(offset, i.size), data, next);
  }

  /** Every block of the file is known after the loops. */
  lemma FileIsKnown(v: Volume.Vol, n: nat, file: nat, offset: nat, data: seq<byte>,
                    was: Known, known: Known, next: nat, k: nat)
    requires Writes(v, n, file, offset, data) && Holds(was, v)
    requires var i, i' := v.itab[file], Volume.Write(v, n, file, offset, data).vol.itab[file];
             var from := Min(offset, i.size);
             && LoopsEnd(from, |data|, next, Volume.Used(i')) && |i'.blocks| == INODE_NUM_BLKS
             && Volume.Used(i') <= INODE_NUM_BLKS && k < Volume.Used(i')
             && Patches(was, known, i'.blocks, from / BLOCK_SIZE, next, Volume.Used(i), from, data)
    ensures Volume.Write(v, n, file, offset, data).vol.itab[file].blocks[k] in known
  {
    hide Volume.Write, Volume.Inv, Volume.Splice, FileBytes, DirEntries, IsSet;
    WriteFrame(v, n, file, offset, data);
    WriteSlots(v, n, file, offset, data);
    var i := v.itab[file];
    LoopsReachNewBlocks(i.size, Min(offset, i.size), |data|, next);
    if k < Volume.Used(i) {
      assert Volume.Slot(v, file, k);
    }
  }

  /** The blocks written hold the volume after the write. */
  lemma WriteHolds(v: Volume.Vol, n: nat, file: nat, offset: nat, data: seq<byte>,
                   was: Known, known: Known, next: nat)
    requires Writes(v, n, file, offset, data) && Holds(was, v)
    requires var i, i' := v.itab[file], Volume.Write(v, n, file, offset, data).vol.itab[file];
             var from := Min(offset, i.size);
             && LoopsEnd(from, |data|, next, Volume.Used(i')) && |i'.blocks| == INODE_NUM_BLKS
             && Volume.Used(i') <= INODE_NUM_BLKS
             && Patches(was, known, i'.blocks, from / BLOCK_SIZE, next, Volume.Used(i), from, data)
    ensures Holds(known, Volume.Write(v, n, file, offset, data).vol)
  {
    hide Volume.Write, Volume.Inv, Volume.Wf, Volume.Splice, FileBytes, DirEntries, ObjOf, InodeFits;
    WriteFrame(v, n, file, offset, data);
    WriteSlots(v, n, file, offset, data);
    FileAfterWrite(v, n, file, offset, data, was, known, next);
    var i, w := v.itab[file], Volume.Write(v, n, file, offset, data).vol;
    var i', from := w.itab[file], Min(offset, i.size);
    forall j | 0 <= j < ITAB_SIZE ensures w.objs[j] == ObjOf(known, w.itab[j]) {
      if j != file {
        OtherObj(v, j, was, known, i'.blocks, from / BLOCK_SIZE, next, Volume.Used(i), from, data);
      }
    }
    forall j: nat, k: nat | j < |w.itab| && k < Volume.Used(w.itab[j]) && k < |w.itab[j].blocks|
      ensures w.itab[j].blocks[k] in known
    {
      if j == file {
        FileIsKnown(v, n, file, offset, data, was, known, next, k);
      }
    }
  }

  lemma OtherObj(v: Volume.Vol, j: nat, was: Known, known: Known, blks: seq<nat>, first: nat, next: nat, used: nat,
                 from: nat, data: seq<byte>)
    requires Volume.Wf(v) && Holds(was, v) && j < ITAB_SIZE && first <= next <= |blks|
    requires forall l: nat, k | Volume.Slot(v, j, l) && first <= k < next :: v.itab[j].blocks[l] != blks[k]
    requires Patches(was, known, blks, first, next, used, from, data)
    ensures ObjOf(known, v.itab[j]) == ObjOf(was, v.itab[j])
  {
    forall l | 0 <= l < Volume.Used(v.itab[j])
      ensures SlotContents(was, v.itab[j], l) == SlotContents(known, v.itab[j], l)
    {
      assert Volume.Slot(v, j, l) || l >= INODE_NUM_BLKS;
      if Volume.Slot(v, j, l) {
        PatchesKeep(was, known, blks, first, next, used, from, data, v.itab[j].blocks[l]);
      }
    }
    ObjFrame(was, known, v.itab[j], v.itab[j]);
  }

  /** What a failed write may change: the bitmap, and the slots of the file that were not in use. */
  lemma FailedWriteIs(v: Volume.Vol, n: nat, file: nat, offset: nat, data: seq<byte>)
    requires Volume.Wf(v) && n <= 8 * BLOCK_SIZE && Volume.Write(v, n, file, offset, data).rc != 0
    ensures var w := Volume.Write(v, n, file, offset, data).vol;
            && w.objs == v.objs && |w.itab| == |v.itab|
            && forall j | 0 <= j < ITAB_SIZE :: SameContent(v.itab[j], w.itab[j])
  {
    hide Volume.Splice, IsSet, Volume.Allocate;
    if Volume.IsFile(v, file) {
      var i := v.itab[file];
      var required := Volume.Required(i.size, Min(offset, i.size), |data|);
      if required <= INODE_NUM_BLKS - Volume.Used(i) {
        AllocateKeeps(v.bmap, i.blocks, Volume.Used(i), required, n);
      }
    }
  }

  ghost predicate SameContent(i: Inode, i': Inode) {
    && i.itype == i'.itype && i.size == i'.size && |i.blocks| == |i'.blocks|
    && forall k | 0 <= k < Volume.Used(i) && k < |i.blocks| :: i.blocks[k] == i'.blocks[k]
  }

  lemma SameContentHolds(known: Known, v: Volume.Vol, w: Volume.Vol)
    requires Volume.Wf(v) && Holds(known, v) && w.objs == v.objs && |w.itab| == |v.itab|
    requires forall j | 0 <= j < ITAB_SIZE :: SameContent(v.itab[j], w.itab[j])
    ensures Holds(known, w)
  {
    hide FileBytes, DirEntries, ObjOf;
    forall j | 0 <= j < ITAB_SIZE ensures w.objs[j] == ObjOf(known, w.itab[j]) {
      assert SameContent(v.itab[j], w.itab[j]);
      ObjFrame(known, known, v.itab[j], w.itab[j]);
    }
    forall j: nat, k: nat | j < |w.itab| && k < Volume.Used(w.itab[j]) && k < |w.itab[j].blocks|
      ensures w.itab[j].blocks[k] in known
    {
      assert SameContent(v.itab[j], w.itab[j]);
    }
  }

  /** A write that fails leaves the contents of all files as they were. */
  lemma WriteFails(v: Volume.Vol, n: nat, file: nat, offset: nat, data: seq<byte>, known: Known)
    requires v in Held(known, n) && Volume.IsFile(v, file)
    ensures var w := Volume.Write(v, n, file, offset, data).vol;
            Volume.Write(v, n, file, offset, data).rc != 0 ==> w in Held(known, n) && w.objs == Objs(known, w.itab)
  {
    hide Volume.Tree, Volume.Prefix, Volume.Owned, Volume.Wf, Volume.Write;
    WriteKeepsInv(v, n, file, offset, data);
    var out := Volume.Write(v, n, file, offset, data);
    if out.rc != 0 {
      FailedWriteIs(v, n, file, offset, data);
      SameContentHolds(known, v, out.vol);
    }
  }

  // ----- between the allocation and the end of fs_write -----

  /** `cur` is `v` with the blocks for the write allocated, `w` the volume the write leads to. */
  ghost predicate WriteBegun(known: Known, v: Volume.Vol, cur: Volume.Vol, w: Volume.Vol, n: nat, file: nat,
                             offset0: nat, offset: nat, used: nat, required: nat, data: seq<byte>) {
    && v in Held(known, n) && Writes(v, n, file, offset0, data)
    && w == Volume.Write(v, n, file, offset0, data).vol
    && offset == Min(offset0, v.itab[file].size) && used == Volume.Used(v.itab[file])
    && required == Volume.Required(v.itab[file].size, offset, |data|)
    && cur.bmap == w.bmap && cur.ibmap == w.ibmap
    && cur.itab == w.itab[file := w.itab[file].(size := v.itab[file].size)]
  }

  lemma WriteReady(known: Known, v: Volume.Vol, cur: Volume.Vol, w: Volume.Vol, n: nat, file: nat,
                   offset0: nat, offset: nat, used: nat, required: nat, data: seq<byte>)
    requires WriteBegun(known, v, cur, w, n, file, offset0, offset, used, required, data)
    ensures file < |cur.itab| && Writable(cur.itab[file].blocks, used, used + required, n, known)
    ensures offset + |data| <= (used + required) * BLOCK_SIZE
    ensures offset / BLOCK_SIZE < used || offset == used * BLOCK_SIZE
    ensures |w.bmap| == |w.ibmap| == BLOCK_SIZE
  {
    WriteKeepsInv(v, n, file, offset0, data);
    WriteIsReady(v, n, file, offset0, data, known);
  }

  lemma WriteDone(was: Known, v: Volume.Vol, cur: Volume.Vol, w: Volume.Vol, n: nat, file: nat,
                  offset0: nat, offset: nat, used: nat, required: nat, data: seq<byte>, known: Known, next: nat)
    requires WriteBegun(was, v, cur, w, n, file, offset0, offset, used, required, data)
    requires file < |cur.itab| && LoopsEnd(offset, |data|, next, used + required)
    requires used + required <= |cur.itab[file].blocks|
    requires Patches(was, known, cur.itab[file].blocks, offset / BLOCK_SIZE, next, used, offset, data)
    ensures w in Held(known, n) && w.bmap == cur.bmap && w.ibmap == cur.ibmap && w.objs == Objs(known, w.itab)
    ensures var i := cur.itab[file];
            w.itab == cur.itab[file := i.(size := Max(offset + |data|, i.size))]
  {
    WriteKeepsInv(v, n, file, offset0, data);
    WriteSlots(v, n, file, offset0, data);
    WriteHolds(v, n, file, offset0, data, was, known, next);
    assert w.itab[file].size == Max(offset + |data|, v.itab[file].size);
  }
}
