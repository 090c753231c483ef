/** The file system of sofs/fs.c: bitmaps and inode table in memory, loops over disk blocks. */
module FileSystem {
  import opened Base
  import opened Bitmap
  import opened Codec
  import opened DirContent
  import opened FileContent
  import opened Format
  import opened Layout
  import opened VolumeInv
  import Disk
  import Paths
  import Volume

  class Fs {
    var disk: Disk.Disk
    var blkBmap: seq<byte>
    var inodeBmap: seq<byte>
    var inodeTab: seq<Inode>
    ghost var known: Known
    ghost var saved: Volume.Vol

    /** What the file system shows now. */
    ghost function Cur(): Volume.Vol
      reads this
    {
      Volume.Vol(blkBmap, inodeBmap, inodeTab, Objs(known, inodeTab))
    }

    ghost function N(): nat
      reads this
    {
      Disk.Size(disk)
    }

    /** The disk and what it would show if its metadata were loaded. */
    ghost predicate DiskValid()
      reads this
    {
      Disk.Knows(disk, known) && saved in Saved(known, N())
    }

    ghost predicate Valid()
      reads this
    {
      DiskValid() && Cur() in Held(known, N())
    }

    // ----- fs_new and fs_format -----

    /** A new disk, and what `fsi_load_fsdata` finds on it. */
    ghost predicate Blank()
      reads this
    {
      && Disk.Knows(disk, known) && known == map[] && 10 <= N() <= 8 * BLOCK_SIZE
      && blkBmap == inodeBmap == Zeros(BLOCK_SIZE)
      && inodeTab == seq(ITAB_SIZE, _ => UnusedInode())
    }

    /** `fs_new`. */
    constructor (logged: bool, numBlocks: nat)
      requires 10 <= numBlocks <= 8 * BLOCK_SIZE
      ensures Blank() && disk == Disk.New(logged, numBlocks) && N() == numBlocks
    {
      disk := Disk.New(logged, numBlocks);
      known := map[];
      blkBmap, inodeBmap, inodeTab := [], [], [];
      saved := Formatted();
      new;
      Disk.NewDisk(logged, numBlocks);
      Load();
      BlankLoads(disk);
    }

    /** `fsi_load_fsdata`. */
    method Load()
      requires Disk.Ok(disk) && N() >= 10
      modifies this`blkBmap, this`inodeBmap, this`inodeTab
      ensures blkBmap == Disk.Read(disk, 0) && inodeBmap == Disk.Read(disk, 1)
      ensures inodeTab == TableOfBytes(TableOnDisk(disk, ITAB_NUM_BLKS))
    {
      blkBmap := Disk.Read(disk, 0);
      inodeBmap := Disk.Read(disk, 1);
      var table: seq<byte> := [];
      for i := 0 to ITAB_NUM_BLKS
        invariant table == TableOnDisk(disk, i)
      {
        table := table + Disk.Read(disk, 2 + i);
      }
      inodeTab := TableOfBytes(table);
    }

    /** Loading what was stored last: changes since then are forgotten. */
    method Reload()
      requires Valid()
      modifies this
      ensures Valid() && N() == old(N()) && disk == old(disk)
      ensures Cur() == saved == old(saved)
    {
      LoadGivesSaved(disk, known, saved);
      Load();
    }

    /**
     * `fs_format`, of a new disk or of a volume in use. A new disk then holds the formatted volume;
     * a volume in use keeps its marks and its files and loses the entries of the root.
     */
    method Format()
      requires Blank() || Valid()
      modifies this
      ensures Valid() && N() == old(N()) && Cur() == saved
      ensures old(Blank()) ==> Cur() == Formatted()
      ensures old(Valid()) ==> Cur() == Reformatted(old(Cur()))
    {
      hide Volume.Inv, Held, Saved, Disk.Knows, Objs, Holds, MetaOnDisk, SetFirst, Volume.Wf, TableBytes;
      ghost var v, blank := Cur(), Blank();
      FormatReady();
      FirstTwoSet(blkBmap);
      FirstTwoSet(inodeBmap);
      blkBmap := SetBit(SetBit(blkBmap, 0), 1);
      for i := 0 to ITAB_NUM_BLKS
        invariant blkBmap == SetFirst(old(blkBmap), 2 + i)
        invariant disk == old(disk) && known == old(known) && inodeBmap == old(inodeBmap) && inodeTab == old(inodeTab)
      {
        OneMoreSet(old(blkBmap), 2 + i);
        blkBmap := SetBit(blkBmap, i + 2);
      }
      inodeBmap := SetBit(SetBit(inodeBmap, 0), 1);
      inodeTab := inodeTab[1 := InodeInit(FS_DIR)];
      if blank {
        FormattedFits();
        assert inodeTab == Formatted().itab;
      } else {
        ReformattedFits(v, N());
        assert inodeTab == Reformatted(v).itab;
      }
      WriteMeta(TableBytes(inodeTab));
      if blank {
        FormattedIsSaved(known, N());
      } else {
        ReformattedIsHeld(old(known), known, v, N());
      }
      saved := Cur();
    }

    lemma FormatReady()
      requires Blank() || Valid()
      ensures |blkBmap| == |inodeBmap| == BLOCK_SIZE && |inodeTab| == ITAB_SIZE && 10 <= N() <= 8 * BLOCK_SIZE
      ensures Disk.Knows(disk, known)
      ensures !Blank() ==> Cur() in Held(known, N()) && Volume.Inv(Cur(), N())
      ensures !(Blank() && Valid())
      ensures Blank() ==>
                blkBmap == inodeBmap == Zeros(BLOCK_SIZE) && inodeTab[1 := InodeInit(FS_DIR)] == Formatted().itab
    {
    }

    /** What every call may rely on. */
    lemma Facts()
      requires Valid()
      ensures |blkBmap| == |inodeBmap| == BLOCK_SIZE && |inodeTab| == ITAB_SIZE && 10 <= N() <= 8 * BLOCK_SIZE
      ensures Volume.Wf(Cur()) && Volume.Inv(Cur(), N()) && Holds(known, Cur())
      ensures forall i | 0 <= i < ITAB_SIZE ::
                && |inodeTab[i].blocks| == INODE_NUM_BLKS && Readable(known, inodeTab[i])
                && (inodeTab[i].itype == FS_FILE <==> Cur().objs[i].File?)
                && (inodeTab[i].itype == FS_DIR <==> Cur().objs[i].Dir?)
    {
      forall i | 0 <= i < ITAB_SIZE ensures Readable(known, inodeTab[i]) {
        assert Volume.Used(inodeTab[i]) <= INODE_NUM_BLKS;
        assert forall k: nat | k < Volume.Used(inodeTab[i]) :: Volume.Slot(Cur(), i, k);
      }
    }

    method DiskWrite(no: nat, block: Block)
      requires Disk.Knows(disk, known) && no < N() && |block| == BLOCK_SIZE
      modifies this`disk, this`known
      ensures Disk.Knows(disk, known) && N() == old(N())
      ensures known == old(known)[no := block]
    {
      Disk.WriteIsKnown(disk, known, no, block);
      disk := Disk.Write(disk, no, block);
      known := known[no := block];
    }

    /** The writes of `fsi_store_fsdata`. */
    method WriteMeta(table: seq<byte>)
      requires Disk.Knows(disk, known) && N() >= 10
      requires |blkBmap| == |inodeBmap| == BLOCK_SIZE && |table| == ITAB_NUM_BLKS * BLOCK_SIZE
      modifies this`disk, this`known
      ensures Disk.Knows(disk, known) && N() == old(N())
      ensures forall b | b in old(known) :: b in known
      ensures forall b: nat | b >= 10 :: Contents(known, b) == Contents(old(known), b)
      ensures 0 in known && known[0] == blkBmap && 1 in known && known[1] == inodeBmap
      ensures forall j | 0 <= j < ITAB_NUM_BLKS :: TablePart(known, table, j)
    {
      hide Disk.Knows;
      DiskWrite(0, blkBmap);
      DiskWrite(1, inodeBmap);
      for i := 0 to ITAB_NUM_BLKS
        invariant Disk.Knows(disk, known) && N() == old(N())
        invariant forall b | b in old(known) :: b in known
        invariant forall b: nat | b >= 10 :: Contents(known, b) == Contents(old(known), b)
        invariant 0 in known && known[0] == blkBmap && 1 in known && known[1] == inodeBmap
        invariant forall j | 0 <= j < i :: TablePart(known, table, j)
      {
        label before:
        DiskWrite(2 + i, table[BLOCK_SIZE * i..BLOCK_SIZE * i + BLOCK_SIZE]);
        forall j | 0 <= j <= i ensures TablePart(known, table, j) {
          assert j < i ==> TablePart(old@before(known), table, j);
        }
      }
    }

    /** `fsi_store_fsdata`: the disk now holds what memory shows. */
    method Store()
      requires Disk.Knows(disk, known) && Cur() in Held(known, N())
      modifies this`disk, this`known, this`saved
      ensures Valid() && N() == old(N())
      ensures Cur() == saved == old(Cur())
    {
      ghost var v := Cur();
      WriteMeta(TableBytes(inodeTab));
      HoldsFrame(old(known), known, v, N());
      saved := v;
      assert Cur() == v;
    }

    /** A block that was written. */
    method ReadKnown(no: nat) returns (block: Block)
      requires Disk.Knows(disk, known) && no in known
      ensures block == known[no] == Contents(known, no)
    {
      block := Disk.Read(disk, no);
    }

    /** A block in use by an inode. */
    method ReadSlot(i: Inode, k: nat) returns (block: Block)
      requires Disk.Knows(disk, known) && Readable(known, i) && k < Volume.Used(i)
      ensures block == SlotContents(known, i, k)
    {
      block := Disk.Read(disk, i.blocks[k]);
    }

    /** The loop of `fs_read`: `max` bytes from `offset`, which the file has. */
    method ReadRange(ifile: Inode, offset: nat, max: nat) returns (buffer: seq<byte>)
      requires Disk.Knows(disk, known) && Readable(known, ifile)
      requires offset + max <= ifile.size && offset < ifile.size
      ensures buffer == FileBytes(known, ifile)[offset..offset + max]
    {
      hide Disk.Knows, Readable, Volume.ToBlocks, FileBytes, SlotContents;
      ghost var bytes := FileBytes(known, ifile);
      buffer := [];
      var pos, iblock, used := 0, offset / BLOCK_SIZE, Volume.ToBlocks(ifile.size);
      BlockInUse(ifile.size, offset);
      while pos < max && iblock < used
        invariant 0 <= pos <= max && buffer == bytes[offset..offset + pos]
        invariant pos < max ==> iblock == (offset + pos) / BLOCK_SIZE < used
        invariant 0 < pos < max ==> (offset + pos) % BLOCK_SIZE == 0
        decreases max - pos
      {
        var block := ReadSlot(ifile, iblock);
        var start := if pos == 0 then offset % BLOCK_SIZE else 0;
        var num := Min(BLOCK_SIZE - start, max - pos);
        SlotBytes(known, ifile, offset + pos, num);
        Stretches(bytes, offset, offset + pos, offset + (pos + num));
        if pos + num < max {
          NextBlock(offset + pos);
          BlockInUse(ifile.size, offset + pos + num);
        }
        buffer := buffer + block[start..start + num];
        pos := pos + num;
        iblock := iblock + 1;
      }
    }

    /** `fs_read`. */
    method Read(file: nat, offset: nat, count: nat) returns (rc: int, buffer: seq<byte>)
      requires Valid()
      ensures Volume.Read(Cur(), file, offset, count) == if rc == 0 then Some(buffer) else None
    {
      Facts();
      hide Volume.Inv, Held, Saved, Holds, MetaOnDisk, Disk.Knows, Volume.Wf, FileBytes, Readable;
      if file >= ITAB_SIZE || !IsSet(inodeBmap, file) || inodeTab[file].itype != FS_FILE {
        return -1, [];
      }
      var size := inodeTab[file].size;
      if offset >= size {
        return 0, [];
      }
      buffer := ReadRange(inodeTab[file], offset, Min(count, size - offset));
      rc := 0;
    }

    // ----- fs_write -----

    /** The allocation loop of `fs_write`, straight into the bitmap and the inode. */
    method AllocateBlocks(file: nat, first: nat, required: nat) returns (ok: bool)
      requires Valid() && file < ITAB_SIZE && first + required <= INODE_NUM_BLKS
      modifies this`blkBmap, this`inodeTab
      ensures var i := old(inodeTab[file]);
              var a := Volume.Allocate(old(blkBmap), i.blocks, first, required, N());
              && ok == a.ok && blkBmap == a.bmap
              && inodeTab == old(inodeTab)[file := i.(blocks := a.blocks)]
    {
      hide Volume.Inv, Held, Saved, Holds, Disk.Knows, Readable, Volume.Wf;
      Facts();
      ghost var i, tab := inodeTab[file], inodeTab;
      ghost var goal := Volume.Allocate(blkBmap, i.blocks, first, required, N());
      assert inodeTab[file := i.(blocks := i.blocks)] == inodeTab;
      var k := first;
      while k < first + required
        invariant first <= k <= first + required && disk == old(disk)
        invariant |inodeTab| == |tab| && |inodeTab[file].blocks| == INODE_NUM_BLKS && |blkBmap| == BLOCK_SIZE
        invariant inodeTab == tab[file := i.(blocks := inodeTab[file].blocks)]
        invariant Volume.Allocate(blkBmap, inodeTab[file].blocks, k, first + required - k, N()) == goal
      {
        var free := FindFree(blkBmap, Disk.Size(disk));
        if free.None? {
          return false;
        }
        inodeTab := inodeTab[file := inodeTab[file].(blocks := inodeTab[file].blocks[k := free.value])];
        blkBmap := SetBit(blkBmap, free.value);
        k := k + 1;
      }
      ok := true;
    }

    /** One round of the loops: the copy into `block` and the write of slot `k`. */
    method WriteBlock(ghost was: Known, blks: seq<nat>, offset: nat, used: nat, k: nat, buffer: seq<byte>,
                      num0: nat, block: Block, start: nat)
      returns (r: Block, num: nat)
      requires Disk.Knows(disk, known) && offset / BLOCK_SIZE <= k < |blks| && blks[k] < N() && |block| == BLOCK_SIZE
      requires forall j | offset / BLOCK_SIZE <= j < k :: blks[j] != blks[k]
      requires num0 < |buffer| && At(offset, |buffer|, num0, k)
      requires start == if num0 == 0 then offset % BLOCK_SIZE else 0
      requires k < used ==> block == Contents(was, blks[k])
      requires Patches(was, known, blks, offset / BLOCK_SIZE, k, used, offset, buffer)
      modifies this`disk, this`known
      ensures Disk.Knows(disk, known) && N() == old(N()) && |r| == BLOCK_SIZE && num0 < num <= |buffer|
      ensures At(offset, |buffer|, num, k + 1)
      ensures Patches(was, known, blks, offset / BLOCK_SIZE, k + 1, used, offset, buffer)
    {
      hide Disk.Knows, Patched;
      AtNext(offset, |buffer|, num0, k, start);
      CopyPatches(block, k, start, offset, buffer, num0);
      PatchedNew(Copied(block, start, buffer, num0), block, Contents(was, blks[k]), k, offset, buffer);
      PatchesNext(was, known, blks, offset / BLOCK_SIZE, k, used, offset, buffer, Copied(block, start, buffer, num0));
      r, num := CopyInto(block, start, buffer, num0);
      DiskWrite(blks[k], r);
    }

    /**
     * The two loops of `fs_write`, within the blocks in use and within the new ones. A new block is
     * not read: around the data stands what the buffer happened to hold.
     */
    method WriteBlocks(blks: seq<nat>, offset: nat, used: nat, total: nat, buffer: seq<byte>)
      returns (ghost next: nat)
      requires Disk.Knows(disk, known) && Writable(blks, used, total, N(), known)
      requires offset + |buffer| <= total * BLOCK_SIZE
      requires offset / BLOCK_SIZE < used || (offset == used * BLOCK_SIZE)
      modifies this`disk, this`known
      ensures Disk.Knows(disk, known) && N() == old(N())
      ensures LoopsEnd(offset, |buffer|, next, total)
      ensures Patches(old(known), known, blks, offset / BLOCK_SIZE, next, used, offset, buffer)
    {
      hide Disk.Knows, Patched, At, Patches;
      assert |Zeros(BLOCK_SIZE)| == BLOCK_SIZE;
      var block: Block :| |block| == BLOCK_SIZE;
      var num, iblock := 0, offset / BLOCK_SIZE;
      NothingWritten(known, blks, used, offset, buffer);
      while num < |buffer| && iblock < used
        invariant Disk.Knows(disk, known) && N() == old(N()) && num <= |buffer| && |block| == BLOCK_SIZE
        invariant offset / BLOCK_SIZE <= iblock <= used
        invariant At(offset, |buffer|, num, iblock)
        invariant Patches(old(known), known, blks, offset / BLOCK_SIZE, iblock, used, offset, buffer)
      {
        PatchesKeep(old(known), known, blks, offset / BLOCK_SIZE, iblock, used, offset, buffer, blks[iblock]);
        block := ReadKnown(blks[iblock]);
        var start := if num == 0 then offset % BLOCK_SIZE else 0;
        block, num := WriteBlock(old(known), blks, offset, used, iblock, buffer, num, block, start);
        iblock := iblock + 1;
      }
      InNewBlocks(offset, |buffer|, num, iblock, used);
      while num < |buffer| && iblock < total
        invariant Disk.Knows(disk, known) && N() == old(N()) && num <= |buffer| && |block| == BLOCK_SIZE
        invariant offset / BLOCK_SIZE <= iblock <= total && (num < |buffer| ==> used <= iblock)
        invariant At(offset, |buffer|, num, iblock) && (num == 0 < |buffer| ==> offset % BLOCK_SIZE == 0)
        invariant Patches(old(known), known, blks, offset / BLOCK_SIZE, iblock, used, offset, buffer)
      {
        block, num := WriteBlock(old(known), blks, offset, used, iblock, buffer, num, block, 0);
        iblock := iblock + 1;
      }
      AllWritten(offset, |buffer|, num, iblock, total);
      next := iblock;
    }

    /** `fs_write`. */
    method Write(file: nat, offset0: nat, buffer: seq<byte>) returns (rc: int)
      requires Valid()
      modifies this
      ensures Valid() && N() == old(N())
      ensures Volume.Outcome(Cur(), rc) == Volume.Write(old(Cur()), N(), file, offset0, buffer)
      ensures saved == if rc == 0 then Cur() else old(saved)
    {
      hide Volume.Inv, Held, Saved, Holds, Disk.Knows, MetaOnDisk, Volume.Wf, Volume.ToBlocks, Volume.Splice,
           Volume.Allocate, Objs;
      Facts();
      if file >= ITAB_SIZE || !IsSet(inodeBmap, file) || inodeTab[file].itype != FS_FILE {
        return -1;
      }
      ghost var v, n := Cur(), N();
      ghost var w := Volume.Write(v, n, file, offset0, buffer).vol;
      var size := inodeTab[file].size;
      var offset := Min(offset0, size);
      var used := Volume.ToBlocks(size);
      var required := Max(Volume.ToBlocks(offset + |buffer|), used) - used;
      if required > INODE_NUM_BLKS - used {
        return -1;
      }
      var ok := AllocateBlocks(file, used, required);
      if !ok {
        WriteFails(v, n, file, offset0, buffer, known);
        return -1;
      }
      WriteData(v, w, offset0, file, offset, used, required, buffer);
      rc := 0;
    }

    /** The rest of `fs_write`, once the blocks are allocated. */
    method WriteData(ghost v: Volume.Vol, ghost w: Volume.Vol, ghost offset0: nat,
                     file: nat, offset: nat, used: nat, required: nat, buffer: seq<byte>)
      requires Disk.Knows(disk, known)
      requires WriteBegun(known, v, Cur(), w, N(), file, offset0, offset, used, required, buffer)
      modifies this
      ensures Valid() && N() == old(N()) && Cur() == saved == w
    {
      ghost var n := N();
      WriteReady(known, v, Cur(), w, n, file, offset0, offset, used, required, buffer);
      hide Held, Saved, Holds, Disk.Knows, MetaOnDisk, Volume.ToBlocks, Patches, LoopsEnd, WriteBegun;
      var size := inodeTab[file].size;
      ghost var next := WriteBlocks(inodeTab[file].blocks, offset, used, used + required, buffer);
      WriteDone(old(known), v, old(Cur()), w, n, file, offset0, offset, used, required, buffer, known, next);
      inodeTab := inodeTab[file := inodeTab[file].(size := Max(offset + |buffer|, size))];
      assert Cur() == w;
      Store();
    }

    // ----- names -----

    /** `fsi_dir_search`. */
    method DirSearch(idir: Inode, file: seq<byte>) returns (fileid: Option<nat>)
      requires Disk.Knows(disk, known) && Readable(known, idir) && idir.size % DENTRY_SIZE == 0
      ensures fileid == Volume.Search(DirEntries(known, idir), file, 0)
    {
      hide Disk.Knows, Readable, SlotContents, DirEntries, DentryAt;
      ghost var entries := DirEntries(known, idir);
      var num, iblock := idir.size / DENTRY_SIZE, 0;
      while num > 0
        invariant 0 <= num <= |entries| && (num > 0 ==> |entries| - num == DIR_PAGE_ENTRIES * iblock)
        invariant Volume.Search(entries, file, 0) == Volume.Search(entries, file, |entries| - num)
        decreases num
      {
        PageInUse(idir.size, iblock);
        var page := ReadSlot(idir, iblock);
        var i := 0;
        while i < DIR_PAGE_ENTRIES && num > 0
          invariant 0 <= i <= DIR_PAGE_ENTRIES && 0 <= num <= |entries|
          invariant |entries| - num == DIR_PAGE_ENTRIES * iblock + i
          invariant Volume.Search(entries, file, 0) == Volume.Search(entries, file, |entries| - num)
          decreases num
        {
          PageEntry(known, idir, iblock, i);
          var entry := DentryAt(page, i);
          if entry.name == file {
            return Some(entry.id);
          }
          i := i + 1;
          num := num - 1;
        }
        iblock := iblock + 1;
      }
      fileid := None;
    }

    /**
     * `fs_create` and `fs_mkdir`, which differ in the type of the inode and in the name they store:
     * they look for `key` and store `name`.
     */
    method Make(dir: nat, key: seq<byte>, name: seq<byte>, itype: nat) returns (rc: int, id: Option<nat>)
      requires Valid() && CString(name) && |name| <= |key| && itype in {FS_DIR, FS_FILE}
      modifies this
      ensures Valid() && N() == old(N())
      ensures Volume.Made(Cur(), rc, id) == Volume.Make(old(Cur()), N(), dir, key, name, itype)
      ensures saved == if rc == 0 then Cur() else old(saved)
    {
      hide Volume.Inv, Held, Saved, Holds, Disk.Knows, MetaOnDisk, Volume.Wf, Objs, Readable, DirEntries,
           Volume.Search, Entered;
      Facts();
      ghost var v, n := Cur(), N();
      if dir >= ITAB_SIZE || |key| == 0 || |key| + 1 > FS_MAX_FNAME_SZ || !IsSet(inodeBmap, dir) ||
         inodeTab[dir].itype != FS_DIR {
        return -1, None;
      }
      DirObj(dir);
      id := DirSearch(inodeTab[dir], key);
      if id.Some? {
        return -1, id;
      }
      id := FindFree(inodeBmap, ITAB_SIZE);
      if id.None? {
        return -1, None;
      }
      var size := inodeTab[dir].size;
      if size % BLOCK_SIZE == 0 {
        var fblock := FindFree(blkBmap, Disk.Size(disk));
        if fblock.None? {
          return -1, None;
        }
        blkBmap := SetBit(blkBmap, fblock.value);
        inodeTab := inodeTab[dir := inodeTab[dir].(blocks := inodeTab[dir].blocks[size / BLOCK_SIZE := fblock.value])];
      }
      EntryBegins(known, v, Cur(), n, dir, key, name, itype);
      AddEntry(v, Volume.Make(v, n, dir, key, name, itype).vol, dir, name, id.value, itype);
      rc := 0;
    }

    /** The entry, the new inode and the metadata. */
    method AddEntry(ghost v: Volume.Vol, ghost w: Volume.Vol, dir: nat, name: seq<byte>, id: nat, itype: nat)
      requires Disk.Knows(disk, known) && EntryBegun(known, v, Cur(), w, N(), dir, name, id, itype)
      modifies this
      ensures Valid() && N() == old(N()) && Cur() == saved == w
    {
      hide Held, Saved, Disk.Knows, EntryBegun, Objs, EntryBlockNo, AfterEntry, InodeInit, SetBit, CString;
      EntryReady(known, v, Cur(), w, N(), dir, name, id, itype);
      EntryMetadata(known, v, Cur(), w, N(), dir, name, id, itype);
      var size := inodeTab[dir].size;
      ghost var page := WriteEntry(EntryBlockNo(inodeTab[dir]), size, name, id);
      EntryDone(old(known), v, old(Cur()), w, N(), dir, name, id, itype, page, known);
      inodeTab := inodeTab[dir := inodeTab[dir].(size := size + DENTRY_SIZE)];
      inodeBmap := SetBit(inodeBmap, id);
      inodeTab := inodeTab[id := InodeInit(itype)];
      Store();
    }

    /** The page of the directory, read and written back with the entry. */
    method WriteEntry(no: nat, size: nat, name: seq<byte>, id: nat) returns (ghost was: Block)
      requires Disk.Knows(disk, known) && no < N() && |name| < FS_MAX_FNAME_SZ && id < ITAB_SIZE
      modifies this`disk, this`known
      ensures Disk.Knows(disk, known) && N() == old(N()) && |was| == BLOCK_SIZE
      ensures no in old(known) ==> was == Contents(old(known), no)
      ensures known == AfterEntry(old(known), no, was, size, name, id)
    {
      var page := Disk.Read(disk, no);
      was := page;
      page := PutDentry(page, size % BLOCK_SIZE / DENTRY_SIZE, name, id);
      DiskWrite(no, page);
    }

    /** `fs_create`. */
    method Create(dir: nat, file: seq<byte>) returns (rc: int, id: Option<nat>)
      requires Valid() && CString(file)
      modifies this
      ensures Valid() && N() == old(N())
      ensures Volume.Made(Cur(), rc, id) == Volume.Create(old(Cur()), N(), dir, file)
      ensures saved == if rc == 0 then Cur() else old(saved)
    {
      rc, id := Make(dir, file, if file == [] then [] else file[1..], FS_FILE);
    }

    /** `fs_mkdir`. */
    method Mkdir(dir: nat, newdir: seq<byte>) returns (rc: int, id: Option<nat>)
      requires Valid() && CString(newdir)
      modifies this
      ensures Valid() && N() == old(N())
      ensures Volume.Made(Cur(), rc, id) == Volume.Mkdir(old(Cur()), N(), dir, newdir)
      ensures saved == if rc == 0 then Cur() else old(saved)
    {
      rc, id := Make(dir, newdir, newdir, FS_DIR);
    }

    /** `fs_truncate`, which stores nothing. */
    method Truncate(file: nat) returns (rc: int)
      requires Valid() && file < ITAB_SIZE
      modifies this`blkBmap, this`inodeTab
      ensures Valid() && N() == old(N())
      ensures Volume.Outcome(Cur(), rc) == Volume.Truncate(old(Cur()), N(), file)
    {
      hide Volume.Inv, Held, Saved, Disk.Knows, Objs, ClearBit, Holds, Volume.Wf, Readable, Volume.ClearBlocks;
      Facts();
      ghost var v, n, i := Cur(), N(), inodeTab[file];
      TruncateIsHeld(known, v, n, file);
      if inodeTab[file].itype != FS_FILE {
        return -1;
      }
      var used := Volume.ToBlocks(inodeTab[file].size);
      BlocksCleared(v, n, file, 0);
      for k := 0 to used
        invariant inodeTab == old(inodeTab) && |blkBmap| == BLOCK_SIZE
        invariant BlocksBounded(v, n, file, k) && blkBmap == Volume.ClearBlocks(old(blkBmap), i.blocks[..k])
      {
        BlocksCleared(v, n, file, k + 1);
        blkBmap := ClearBit(blkBmap, inodeTab[file].blocks[k]);
      }
      inodeTab := inodeTab[file := inodeTab[file].(size := 0)];
      rc := 0;
    }

    /** `fs_readdir`. */
    method Readdir(dir: nat, maxentries: int) returns (rc: int, entries: seq<(seq<byte>, nat)>)
      requires Valid()
      ensures Volume.Readdir(Cur(), N(), dir, maxentries) == if rc == 0 then Some(entries) else None
    {
      hide Volume.Inv, Held, Saved, Holds, Disk.Knows, Volume.Wf, Objs, Readable, DirEntries, SlotContents, DentryAt;
      Facts();
      entries := [];
      if dir >= ITAB_SIZE || maxentries < 0 || !IsSet(inodeBmap, dir) || inodeTab[dir].itype != FS_DIR {
        return -1, entries;
      }
      DirObj(dir);
      ghost var all := Volume.Readdir(Cur(), N(), dir, maxentries).value;
      var idir := inodeTab[dir];
      var num, iblock := Min(idir.size / DENTRY_SIZE, maxentries), 0;
      while num > 0
        invariant 0 <= num <= |all| && (num > 0 ==> |all| - num == DIR_PAGE_ENTRIES * iblock)
        invariant entries == all[..|all| - num]
        decreases num
      {
        PageInUse(idir.size, iblock);
        var page := ReadSlot(idir, iblock);
        var i := 0;
        while i < DIR_PAGE_ENTRIES && num > 0
          invariant 0 <= i <= DIR_PAGE_ENTRIES && 0 <= num <= |all|
          invariant |all| - num == DIR_PAGE_ENTRIES * iblock + i
          invariant entries == all[..|all| - num]
          decreases num
        {
          PageEntry(known, idir, iblock, i);
          var entry := DentryAt(page, i);
          EntryListed(dir, maxentries, |all| - num);
          entries := entries + [(entry.name, inodeTab[entry.id].itype)];
          i := i + 1;
          num := num - 1;
        }
        iblock := iblock + 1;
      }
      assert all[..|all|] == all;
      rc := 0;
    }

    lemma EntryListed(dir: nat, max: int, e: nat)
      requires Valid() && Volume.Readdir(Cur(), N(), dir, max).Some?
      requires e < |Volume.Readdir(Cur(), N(), dir, max).value|
      ensures dir < ITAB_SIZE && e < |DirEntries(known, inodeTab[dir])|
      ensures var entry := DirEntries(known, inodeTab[dir])[e];
              && entry.id < |inodeTab|
              && Volume.Readdir(Cur(), N(), dir, max).value[e] == (entry.name, inodeTab[entry.id].itype)
    {
      assert Volume.IsEntry(Cur(), dir, e) && Volume.EntryId(Cur(), dir, e) < ITAB_SIZE;
    }

    /** `fs_lookup`. */
    method Lookup(file: seq<byte>) returns (rc: int, fileid: Option<nat>)
      requires Valid() && |file| < Paths.MAX_PATH_NAME_SIZE
      ensures Paths.Looked(rc, fileid) == Paths.Lookup(Cur(), file)
    {
      hide Volume.Inv, Held, Saved, Holds, Disk.Knows, Volume.Wf, Objs, Readable, DirEntries, Volume.Search,
           Paths.Tokens;
      Facts();
      if file == [] || file[0] != Paths.SLASH {
        return -1, None;
      }
      fileid := None;
      var line := file;
      var first, dir: nat := true, 0;
      var token;
      token, line := Paths.NextToken(line);
      while token.Some?
        invariant dir < ITAB_SIZE
        invariant Paths.Lookup(Cur(), file) ==
                  Paths.Walk(Cur(), if first then 1 else dir,
                             if token.Some? then [token.value] + Paths.Tokens(line) else [], fileid)
        decreases if token.Some? then |line| + 1 else 0
      {
        if first {
          first, dir := false, 1;
        }
        Paths.WalkStep(Cur(), N(), dir, token.value, Paths.Tokens(line), fileid);
        if !IsSet(inodeBmap, dir) || inodeTab[dir].itype != FS_DIR {
          return -1, fileid;
        }
        DirObj(dir);
        var fid := DirSearch(inodeTab[dir], token.value);
        if fid.None? {
          return 0, fileid;
        }
        fileid := fid;
        dir := fid.value;
        token, line := Paths.NextToken(line);
      }
      rc := 1;
    }

    /** What a directory on the disk holds. */
    lemma DirObj(dir: nat)
      requires Valid() && dir < ITAB_SIZE && inodeTab[dir].itype == FS_DIR
      ensures Cur().objs[dir] == Volume.Dir(DirEntries(known, inodeTab[dir])) && inodeTab[dir].size % DENTRY_SIZE == 0
      ensures IsSet(inodeBmap, dir) ==> inodeTab[dir].size / BLOCK_SIZE < INODE_NUM_BLKS
    {
      if IsSet(inodeBmap, dir) {
        Volume.DirectoryHasRoom(Cur(), N(), dir);
      }
    }
  }

  /** A stretch of a file inside one block. */
  lemma SlotBytes(known: Known, i: Inode, at: nat, num: nat)
    requires at % BLOCK_SIZE + num <= BLOCK_SIZE && at + num <= i.size
    ensures FileBytes(known, i)[at..at + num] ==
            SlotContents(known, i, at / BLOCK_SIZE)[at % BLOCK_SIZE..at % BLOCK_SIZE + num]
  {
    var a := FileBytes(known, i)[at..at + num];
    var b := SlotContents(known, i, at / BLOCK_SIZE)[at % BLOCK_SIZE..at % BLOCK_SIZE + num];
    forall x | 0 <= x < num ensures a[x] == b[x] {
      FileByte(known, i, at + x);
      assert (at + x) / BLOCK_SIZE == at / BLOCK_SIZE && (at + x) % BLOCK_SIZE == at % BLOCK_SIZE + x;
    }
  }

  /** The next stretch of a file behind those already read. */
  lemma Stretches(bytes: seq<byte>, from: nat, mid: nat, to: nat)
    requires from <= mid <= to <= |bytes|
    ensures bytes[from..mid] + bytes[mid..to] == bytes[from..to]
  {
  }

  lemma BlockInUse(size: nat, at: nat)
    requires at < size
    ensures at / BLOCK_SIZE < Volume.ToBlocks(size)
  {
  }

  /** The rest of a block ends where the next block begins. */
  lemma NextBlock(at: nat)
    ensures (at + (BLOCK_SIZE - at % BLOCK_SIZE)) / BLOCK_SIZE == at / BLOCK_SIZE + 1
    ensures (at + (BLOCK_SIZE - at % BLOCK_SIZE)) % BLOCK_SIZE == 0
  {
  }

  /** A page with entries left to visit is in use. */
  lemma PageInUse(size: nat, iblock: nat)
    requires DIR_PAGE_ENTRIES * iblock < size / DENTRY_SIZE
    ensures iblock < Volume.ToBlocks(size)
  {
  }

  /** Entry `i` of a page of the directory. */
  lemma PageEntry(known: Known, i: Inode, iblock: nat, e: nat)
    requires e < DIR_PAGE_ENTRIES && DIR_PAGE_ENTRIES * iblock + e < i.size / DENTRY_SIZE
    ensures DirEntries(known, i)[DIR_PAGE_ENTRIES * iblock + e] == DentryAt(SlotContents(known, i, iblock), e)
  {
    PagePlace(iblock, e);
    hide SlotContents, DirEntries, DentryAt;
    DirEntry(known, i, DIR_PAGE_ENTRIES * iblock + e);
  }

  lemma PagePlace(iblock: nat, e: nat)
    requires e < DIR_PAGE_ENTRIES
    ensures (DIR_PAGE_ENTRIES * iblock + e) / DIR_PAGE_ENTRIES == iblock
    ensures (DIR_PAGE_ENTRIES * iblock + e) % DIR_PAGE_ENTRIES == e
  {
  }
}
