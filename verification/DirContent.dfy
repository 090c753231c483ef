/** What the entry written by `fs_create` and `fs_mkdir` does to the directories on the disk. */
module DirContent {
  import opened Base
  import opened Bitmap
  import opened Codec
  import opened Layout
  import opened VolumeInv
  import Volume

  /** The entry goes behind the last one; what the page held behind it does not matter. */
  lemma EntryAppended(was: Known, known: Known, i: Inode, i': Inode, b: nat, page: Block, name: seq<byte>, id: nat)
    requires i.size % DENTRY_SIZE == 0 && i'.size == i.size + DENTRY_SIZE
    requires |name| < FS_MAX_FNAME_SZ && id < ITAB_SIZE && CString(name) && |page| == BLOCK_SIZE
    requires i.size / BLOCK_SIZE < |i'.blocks| && i'.blocks[i.size / BLOCK_SIZE] == b
    requires forall k | 0 <= k < i.size / BLOCK_SIZE ::
               k < |i.blocks| && i'.blocks[k] == i.blocks[k] && i.blocks[k] != b
    requires i.size % BLOCK_SIZE != 0 ==> page == SlotContents(was, i, i.size / BLOCK_SIZE)
    requires known == was[b := PutDentry(page, i.size % BLOCK_SIZE / DENTRY_SIZE, name, id)]
    ensures DirEntries(known, i') == DirEntries(was, i) + [Dentry(name, id)]
  {
    var last := i.size / DENTRY_SIZE;
    var all, old' := DirEntries(known, i'), DirEntries(was, i);
    forall e | 0 <= e <= last ensures all[e] == if e == last then Dentry(name, id) else old'[e] {
      DirEntry(known, i', e);
      if e < last {
        DirEntry(was, i, e);
      }
      EntryPlace(i.size, e);
      PutDentryPuts(page, i.size % BLOCK_SIZE / DENTRY_SIZE, name, id, e % DIR_PAGE_ENTRIES);
    }
  }

  /** Where entry `e` of a directory lies when the next one goes to the end of its `size` bytes. */
  lemma EntryPlace(size: nat, e: nat)
    requires size % DENTRY_SIZE == 0 && e <= size / DENTRY_SIZE
    ensures e / DIR_PAGE_ENTRIES <= size / BLOCK_SIZE
    ensures size % BLOCK_SIZE / DENTRY_SIZE == size / DENTRY_SIZE % DIR_PAGE_ENTRIES < DIR_PAGE_ENTRIES
    ensures size / DENTRY_SIZE / DIR_PAGE_ENTRIES == size / BLOCK_SIZE
    ensures e < size / DENTRY_SIZE && e / DIR_PAGE_ENTRIES == size / BLOCK_SIZE ==>
              size % BLOCK_SIZE != 0 && e % DIR_PAGE_ENTRIES != size % BLOCK_SIZE / DENTRY_SIZE
  {
  }

  /** The block for the next entry of a directory. */
  function EntryBlockNo(i: Inode): nat {
    if i.size / BLOCK_SIZE < |i.blocks| then i.blocks[i.size / BLOCK_SIZE] else 0
  }

  /** `w` is `v` with an entry in `dir`, which the disk may hold already but for the new entry. */
  ghost predicate Enters(known: Known, v: Volume.Vol, w: Volume.Vol, n: nat, dir: nat, name: seq<byte>, itype: nat) {
    && v in Held(known, n) && CString(name) && |name| < FS_MAX_FNAME_SZ && itype in {FS_DIR, FS_FILE}
    && Volume.Inv(w, n) && Entered(v, w, n, dir, name, itype)
  }

  /** The block the entry goes to. */
  lemma EntryBlock(known: Known, v: Volume.Vol, w: Volume.Vol, n: nat, dir: nat, name: seq<byte>, itype: nat)
    requires Enters(known, v, w, n, dir, name, itype)
    ensures var k := v.itab[dir].size / BLOCK_SIZE;
            && v.itab[dir].size % DENTRY_SIZE == 0 && dir < ITAB_SIZE
            && k < |v.itab[dir].blocks| == |w.itab[dir].blocks| == INODE_NUM_BLKS
            && Volume.Slot(w, dir, k) && w.itab[dir].blocks[k] < n
            && Volume.Used(w.itab[dir]) == k + 1
            && (v.itab[dir].size % BLOCK_SIZE != 0 ==>
                  Volume.Slot(v, dir, k) && v.itab[dir].blocks[k] == w.itab[dir].blocks[k])
  {
    hide Volume.Tree, Volume.Prefix, FirstFree, SetBit;
    UsedAfterEntry(v.itab[dir].size);
  }

  /** The disk after the write of the page with the entry. */
  function AfterEntry(known: Known, b: nat, page: Block, size: nat, name: seq<byte>, id: nat): Known
    requires |page| == BLOCK_SIZE && |name| < FS_MAX_FNAME_SZ && id < ITAB_SIZE
  {
    known[b := PutDentry(page, size % BLOCK_SIZE / DENTRY_SIZE, name, id)]
  }

  /** The disk with the entry holds the volume with the entry. */
  lemma EnteredIsHeld(known: Known, v: Volume.Vol, w: Volume.Vol, n: nat, dir: nat, name: seq<byte>, itype: nat,
                      page: Block)
    requires Enters(known, v, w, n, dir, name, itype) && |page| == BLOCK_SIZE
    requires v.itab[dir].size / BLOCK_SIZE < |w.itab[dir].blocks|
    requires v.itab[dir].size % BLOCK_SIZE != 0 ==>
             page == SlotContents(known, v.itab[dir], v.itab[dir].size / BLOCK_SIZE)
    ensures var size := v.itab[dir].size;
            var after := AfterEntry(known, w.itab[dir].blocks[size / BLOCK_SIZE], page, size, name, Volume.Top(v));
            w in Held(after, n) && w.objs == Objs(after, w.itab)
  {
    hide Volume.Inv, Volume.Wf, PutDentry, FirstFree, SetBit, DirEntries, FileBytes, Extended, InodeInit, SlotsKnown;
    EntryBlock(known, v, w, n, dir, name, itype);
    EntryObjs(known, v, w, n, dir, name, itype);
    var i, size, id := v.itab[dir], v.itab[dir].size, Volume.Top(v);
    var b := w.itab[dir].blocks[size / BLOCK_SIZE];
    var after := AfterEntry(known, b, page, size, name, id);
    OldSlots(known, v, w, n, dir, name, itype);
    EntryAppended(known, after, i, w.itab[dir], b, page, name, id);
    forall j | 0 <= j < ITAB_SIZE ensures w.objs[j] == ObjOf(after, w.itab[j]) {
      if j == id {
        ObjOfNew(after, itype);
      } else if j != dir {
        OtherStays(known, after, v, w, n, dir, j, size / BLOCK_SIZE);
      }
    }
    SlotsKnownAfter(known, after, v, w, n, dir, name, itype);
  }

  lemma EntryObjs(known: Known, v: Volume.Vol, w: Volume.Vol, n: nat, dir: nat, name: seq<byte>, itype: nat)
    requires Enters(known, v, w, n, dir, name, itype)
    ensures |v.itab| == |v.objs| == |w.itab| == |w.objs| == ITAB_SIZE && dir < ITAB_SIZE && v.itab[dir].itype == FS_DIR
    ensures v.objs == Objs(known, v.itab) && v.objs[dir] == Volume.Dir(DirEntries(known, v.itab[dir]))
    ensures w.itab[dir].itype == FS_DIR && w.itab[dir].size == v.itab[dir].size + DENTRY_SIZE
    ensures Volume.Top(v) < ITAB_SIZE && Volume.Top(v) != dir && w.itab[Volume.Top(v)] == InodeInit(itype)
    ensures forall j | 0 <= j < ITAB_SIZE && j != dir && j != Volume.Top(v) ::
            w.itab[j] == v.itab[j] && w.objs[j] == v.objs[j]
    ensures w.objs[dir] == Volume.Dir(v.objs[dir].entries + [Dentry(name, Volume.Top(v))])
    ensures w.objs[Volume.Top(v)] == if itype == FS_DIR then Volume.Dir([]) else Volume.File([])
  {
    hide Volume.Owned, Volume.Tree, FirstFree, SetBit, DirEntries, FileBytes, InodeInit;
  }

  lemma ObjOfNew(known: Known, itype: nat)
    ensures ObjOf(known, InodeInit(itype)) ==
            if itype == FS_FILE then Volume.File([]) else if itype == FS_DIR then Volume.Dir([]) else Volume.Free
  {
  }

  /** The blocks that were in use stay in use, and the entry goes to another one or to the last of `dir`. */
  lemma OldSlots(known: Known, v: Volume.Vol, w: Volume.Vol, n: nat, dir: nat, name: seq<byte>, itype: nat)
    requires Enters(known, v, w, n, dir, name, itype)
    ensures var k := v.itab[dir].size / BLOCK_SIZE;
            && dir < ITAB_SIZE && k < |w.itab[dir].blocks| && |v.itab[dir].blocks| == |w.itab[dir].blocks|
            && (forall l | 0 <= l < k ::
                  w.itab[dir].blocks[l] == v.itab[dir].blocks[l] != w.itab[dir].blocks[k])
  {
    EntryBlock(known, v, w, n, dir, name, itype);
    var k := v.itab[dir].size / BLOCK_SIZE;
    hide Volume.Tree, Volume.Prefix, FirstFree, SetBit;
    forall l | 0 <= l < k
      ensures w.itab[dir].blocks[l] == v.itab[dir].blocks[l] && v.itab[dir].blocks[l] != w.itab[dir].blocks[k]
    {
      assert Volume.Slot(w, dir, l);
    }
  }

  lemma SlotsKnownAfter(known: Known, after: Known, v: Volume.Vol, w: Volume.Vol, n: nat, dir: nat, name: seq<byte>,
                        itype: nat)
    requires Enters(known, v, w, n, dir, name, itype)
    requires v.itab[dir].size / BLOCK_SIZE < |w.itab[dir].blocks|
    requires w.itab[dir].blocks[v.itab[dir].size / BLOCK_SIZE] in after && forall b | b in known :: b in after
    ensures SlotsKnown(after, w.itab)
  {
    hide Volume.Tree, Volume.Prefix, Volume.Owned, FirstFree, SetBit;
    EntryBlock(known, v, w, n, dir, name, itype);
    OldSlots(known, v, w, n, dir, name, itype);
    forall j: nat, k: nat | j < |w.itab| && k < Volume.Used(w.itab[j]) && k < |w.itab[j].blocks|
      ensures w.itab[j].blocks[k] in after
    {
      if j == dir && k < v.itab[dir].size / BLOCK_SIZE {
        UsedAfterEntry(v.itab[dir].size);
        assert v.itab[j].blocks[k] in known;
      }
    }
  }

  lemma OtherStays(known: Known, after: Known, v: Volume.Vol, w: Volume.Vol, n: nat, dir: nat, j: nat, k: nat)
    requires Volume.Inv(v, n) && Volume.Inv(w, n) && Holds(known, v) && j < ITAB_SIZE && dir < ITAB_SIZE && j != dir
    requires w.itab[j] == v.itab[j] && Volume.Slot(w, dir, k)
    requires forall b | b in known && b != w.itab[dir].blocks[k] :: b in after && after[b] == known[b]
    ensures ObjOf(after, w.itab[j]) == ObjOf(known, v.itab[j])
  {
    hide Volume.Tree, Volume.Prefix;
    forall l | 0 <= l < Volume.Used(w.itab[j])
      ensures SlotContents(after, w.itab[j], l) == SlotContents(known, v.itab[j], l)
    {
      if l < INODE_NUM_BLKS {
        assert Volume.Slot(w, j, l) && Volume.Slot(v, j, l);
      }
    }
    ObjFrame(after, known, w.itab[j], v.itab[j]);
  }

  // ----- between the choice of the block and the end of the call -----

  /** `cur` is `v` with a block for the entry; `w` is the volume the call leads to. */
  ghost predicate EntryBegun(known: Known, v: Volume.Vol, cur: Volume.Vol, w: Volume.Vol, n: nat, dir: nat,
                             name: seq<byte>, id: nat, itype: nat) {
    && Enters(known, v, w, n, dir, name, itype) && id == Volume.Top(v)
    && cur.bmap == w.bmap && cur.ibmap == v.ibmap
    && cur.itab == v.itab[dir := w.itab[dir].(size := v.itab[dir].size)]
  }

  lemma EntryBegins(known: Known, v: Volume.Vol, cur: Volume.Vol, n: nat, dir: nat, key: seq<byte>,
                    name: seq<byte>, itype: nat)
    requires v in Held(known, n) && CString(name) && |name| < FS_MAX_FNAME_SZ && itype in {FS_DIR, FS_FILE}
    requires Volume.Make(v, n, dir, key, name, itype).rc == 0
    requires Volume.IsDir(v, dir) && v.itab[dir].size < INODE_NUM_BLKS * BLOCK_SIZE
    requires var g := Volume.GrowDir(v, n, dir);
             g.Some? && cur.bmap == g.value.bmap && cur.ibmap == v.ibmap && cur.itab == g.value.itab
    ensures var made := Volume.Make(v, n, dir, key, name, itype);
            made.id.Some? && EntryBegun(known, v, cur, made.vol, n, dir, name, made.id.value, itype)
  {
    MakeKeepsInv(v, n, dir, key, name, itype);
    MadeIs(v, n, dir, key, name, itype);
    hide Volume.Tree, Volume.Prefix, Volume.Owned, FirstFree, SetBit, Volume.EntryCount, Entered, Volume.Search, Holds;
    assert v.itab[dir].(blocks := v.itab[dir].blocks) == v.itab[dir];
  }

  lemma EntryReady(known: Known, v: Volume.Vol, cur: Volume.Vol, w: Volume.Vol, n: nat, dir: nat,
                   name: seq<byte>, id: nat, itype: nat)
    requires EntryBegun(known, v, cur, w, n, dir, name, id, itype)
    ensures dir < ITAB_SIZE && id < ITAB_SIZE && id != dir && |cur.itab| == ITAB_SIZE && |cur.ibmap| == BLOCK_SIZE
    ensures |name| < FS_MAX_FNAME_SZ && |w.bmap| == |w.ibmap| == BLOCK_SIZE && n <= 8 * BLOCK_SIZE
    ensures cur.itab[dir].size / BLOCK_SIZE < |cur.itab[dir].blocks|
    ensures EntryBlockNo(cur.itab[dir]) < n
  {
    EntryBlock(known, v, w, n, dir, name, itype);
  }

  lemma EntryDone(was: Known, v: Volume.Vol, cur: Volume.Vol, w: Volume.Vol, n: nat, dir: nat,
                  name: seq<byte>, id: nat, itype: nat, page: Block, known: Known)
    requires EntryBegun(was, v, cur, w, n, dir, name, id, itype)
    requires |page| == BLOCK_SIZE && |name| < FS_MAX_FNAME_SZ && id < ITAB_SIZE && dir < |cur.itab|
    requires EntryBlockNo(cur.itab[dir]) in was ==> page == Contents(was, EntryBlockNo(cur.itab[dir]))
    requires known == AfterEntry(was, EntryBlockNo(cur.itab[dir]), page, cur.itab[dir].size, name, id)
    ensures w in Held(known, n) && w.objs == Objs(known, w.itab)
  {
    hide Volume.Tree, Volume.Prefix, Volume.Owned, FirstFree, SetBit, PutDentry, Objs, Entered;
    EntryBlock(was, v, w, n, dir, name, itype);
    assert v.itab[dir].size % BLOCK_SIZE != 0 ==>
             Volume.Slot(v, dir, v.itab[dir].size / BLOCK_SIZE) &&
             v.itab[dir].blocks[v.itab[dir].size / BLOCK_SIZE] in was;
    EnteredIsHeld(was, v, w, n, dir, name, itype, page);
  }

  lemma EntryMetadata(was: Known, v: Volume.Vol, cur: Volume.Vol, w: Volume.Vol, n: nat, dir: nat,
                      name: seq<byte>, id: nat, itype: nat)
    requires EntryBegun(was, v, cur, w, n, dir, name, id, itype)
    requires dir < |cur.itab| && id < |cur.itab| && id < 8 * |cur.ibmap|
    ensures w.bmap == cur.bmap && w.ibmap == SetBit(cur.ibmap, id)
    ensures w.itab == cur.itab[dir := cur.itab[dir].(size := cur.itab[dir].size + DENTRY_SIZE)][id := InodeInit(itype)]
  {
    hide Volume.Tree, Volume.Prefix, Volume.Owned, FirstFree, SetBit;
    assert w.itab[dir].size == v.itab[dir].size + DENTRY_SIZE;
  }
}
