/**
 * What the file system of sofs/fs.c promises its callers: inodes that hold byte sequences or
 * directory entries, whatever disk lies beneath. The calls are functions on `Vol`.
 */
module Volume {
  import opened Base
  import opened Bitmap
  import opened Codec

  datatype Obj = Free | File(bytes: seq<byte>) | Dir(entries: seq<Dentry>)

  /** The bitmaps and the inode table in memory, and what each inode holds. */
  datatype Vol = Vol(bmap: seq<byte>, ibmap: seq<byte>, itab: seq<Inode>, objs: seq<Obj>)

  /** `OFFSET_TO_BLOCKS`. */
  function ToBlocks(pos: nat): nat {
    pos / BLOCK_SIZE + (if pos % BLOCK_SIZE > 0 then 1 else 0)
  }

  function Used(i: Inode): nat {
    ToBlocks(i.size)
  }

  // ----- the invariant -----

  ghost predicate Wf(v: Vol) {
    && |v.bmap| == BLOCK_SIZE && |v.ibmap| == BLOCK_SIZE && |v.itab| == ITAB_SIZE && |v.objs| == ITAB_SIZE
    && forall i | 0 <= i < ITAB_SIZE ::
         && InodeFits(v.itab[i])
         && v.itab[i].size <= INODE_NUM_BLKS * BLOCK_SIZE
         && match v.objs[i]
            case Free => v.itab[i].itype == 0 && v.itab[i].size == 0
            case File(bytes) => v.itab[i].itype == FS_FILE && |bytes| == v.itab[i].size
            case Dir(entries) => v.itab[i].itype == FS_DIR && DENTRY_SIZE * |entries| == v.itab[i].size
  }

  /** Slot `k` of inode `i` holds a block in use. */
  predicate Slot(v: Vol, i: nat, k: nat) {
    i < |v.itab| && k < Used(v.itab[i]) && k < |v.itab[i].blocks|
  }

  /**
   * Blocks 0 to 9 are reserved, every block in use is another block below `n` that is marked, and
   * it belongs to one slot of one inode only.
   */
  ghost predicate Owned(v: Vol, n: nat)
    requires Wf(v) && n <= 8 * BLOCK_SIZE
  {
    && (forall b | 0 <= b < 10 :: IsSet(v.bmap, b))
    && (forall i: nat, k: nat | Slot(v, i, k) :: 10 <= v.itab[i].blocks[k] < n && IsSet(v.bmap, v.itab[i].blocks[k]))
    && (forall i: nat, k: nat, j: nat, l: nat | Slot(v, i, k) && Slot(v, j, l) &&
        v.itab[i].blocks[k] == v.itab[j].blocks[l] ::
          i == j && k == l)
  }

  /** The number of the first free inode. */
  function Top(v: Vol): nat
    requires |v.ibmap| == BLOCK_SIZE
  {
    match FirstFree(v.ibmap, 0, ITAB_SIZE)
    case None => ITAB_SIZE
    case Some(i) => i
  }

  /** The allocated inodes form a prefix of the table; 0 is never used and 1 is the root. */
  ghost predicate Prefix(v: Vol)
    requires Wf(v)
  {
    && 2 <= Top(v)
    && (forall i | 0 <= i < ITAB_SIZE :: IsSet(v.ibmap, i) <==> i < Top(v))
    && (forall i | 0 <= i < ITAB_SIZE :: v.objs[i] != Free <==> 1 <= i < Top(v))
    && v.objs[1].Dir?
  }

  predicate IsEntry(v: Vol, d: nat, e: nat) {
    d < |v.objs| && v.objs[d].Dir? && e < |v.objs[d].entries|
  }

  function EntryId(v: Vol, d: nat, e: nat): nat
    requires IsEntry(v, d, e)
  {
    v.objs[d].entries[e].id
  }

  ghost predicate HasEntry(v: Vol, i: nat) {
    exists d: nat, e: nat :: IsEntry(v, d, e) && EntryId(v, d, e) == i
  }

  function EntryCount(objs: seq<Obj>): nat {
    if objs == [] then 0
    else EntryCount(objs[..|objs| - 1]) +
         (if objs[|objs| - 1].Dir? then |objs[|objs| - 1].entries| else 0)
  }

  /**
   * No inode stands in more than one directory entry, and its directory has a smaller number; so
   * the entries form trees.
   */
  ghost predicate Tree(v: Vol)
    requires Wf(v)
  {
    && (forall d: nat, e: nat | IsEntry(v, d, e) :: d < EntryId(v, d, e) && 2 <= EntryId(v, d, e) < Top(v))
    && (forall d: nat, e: nat, d': nat, e': nat | IsEntry(v, d, e) && IsEntry(v, d', e') &&
        EntryId(v, d, e) == EntryId(v, d', e') ::
          d == d' && e == e')
    && EntryCount(v.objs) <= Top(v) - 2
    && (forall d: nat, e: nat | IsEntry(v, d, e) :: CString(v.objs[d].entries[e].name))
  }

  /**
   * Every inode from 2 on stands in an entry, so that there is one tree, with root 1. All calls
   * keep this but the one that formats a volume in use.
   */
  ghost predicate AllNamed(v: Vol)
    requires |v.ibmap| == BLOCK_SIZE
  {
    EntryCount(v.objs) == Top(v) - 2 && forall i | 2 <= i < Top(v) :: HasEntry(v, i)
  }

  /** The volumes on a disk of `n` blocks. */
  ghost function Volumes(n: nat): iset<Vol> {
    iset v: Vol | 10 <= n <= 8 * BLOCK_SIZE && Wf(v) && Owned(v, n) && Prefix(v) && Tree(v)
  }

  ghost predicate Inv(v: Vol, n: nat) {
    v in Volumes(n)
  }

  // ----- the calls -----

  predicate InUse(v: Vol, i: nat)
    requires |v.ibmap| == BLOCK_SIZE
  {
    i < ITAB_SIZE && IsSet(v.ibmap, i)
  }

  predicate IsFile(v: Vol, i: nat)
    requires Wf(v)
  {
    InUse(v, i) && v.objs[i].File?
  }

  predicate IsDir(v: Vol, i: nat)
    requires Wf(v)
  {
    InUse(v, i) && v.objs[i].Dir?
  }

  /** The bytes `from` to `from + count`, as far as there are any. */
  function Slice(bytes: seq<byte>, from: nat, count: nat): seq<byte> {
    if from >= |bytes| then [] else bytes[from..from + Min(count, |bytes| - from)]
  }

  /** `bytes` with `data` written over it from `from` on, growing if it must. */
  function Splice(bytes: seq<byte>, from: nat, data: seq<byte>): seq<byte>
    requires from <= |bytes|
  {
    bytes[..from] + data + bytes[Min(from + |data|, |bytes|)..]
  }

  /** `fs_read`: the bytes read, or an error. */
  function Read(v: Vol, file: nat, offset: nat, count: nat): Option<seq<byte>>
    requires Wf(v)
  {
    if IsFile(v, file) then Some(Slice(v.objs[file].bytes, offset, count)) else None
  }

  datatype Allocated = Allocated(bmap: seq<byte>, blocks: seq<nat>, ok: bool)

  /** Takes the first free block for each of the slots `k` to `k + m - 1`. */
  function Allocate(bmap: seq<byte>, blocks: seq<nat>, k: nat, m: nat, n: nat): (a: Allocated)
    requires n <= 8 * |bmap| && k + m <= |blocks|
    ensures |a.bmap| == |bmap| && |a.blocks| == |blocks|
    decreases m
  {
    if m == 0 then Allocated(bmap, blocks, true)
    else
      match FirstFree(bmap, 0, n)
      case None => Allocated(bmap, blocks, false)
      case Some(b) => Allocate(SetBit(bmap, b), blocks[k := b], k + 1, m - 1, n)
  }

  /** Blocks that a file of `size` bytes lacks for `count` more at `offset`. */
  function Required(size: nat, offset: nat, count: nat): nat {
    Max(ToBlocks(offset + count), ToBlocks(size)) - ToBlocks(size)
  }

  datatype Outcome = Outcome(vol: Vol, rc: int)

  /** The allocation of a write to `file`, in the bitmap and the inode. */
  function Grow(v: Vol, n: nat, file: nat, required: nat): (r: (Vol, bool))
    requires Wf(v) && n <= 8 * BLOCK_SIZE && file < ITAB_SIZE
    requires required <= INODE_NUM_BLKS - Used(v.itab[file])
  {
    var i := v.itab[file];
    var a := Allocate(v.bmap, i.blocks, Used(i), required, n);
    (v.(bmap := a.bmap, itab := v.itab[file := i.(blocks := a.blocks)]), a.ok)
  }

  /** `fs_write`. */
  function Write(v: Vol, n: nat, file: nat, offset: nat, data: seq<byte>): Outcome
    requires Wf(v) && n <= 8 * BLOCK_SIZE
  {
    if !IsFile(v, file) then Outcome(v, -1)
    else
      var size, bytes := v.itab[file].size, v.objs[file].bytes;
      var from := Min(offset, size);
      var required := Required(size, from, |data|);
      if required > INODE_NUM_BLKS - Used(v.itab[file]) then Outcome(v, -1)
      else
        var (g, ok) := Grow(v, n, file, required);
        if !ok then Outcome(g, -1)
        else
          Outcome(g.(itab := g.itab[file := g.itab[file].(size := Max(from + |data|, size))],
                     objs := g.objs[file := File(Splice(bytes, from, data))]), 0)
  }

  /** The first entry of that name from `e` on. */
  function Search(entries: seq<Dentry>, name: seq<byte>, e: nat): (r: Option<nat>)
    requires e <= |entries|
    decreases |entries| - e
  {
    if e == |entries| then None
    else if entries[e].name == name then Some(entries[e].id)
    else Search(entries, name, e + 1)
  }

  /** Return code and, where the call sets it, the inode number it hands out. */
  datatype Made = Made(vol: Vol, rc: int, id: Option<nat>)

  /** A block for the next entry of directory `dir`, if its last one is full. */
  function GrowDir(v: Vol, n: nat, dir: nat): Option<Vol>
    requires Wf(v) && n <= 8 * BLOCK_SIZE && dir < ITAB_SIZE
    requires v.itab[dir].size < INODE_NUM_BLKS * BLOCK_SIZE
  {
    var i := v.itab[dir];
    if i.size % BLOCK_SIZE != 0 then Some(v)
    else
      match FirstFree(v.bmap, 0, n)
      case None => None
      case Some(b) =>
        Some(v.(bmap := SetBit(v.bmap, b), itab := v.itab[dir := i.(blocks := i.blocks[i.size / BLOCK_SIZE := b])]))
  }

  /** The new entry in `dir` and the new inode it names. */
  function AddEntry(v: Vol, dir: nat, name: seq<byte>, id: nat, itype: nat): Vol
    requires Wf(v) && IsDir(v, dir) && id < ITAB_SIZE
  {
    var i := v.itab[dir];
    v.(ibmap := SetBit(v.ibmap, id),
       itab := v.itab[dir := i.(size := i.size + DENTRY_SIZE)][id := InodeInit(itype)],
       objs := v.objs[dir := Dir(v.objs[dir].entries + [Dentry(name, id)])]
                     [id := if itype == FS_DIR then Dir([]) else File([])])
  }

  function Entries(o: Obj): nat {
    if o.Dir? then |o.entries| else 0
  }

  lemma {:induction false} EntryCountAt(objs: seq<Obj>, i: nat)
    requires i < |objs|
    ensures Entries(objs[i]) <= EntryCount(objs)
  {
    var k := |objs| - 1;
    if i < k {
      EntryCountAt(objs[..k], i);
      assert objs[..k][i] == objs[i];
    }
  }

  /** No directory comes near the ten blocks of its inode. */
  lemma DirectoryHasRoom(v: Vol, n: nat, dir: nat)
    requires Inv(v, n) && IsDir(v, dir)
    ensures v.itab[dir].size == DENTRY_SIZE * |v.objs[dir].entries|
    ensures v.itab[dir].size <= DENTRY_SIZE * (Top(v) - 2)
    ensures v.itab[dir].size <= 2 * BLOCK_SIZE - 2 * DENTRY_SIZE
  {
    EntryCountAt(v.objs, dir);
  }

  /** What `fs_create` and `fs_mkdir` share: they look for `key` and store `name`. */
  function Make(v: Vol, n: nat, dir: nat, key: seq<byte>, name: seq<byte>, itype: nat): Made
    requires Inv(v, n)
  {
    if dir >= ITAB_SIZE || |key| == 0 || |key| + 1 > FS_MAX_FNAME_SZ || !IsDir(v, dir) then Made(v, -1, None)
    else
      match Search(v.objs[dir].entries, key, 0)
      case Some(id) => Made(v, -1, Some(id))
      case None =>
        match FirstFree(v.ibmap, 0, ITAB_SIZE)
        case None => Made(v, -1, None)
        case Some(id) =>
          DirectoryHasRoom(v, n, dir);
          match GrowDir(v, n, dir)
          case None => Made(v, -1, None)
          case Some(g) => Made(AddEntry(g, dir, name, id, itype), 0, Some(id))
  }

  /** `fs_create` looks for the name as given and stores it without its first character. */
  function Create(v: Vol, n: nat, dir: nat, file: seq<byte>): Made
    requires Inv(v, n)
  {
    Make(v, n, dir, file, if file == [] then [] else file[1..], FS_FILE)
  }

  /** `fs_mkdir` looks for and stores the name as given. */
  function Mkdir(v: Vol, n: nat, dir: nat, newdir: seq<byte>): Made
    requires Inv(v, n)
  {
    Make(v, n, dir, newdir, newdir, FS_DIR)
  }

  function ClearBlocks(bmap: seq<byte>, blocks: seq<nat>): (r: seq<byte>)
    requires forall k | 0 <= k < |blocks| :: blocks[k] < 8 * |bmap|
    ensures |r| == |bmap|
  {
    if blocks == [] then bmap
    else ClearBit(ClearBlocks(bmap, blocks[..|blocks| - 1]), blocks[|blocks| - 1])
  }

  /** `fs_truncate`, which does not look at the inode bitmap. */
  function Truncate(v: Vol, n: nat, file: nat): Outcome
    requires Inv(v, n) && file < ITAB_SIZE
  {
    if !v.objs[file].File? then Outcome(v, -1)
    else
      var i := v.itab[file];
      assert forall k | 0 <= k < Used(i) :: Slot(v, file, k);
      Outcome(v.(bmap := ClearBlocks(v.bmap, i.blocks[..Used(i)]),
                 itab := v.itab[file := i.(size := 0)],
                 objs := v.objs[file := File([])]), 0)
  }

  /** Names and types of the first entries, at most `max`. */
  function Readdir(v: Vol, n: nat, dir: nat, max: int): Option<seq<(seq<byte>, nat)>>
    requires Inv(v, n)
  {
    if max < 0 || !IsDir(v, dir) then None
    else
      var entries := v.objs[dir].entries;
      Some(seq(Min(|entries|, max), e requires 0 <= e < |entries| =>
        assert IsEntry(v, dir, e) && EntryId(v, dir, e) < ITAB_SIZE;
        (entries[e].name, v.itab[entries[e].id].itype)))
  }
}
