/** Runs of file system calls: what every run keeps, and what is read back after one. */
module Runs {
  import opened Base
  import opened Bitmap
  import opened Codec
  import opened Format
  import opened Names
  import opened Paths
  import opened Volume
  import opened VolumeInv
  import opened VolumeSpace

  /** What the calls see, and what loading the metadata again would give. */
  datatype World = World(cur: Vol, saved: Vol)

  datatype Op =
    | OpRead(file: nat, offset: nat, count: nat)
    | OpWrite(file: nat, offset: nat, data: seq<byte>)
    | OpCreate(dir: nat, name: seq<byte>)
    | OpMkdir(dir: nat, name: seq<byte>)
    | OpTruncate(file: nat)
    | OpReaddir(dir: nat, max: int)
    | OpLookup(path: seq<byte>)
    | OpReload
    | OpFormat

  datatype Out =
    | Data(bytes: Option<seq<byte>>)
    | Rc(rc: int)
    | Id(rc: int, id: Option<nat>)
    | List(entries: Option<seq<(seq<byte>, nat)>>)
    | Found(looked: Looked)
    | Done

  /** What the source demands of its callers. */
  predicate Proper(op: Op) {
    match op
    case OpCreate(_, name) => CString(name)
    case OpMkdir(_, name) => CString(name)
    case OpTruncate(file) => file < ITAB_SIZE
    case OpLookup(path) => |path| < MAX_PATH_NAME_SIZE
    case _ => true
  }

  ghost predicate Good(w: World, n: nat) {
    Inv(w.cur, n) && Inv(w.saved, n)
  }

  /** A call that returns 0 stores the metadata, but for `fs_truncate`, which never does. */
  function Store(w: World, v: Vol, rc: int): World {
    World(v, if rc == 0 then v else w.saved)
  }

  /** One call. */
  function Step(w: World, n: nat, op: Op): (r: (World, Out))
    requires Good(w, n) && Proper(op)
  {
    match op
    case OpRead(file, offset, count) => (w, Data(Volume.Read(w.cur, file, offset, count)))
    case OpWrite(file, offset, data) =>
      var o := Write(w.cur, n, file, offset, data);
      (Store(w, o.vol, o.rc), Rc(o.rc))
    case OpCreate(dir, name) =>
      var m := Create(w.cur, n, dir, name);
      (Store(w, m.vol, m.rc), Id(m.rc, m.id))
    case OpMkdir(dir, name) =>
      var m := Mkdir(w.cur, n, dir, name);
      (Store(w, m.vol, m.rc), Id(m.rc, m.id))
    case OpTruncate(file) =>
      var o := Truncate(w.cur, n, file);
      (World(o.vol, w.saved), Rc(o.rc))
    case OpReaddir(dir, max) => (w, List(Readdir(w.cur, n, dir, max)))
    case OpLookup(path) => (w, Found(Lookup(w.cur, path)))
    case OpReload => (World(w.saved, w.saved), Done)
    case OpFormat => (World(Reformatted(w.cur), Reformatted(w.cur)), Rc(0))
  }

  /** Every call keeps the invariant of the volume in memory and of the one on the disk. */
  lemma StepKeepsInv(w: World, n: nat, op: Op)
    requires Good(w, n) && Proper(op)
    ensures Good(Step(w, n, op).0, n)
  {
    hide Inv, Write, Make, Truncate, Readdir, Lookup, Volume.Read, Reformatted, AllNamed;
    GoodSizes(w, n);
    match op
    case OpWrite(file, offset, data) => WriteKeepsInv(w.cur, n, file, offset, data);
    case OpCreate(dir, name) => MakeKeepsInv(w.cur, n, dir, name, if name == [] then [] else name[1..], FS_FILE);
    case OpMkdir(dir, name) => MakeKeepsInv(w.cur, n, dir, name, name, FS_DIR);
    case OpTruncate(file) => TruncateKeepsInv(w.cur, n, file);
    case OpFormat => ReformattedKeepsInv(w.cur, n);
    case _ =>
  }

  /** In memory and on the disk every inode but the root has an entry. */
  ghost predicate BothNamed(w: World) {
    |w.cur.ibmap| == |w.saved.ibmap| == BLOCK_SIZE && AllNamed(w.cur) && AllNamed(w.saved)
  }

  lemma GoodSizes(w: World, n: nat)
    requires Good(w, n)
    ensures |w.cur.bmap| == |w.cur.ibmap| == BLOCK_SIZE && |w.cur.itab| == |w.cur.objs| == ITAB_SIZE
    ensures |w.saved.ibmap| == BLOCK_SIZE
  {
  }

  lemma StepKeepsNamed(w: World, n: nat, op: Op)
    requires Good(w, n) && Proper(op) && op != OpFormat && BothNamed(w)
    ensures BothNamed(Step(w, n, op).0)
  {
    hide Inv, Write, Make, Truncate, Readdir, Lookup, Volume.Read, Reformatted, AllNamed;
    StepKeepsInv(w, n, op);
    GoodSizes(Step(w, n, op).0, n);
    match op
    case OpWrite(file, offset, data) => WriteKeepsInv(w.cur, n, file, offset, data);
    case OpCreate(dir, name) => MakeKeepsInv(w.cur, n, dir, name, if name == [] then [] else name[1..], FS_FILE);
    case OpMkdir(dir, name) => MakeKeepsInv(w.cur, n, dir, name, name, FS_DIR);
    case OpTruncate(file) => TruncateKeepsInv(w.cur, n, file);
    case _ =>
  }

  predicate AllProper(ops: seq<Op>) {
    forall i | 0 <= i < |ops| :: Proper(ops[i])
  }

  /** The world after some calls. */
  function After(w: World, n: nat, ops: seq<Op>): World
    requires Good(w, n) && AllProper(ops)
    ensures Good(After(w, n, ops), n)
  {
    if ops == [] then w
    else
      var before := After(w, n, ops[..|ops| - 1]);
      StepKeepsInv(before, n, ops[|ops| - 1]);
      Step(before, n, ops[|ops| - 1]).0
  }

  /** What the calls return. */
  function Outs(w: World, n: nat, ops: seq<Op>): (outs: seq<Out>)
    requires Good(w, n) && AllProper(ops)
    ensures |outs| == |ops|
  {
    if ops == [] then []
    else
      Outs(w, n, ops[..|ops| - 1]) + [Step(After(w, n, ops[..|ops| - 1]), n, ops[|ops| - 1]).1]
  }

  /** A formatted volume, in memory and on the disk. */
  function NewWorld(): World {
    World(Formatted(), Formatted())
  }

  lemma NewWorldIsGood(n: nat)
    requires 10 <= n <= 8 * BLOCK_SIZE
    ensures Good(NewWorld(), n)
  {
    FormattedKeepsInv(n);
  }

  lemma {:induction false} RunKeepsNamed(w: World, n: nat, ops: seq<Op>)
    requires Good(w, n) && AllProper(ops) && BothNamed(w) && OpFormat !in ops
    ensures BothNamed(After(w, n, ops))
  {
    hide Inv, Step, Proper, BothNamed;
    if ops != [] {
      var k := |ops| - 1;
      RunKeepsNamed(w, n, ops[..k]);
      assert ops[k] in ops;
      StepKeepsNamed(After(w, n, ops[..k]), n, ops[k]);
    }
  }

  /**
   * Blocks and names after any run on a formatted volume: a block in use is marked, is not one of
   * the ten reserved ones and belongs to one slot of one inode; the allocated inodes are the first
   * ones; none has more than one entry, in a directory with a smaller number, and unless the volume
   * was formatted again all but 0 and the root have one and are in the tree. No directory comes
   * near the ten blocks of its inode, which no call checks.
   */
  lemma ReachableVolumes(n: nat, ops: seq<Op>)
    requires 10 <= n <= 8 * BLOCK_SIZE && AllProper(ops)
    ensures Good(NewWorld(), n)
    ensures var v := After(NewWorld(), n, ops).cur;
            && Wf(v) && (forall i | 0 <= i < ITAB_SIZE :: v.itab[i].size <= 5120)
            && (forall i: nat, k: nat | Slot(v, i, k) ::
                10 <= v.itab[i].blocks[k] < n && IsSet(v.bmap, v.itab[i].blocks[k]))
            && (forall i: nat, k: nat, j: nat, l: nat | Slot(v, i, k) && Slot(v, j, l) &&
                v.itab[i].blocks[k] == v.itab[j].blocks[l] ::
                  i == j && k == l)
            && (forall i | 0 <= i < ITAB_SIZE :: IsSet(v.ibmap, i) <==> i < Top(v))
            && (forall d: nat, e: nat | IsEntry(v, d, e) :: d < EntryId(v, d, e) < Top(v))
            && (forall d: nat, e: nat, d': nat, e': nat | IsEntry(v, d, e) && IsEntry(v, d', e') &&
                EntryId(v, d, e) == EntryId(v, d', e') ::
                  d == d' && e == e')
            && EntryCount(v.objs) <= Top(v) - 2 <= 62
            && (forall d: nat | IsDir(v, d) :: Used(v.itab[d]) <= 2)
            && (OpFormat !in ops ==>
                  EntryCount(v.objs) == Top(v) - 2 && forall i | 2 <= i < Top(v) :: HasEntry(v, i) && InTree(v, n, i))
  {
    NewWorldIsGood(n);
    var v := After(NewWorld(), n, ops).cur;
    VolumeFacts(v, n);
    hide After, Inv, Formatted;
    if OpFormat !in ops {
      FormattedKeepsInv(n);
      RunKeepsNamed(NewWorld(), n, ops);
      forall i | 2 <= i < Top(v) ensures InTree(v, n, i) {
        AllInTree(v, n, i);
      }
    }
  }

  /** What the invariant says, clause by clause. */
  lemma VolumeFacts(v: Vol, n: nat)
    requires Inv(v, n)
    ensures Wf(v) && (forall i | 0 <= i < ITAB_SIZE :: v.itab[i].size <= 5120)
    ensures forall i: nat, k: nat | Slot(v, i, k) ::
              10 <= v.itab[i].blocks[k] < n && IsSet(v.bmap, v.itab[i].blocks[k])
    ensures forall i: nat, k: nat, j: nat, l: nat |
              Slot(v, i, k) && Slot(v, j, l) && v.itab[i].blocks[k] == v.itab[j].blocks[l] :: i == j && k == l
    ensures forall i | 0 <= i < ITAB_SIZE :: IsSet(v.ibmap, i) <==> i < Top(v)
    ensures forall d: nat, e: nat | IsEntry(v, d, e) :: d < EntryId(v, d, e) < Top(v)
    ensures forall d: nat, e: nat, d': nat, e': nat |
              IsEntry(v, d, e) && IsEntry(v, d', e') && EntryId(v, d, e) == EntryId(v, d', e') :: d == d' && e == e'
    ensures EntryCount(v.objs) <= Top(v) - 2 <= 62
    ensures forall d: nat | IsDir(v, d) :: Used(v.itab[d]) <= 2
  {
    hide IsSet, EntryCount;
    forall d: nat | IsDir(v, d) ensures Used(v.itab[d]) <= 2 {
      DirectoryHasRoom(v, n, d);
    }
  }

  // ----- space -----

  /**
   * Marked blocks that a call leaves to nobody: those a write takes before it finds the disk full,
   * and those of the root when a volume in use is formatted.
   */
  function Leaks(v: Vol, n: nat, op: Op): int
    requires Wf(v) && n <= 8 * BLOCK_SIZE
  {
    match op
    case OpWrite(file, offset, data) => if DiskFull(v, n, file, offset, |data|) then FreeBlocks(v, n) else 0
    case OpFormat => Used(v.itab[1])
    case _ => 0
  }

  lemma StepLeaks(w: World, n: nat, op: Op)
    requires Good(w, n) && Proper(op)
    ensures var w' := Step(w, n, op).0;
            && Lost(w'.cur, n) == (if op.OpReload? then Lost(w.saved, n) else Lost(w.cur, n) + Leaks(w.cur, n, op))
            && Lost(w'.saved, n) in {Lost(w.saved, n), Lost(w'.cur, n)}
  {
    hide Reformatted, Write, Make, Truncate, Readdir, Lookup, Volume.Read, Owned, Prefix, Tree, CountSet, DiskFull;
    match op
    case OpWrite(file, offset, data) =>
      WriteSucceedsIff(w.cur, n, file, offset, data);
      if Write(w.cur, n, file, offset, data).rc == 0 {
        WriteLosesNothing(w.cur, n, file, offset, data);
        SuccessIsNotFull(w.cur, n, file, offset, data);
      } else {
        FailedWriteIsAtomicIff(w.cur, n, file, offset, data);
        WriteRc(w.cur, n, file, offset, data);
      }
    case OpCreate(dir, name) => MakeLosesNothing(w.cur, n, dir, name, if name == [] then [] else name[1..], FS_FILE);
    case OpMkdir(dir, name) => MakeLosesNothing(w.cur, n, dir, name, name, FS_DIR);
    case OpTruncate(file) => TruncateLosesNothing(w.cur, n, file);
    case OpFormat => ReformattedIff(w.cur, n);
    case _ =>
  }

  lemma SuccessIsNotFull(v: Vol, n: nat, file: nat, offset: nat, data: seq<byte>)
    requires Inv(v, n) && Write(v, n, file, offset, data).rc == 0
    ensures !DiskFull(v, n, file, offset, |data|)
  {
    WriteSucceedsIff(v, n, file, offset, data);
  }

  lemma WriteRc(v: Vol, n: nat, file: nat, offset: nat, data: seq<byte>)
    requires Inv(v, n)
    ensures Write(v, n, file, offset, data).rc in {0, -1}
    ensures Write(v, n, file, offset, data).rc != 0 && !DiskFull(v, n, file, offset, |data|) ==>
              Write(v, n, file, offset, data).vol == v
  {
    if Write(v, n, file, offset, data).rc != 0 {
      FailedWriteIsAtomicIff(v, n, file, offset, data);
    }
  }

  /** No write of the run takes the disk-full return, and none formats a volume whose root has blocks. */
  predicate NeverLeaks(w: World, n: nat, ops: seq<Op>)
    requires Good(w, n) && AllProper(ops)
  {
    forall i | 0 <= i < |ops| :: Leaks(After(w, n, ops[..i]).cur, n, ops[i]) == 0
  }

  /** Without such calls the marked blocks are the ten reserved ones and those in use, reloads included. */
  lemma {:induction false} NothingIsLost(n: nat, ops: seq<Op>)
    requires 10 <= n <= 8 * BLOCK_SIZE && AllProper(ops)
    ensures Good(NewWorld(), n)
    ensures NeverLeaks(NewWorld(), n, ops) ==>
              var w := After(NewWorld(), n, ops);
              CountSet(w.cur.bmap, n) == 10 + SumUsed(w.cur.itab) &&
              CountSet(w.saved.bmap, n) == 10 + SumUsed(w.saved.itab)
  {
    hide Inv, Leaks, CountSet, SumUsed, Formatted, After, Step, Proper;
    NewWorldIsGood(n);
    FirstWorld(NewWorld(), n);
    if ops == [] {
      NewWorldLosesNothing(n);
    } else if NeverLeaks(NewWorld(), n, ops) {
      var k := |ops| - 1;
      var before := After(NewWorld(), n, ops[..k]);
      NeverLeaksBefore(NewWorld(), n, ops);
      NothingIsLost(n, ops[..k]);
      StepLeaks(before, n, ops[k]);
      LastStep(NewWorld(), n, ops);
    }
  }

  lemma FirstWorld(w: World, n: nat)
    requires Good(w, n)
    ensures After(w, n, []) == w && Outs(w, n, []) == []
  {
  }

  lemma LastStep(w: World, n: nat, ops: seq<Op>)
    requires Good(w, n) && AllProper(ops) && ops != []
    ensures var before := After(w, n, ops[..|ops| - 1]);
            && After(w, n, ops) == Step(before, n, ops[|ops| - 1]).0
            && Outs(w, n, ops) == Outs(w, n, ops[..|ops| - 1]) + [Step(before, n, ops[|ops| - 1]).1]
  {
  }

  lemma NeverLeaksBefore(w: World, n: nat, ops: seq<Op>)
    requires Good(w, n) && AllProper(ops) && ops != [] && NeverLeaks(w, n, ops)
    ensures NeverLeaks(w, n, ops[..|ops| - 1])
    ensures Leaks(After(w, n, ops[..|ops| - 1]).cur, n, ops[|ops| - 1]) == 0
  {
    hide Inv, Leaks, After;
    forall i | 0 <= i < |ops| - 1 ensures ops[..|ops| - 1][..i] == ops[..i] {
    }
  }

  lemma NewWorldLosesNothing(n: nat)
    requires 10 <= n <= 8 * BLOCK_SIZE
    ensures Lost(Formatted(), n) == 0
  {
    SetFirstSets(Zeros(BLOCK_SIZE), 10);
    hide SetFirst;
    forall b: nat | b < n ensures !IsSet(Zeros(BLOCK_SIZE), b) {
      NoBitOfZeros(BLOCK_SIZE, b);
    }
    CountFirst(Formatted().bmap, 10, n);
    NothingUsed(Formatted().itab);
  }

  lemma {:induction false} CountFirst(bmap: seq<byte>, k: nat, n: nat)
    requires n <= 8 * |bmap|
    requires forall b | 0 <= b < n :: IsSet(bmap, b) <==> b < k
    ensures CountSet(bmap, n) == Min(k, n)
  {
    if n > 0 {
      CountFirst(bmap, k, n - 1);
    }
  }

  lemma {:induction false} NothingUsed(itab: seq<Inode>)
    requires forall i | 0 <= i < |itab| :: itab[i].size == 0
    ensures SumUsed(itab) == 0
  {
    if itab != [] {
      NothingUsed(itab[..|itab| - 1]);
    }
  }

  /** The blocks lost by such calls of a run. */
  function LeaksOf(w: World, n: nat, ops: seq<Op>): int
    requires Good(w, n) && AllProper(ops)
  {
    if ops == [] then 0
    else LeaksOf(w, n, ops[..|ops| - 1]) + Leaks(After(w, n, ops[..|ops| - 1]).cur, n, ops[|ops| - 1])
  }

  /** As long as nothing is loaded again, exactly what they left to nobody is lost. */
  lemma {:induction false} LossesAddUp(w: World, n: nat, ops: seq<Op>)
    requires Good(w, n) && AllProper(ops) && OpReload !in ops
    ensures Lost(After(w, n, ops).cur, n) == Lost(w.cur, n) + LeaksOf(w, n, ops)
  {
    hide Inv, Step, Leaks, Lost, Proper;
    if ops != [] {
      var k := |ops| - 1;
      LossesAddUp(w, n, ops[..k]);
      StepLeaks(After(w, n, ops[..k]), n, ops[k]);
      assert ops[k] in ops;
    }
  }

  // ----- contents -----

  /** The file `file` holds `bytes`, and would after a reload. */
  ghost predicate FileIs(w: World, n: nat, file: nat, bytes: seq<byte>) {
    && Good(w, n) && IsFile(w.cur, file) && w.cur.objs[file] == File(bytes)
    && IsFile(w.saved, file) && w.saved.objs[file] == File(bytes)
  }

  predicate Leaves(op: Op, file: nat) {
    (op.OpWrite? ==> op.file != file) && (op.OpTruncate? ==> op.file != file)
  }

  lemma WriteLeavesOthers(v: Vol, n: nat, file: nat, offset: nat, data: seq<byte>, other: nat)
    requires Inv(v, n) && other != file && IsFile(v, other)
    ensures var w := Write(v, n, file, offset, data).vol;
            |w.ibmap| == BLOCK_SIZE && Wf(w) && IsFile(w, other) && w.objs[other] == v.objs[other]
  {
    WriteKeepsInv(v, n, file, offset, data);
    hide Allocate, Inv;
  }

  lemma MakeLeavesOthers(v: Vol, n: nat, dir: nat, key: seq<byte>, name: seq<byte>, itype: nat, other: nat)
    requires Inv(v, n) && CString(name) && itype in {FS_DIR, FS_FILE} && IsFile(v, other)
    ensures var w := Make(v, n, dir, key, name, itype).vol;
            |w.ibmap| == BLOCK_SIZE && Wf(w) && IsFile(w, other) && w.objs[other] == v.objs[other]
  {
    hide Make, Entered;
    MakeKeepsInv(v, n, dir, key, name, itype);
    MadeIs(v, n, dir, key, name, itype);
    var made := Make(v, n, dir, key, name, itype);
    if made.rc == 0 {
      EntryLeavesOthers(v, made.vol, n, dir, name, itype, other);
    }
  }

  lemma EntryLeavesOthers(v: Vol, w: Vol, n: nat, dir: nat, name: seq<byte>, itype: nat, other: nat)
    requires Inv(v, n) && Inv(w, n) && Entered(v, w, n, dir, name, itype) && IsFile(v, other)
    ensures IsFile(w, other) && w.objs[other] == v.objs[other]
  {
    hide Owned, Tree, SetBit, FirstFree, EntryCount;
    SetBitSets(v.ibmap, Top(v));
  }

  lemma TruncateLeavesOthers(v: Vol, n: nat, file: nat, other: nat)
    requires Inv(v, n) && file < ITAB_SIZE && other != file && IsFile(v, other)
    ensures var w := Truncate(v, n, file).vol;
            |w.ibmap| == BLOCK_SIZE && Wf(w) && IsFile(w, other) && w.objs[other] == v.objs[other]
  {
    TruncateKeepsInv(v, n, file);
    hide Owned, Tree, ClearBlocks;
  }

  lemma FormatLeavesFiles(v: Vol, n: nat, file: nat)
    requires Inv(v, n) && IsFile(v, file)
    ensures |v.bmap| == |v.ibmap| == BLOCK_SIZE && |v.itab| == |v.objs| == ITAB_SIZE
    ensures Wf(Reformatted(v)) && IsFile(Reformatted(v), file) && Reformatted(v).objs[file] == v.objs[file]
  {
    hide Owned, Tree, Prefix;
    ReformattedIs(v, n);
  }

  lemma StepLeavesFile(w: World, n: nat, op: Op, file: nat, bytes: seq<byte>)
    requires FileIs(w, n, file, bytes) && Proper(op) && Leaves(op, file)
    ensures FileIs(Step(w, n, op).0, n, file, bytes)
  {
    hide Write, Make, Truncate, Inv, Readdir, Lookup, Volume.Read, Wf, Reformatted;
    StepKeepsInv(w, n, op);
    match op
    case OpFormat => FormatLeavesFiles(w.cur, n, file);
    case OpTruncate(f) => TruncateLeavesOthers(w.cur, n, f, file);
    case OpWrite(f, offset, data) => WriteLeavesOthers(w.cur, n, f, offset, data, file);
    case OpCreate(dir, name) =>
      MakeLeavesOthers(w.cur, n, dir, name, if name == [] then [] else name[1..], FS_FILE, file);
    case OpMkdir(dir, name) => MakeLeavesOthers(w.cur, n, dir, name, name, FS_DIR, file);
    case _ =>
  }

  lemma FileIsGood(w: World, n: nat, file: nat, bytes: seq<byte>)
    requires FileIs(w, n, file, bytes)
    ensures Good(w, n)
  {
  }

  lemma {:induction false} RunLeavesFile(w: World, n: nat, ops: seq<Op>, file: nat, bytes: seq<byte>)
    requires FileIs(w, n, file, bytes) && AllProper(ops)
    requires forall i | 0 <= i < |ops| :: Leaves(ops[i], file)
    ensures Good(w, n) && FileIs(After(w, n, ops), n, file, bytes)
  {
    hide Inv, Step, Proper, FileIs, Good, Leaves;
    FileIsGood(w, n, file, bytes);
    if ops != [] {
      var k := |ops| - 1;
      RunLeavesFile(w, n, ops[..k], file, bytes);
      StepLeavesFile(After(w, n, ops[..k]), n, ops[k], file, bytes);
    }
  }

  lemma SpliceBytes(bytes: seq<byte>, from: nat, data: seq<byte>)
    requires from <= |bytes|
    ensures var r := Splice(bytes, from, data);
            && |r| == Max(from + |data|, |bytes|)
            && (forall j | 0 <= j < |r| :: r[j] == if from <= j < from + |data| then data[j - from] else bytes[j])
            && r[from..from + |data|] == data
  {
  }

  /** A successful write puts `data` at `offset`, or at the end if that lies beyond, and nothing else changes. */
  lemma WriteSplices(v: Vol, n: nat, file: nat, offset: nat, data: seq<byte>)
    requires Inv(v, n) && Write(v, n, file, offset, data).rc == 0
    ensures IsFile(v, file)
    ensures var w, bytes := Write(v, n, file, offset, data).vol, v.objs[file].bytes;
            var from := Min(offset, |bytes|);
            && Wf(w) && IsFile(w, file) && |w.objs[file].bytes| == Max(from + |data|, |bytes|)
            && (forall j | 0 <= j < |w.objs[file].bytes| ::
                  w.objs[file].bytes[j] == if from <= j < from + |data| then data[j - from] else bytes[j])
            && w.objs[file].bytes[from..from + |data|] == data
            && (forall i | 0 <= i < ITAB_SIZE && i != file :: w.objs[i] == v.objs[i])
            && w.ibmap == v.ibmap
  {
    hide Inv, Write, Splice, Wf, IsSet;
    WriteObjs(v, n, file, offset, data);
    SpliceBytes(v.objs[file].bytes, Min(offset, |v.objs[file].bytes|), data);
  }

  lemma WriteObjs(v: Vol, n: nat, file: nat, offset: nat, data: seq<byte>)
    requires Inv(v, n) && Write(v, n, file, offset, data).rc == 0
    ensures var w := Write(v, n, file, offset, data).vol;
            && IsFile(v, file) && w.ibmap == v.ibmap && |v.objs| == ITAB_SIZE && |v.ibmap| == BLOCK_SIZE && Wf(w)
            && w.objs == v.objs[file := File(Splice(v.objs[file].bytes, Min(offset, |v.objs[file].bytes|), data))]
  {
    hide Allocate, Splice, Owned, Prefix, Tree;
    WriteKeepsInv(v, n, file, offset, data);
  }

  /**
   * What a write stored is what is read there after any calls that neither write nor truncate the
   * file, even if the metadata are loaded again in between.
   */
  lemma WrittenIsReadBack(w: World, n: nat, file: nat, offset: nat, data: seq<byte>, ops: seq<Op>)
    requires Good(w, n) && Write(w.cur, n, file, offset, data).rc == 0
    requires AllProper(ops) && forall i | 0 <= i < |ops| :: Leaves(ops[i], file)
    ensures IsFile(w.cur, file)
    ensures var w1 := Step(w, n, OpWrite(file, offset, data)).0;
            && Good(w1, n)
            && Volume.Read(After(w1, n, ops).cur, file, Min(offset, |w.cur.objs[file].bytes|), |data|) == Some(data)
  {
    hide *;
    var w1, bytes, from := WriteSettles(w, n, file, offset, data);
    FileIsGood(w1, n, file, bytes);
    RunLeavesFile(w1, n, ops, file, bytes);
    ReadsFile(After(w1, n, ops), n, file, bytes, from, data);
  }

  /** After a write the file holds `data` from `from` on, in memory and on the disk. */
  lemma WriteSettles(w: World, n: nat, file: nat, offset: nat, data: seq<byte>)
    returns (w1: World, bytes: seq<byte>, from: nat)
    requires Good(w, n) && Write(w.cur, n, file, offset, data).rc == 0
    ensures IsFile(w.cur, file) && w.cur.objs[file].File? && from == Min(offset, |w.cur.objs[file].bytes|)
    ensures w1 == Step(w, n, OpWrite(file, offset, data)).0 && FileIs(w1, n, file, bytes)
    ensures Holds(bytes, from, data)
  {
    hide Write, Inv, Wf, Splice;
    WriteObjs(w.cur, n, file, offset, data);
    w1 := Step(w, n, OpWrite(file, offset, data)).0;
    StepKeepsInv(w, n, OpWrite(file, offset, data));
    bytes, from := w1.cur.objs[file].bytes, Min(offset, |w.cur.objs[file].bytes|);
    SpliceBytes(w.cur.objs[file].bytes, from, data);
  }

  predicate Holds(bytes: seq<byte>, from: nat, data: seq<byte>) {
    from + |data| <= |bytes| && bytes[from..from + |data|] == data
  }

  lemma ReadsFile(w: World, n: nat, file: nat, bytes: seq<byte>, from: nat, data: seq<byte>)
    requires FileIs(w, n, file, bytes) && Holds(bytes, from, data)
    ensures Wf(w.cur) && Volume.Read(w.cur, file, from, |data|) == Some(data)
  {
    hide Inv, Wf;
    assert Wf(w.cur) by {
      InvIsWf(w.cur, n);
    }
    assert Slice(bytes, from, |data|) == data;
  }

  // ----- reload -----

  /** The call stored the metadata, or loaded what was stored. */
  predicate Settles(w: World, n: nat, op: Op)
    requires Good(w, n) && Proper(op)
  {
    var out := Step(w, n, op).1;
    match op
    case OpWrite(_, _, _) => out == Rc(0)
    case OpCreate(_, _) => out.rc == 0
    case OpMkdir(_, _) => out.rc == 0
    case OpReload => true
    case OpFormat => true
    case _ => false
  }

  /** How many calls it is to the last one that settled. */
  function LastSettled(w: World, n: nat, ops: seq<Op>): (k: nat)
    requires Good(w, n) && AllProper(ops)
    ensures k <= |ops|
  {
    if ops == [] then 0
    else
      var k := |ops| - 1;
      if Settles(After(w, n, ops[..k]), n, ops[k]) then |ops| else LastSettled(w, n, ops[..k])
  }

  /** Loading goes back to the volume after the last call that stored it. */
  lemma ReloadGoesBack(v: Vol, n: nat, ops: seq<Op>)
    requires Inv(v, n) && AllProper(ops)
    ensures var w := World(v, v);
            Step(After(w, n, ops), n, OpReload).0.cur == After(w, n, ops[..LastSettled(w, n, ops)]).cur
  {
    hide Inv, After;
    SavedIsLastSettled(v, n, ops);
  }

  lemma {:induction false} SavedIsLastSettled(v: Vol, n: nat, ops: seq<Op>)
    requires Inv(v, n) && AllProper(ops)
    ensures var w := World(v, v);
            After(w, n, ops).saved == After(w, n, ops[..LastSettled(w, n, ops)]).cur
  {
    hide Inv, Write, Make, Truncate, Readdir, Lookup, Volume.Read;
    var w := World(v, v);
    if ops != [] {
      var k := |ops| - 1;
      SavedIsLastSettled(v, n, ops[..k]);
      if Settles(After(w, n, ops[..k]), n, ops[k]) {
        assert ops[..|ops|] == ops;
      } else {
        assert ops[..k][..LastSettled(w, n, ops[..k])] == ops[..LastSettled(w, n, ops)];
      }
    }
  }

  // ----- names -----

  /** A file made by the call has a name that its directory does not hold yet. */
  predicate NewName(v: Vol, op: Op)
    requires Wf(v)
  {
    op.OpCreate? && IsDir(v, op.dir) && op.name != [] ==> Search(v.objs[op.dir].entries, op.name[1..], 0) == None
  }

  lemma StepKeepsNames(w: World, n: nat, op: Op)
    requires Good(w, n) && Proper(op) && NamesDiffer(w.cur) && NamesDiffer(w.saved) && NewName(w.cur, op)
    ensures NamesDiffer(Step(w, n, op).0.cur) && NamesDiffer(Step(w, n, op).0.saved)
  {
    hide Inv, Write, Make, Truncate, Readdir, Lookup, Volume.Read, NamesDiffer, Search, Reformatted;
    match op
    case OpWrite(file, offset, data) =>
      WriteKeepsNames(w.cur, n, file, offset, data);
    case OpCreate(dir, name) =>
      MadeIs(w.cur, n, dir, name, if name == [] then [] else name[1..], FS_FILE);
      MakeSucceedsIff(w.cur, n, dir, name, if name == [] then [] else name[1..], FS_FILE);
      if Create(w.cur, n, dir, name).rc == 0 {
        MakeKeepsNamesIff(w.cur, n, dir, name, if name == [] then [] else name[1..], FS_FILE);
      }
    case OpMkdir(dir, name) => MkdirKeepsNames(w.cur, n, dir, name);
    case OpTruncate(file) => TruncateKeepsNames(w.cur, n, file);
    case OpFormat => FormatKeepsNames(w.cur, n);
    case _ =>
  }

  lemma FormatKeepsNames(v: Vol, n: nat)
    requires Inv(v, n) && NamesDiffer(v)
    ensures |v.bmap| == |v.ibmap| == BLOCK_SIZE && |v.itab| == |v.objs| == ITAB_SIZE
    ensures NamesDiffer(Reformatted(v))
  {
    forall d: nat, e: nat, f: nat
      | IsEntry(Reformatted(v), d, e) && IsEntry(Reformatted(v), d, f) &&
        Reformatted(v).objs[d].entries[e].name == Reformatted(v).objs[d].entries[f].name
      ensures e == f
    {
      assert IsEntry(v, d, e) && IsEntry(v, d, f);
    }
  }

  lemma WriteKeepsNames(v: Vol, n: nat, file: nat, offset: nat, data: seq<byte>)
    requires Inv(v, n) && NamesDiffer(v)
    ensures NamesDiffer(Write(v, n, file, offset, data).vol)
  {
    WriteKeepsInv(v, n, file, offset, data);
    if Write(v, n, file, offset, data).rc == 0 {
      WriteObjs(v, n, file, offset, data);
      SameEntries(v, Write(v, n, file, offset, data).vol);
    } else {
      FailedWriteIsAtomicIff(v, n, file, offset, data);
      SameEntries(v, Write(v, n, file, offset, data).vol);
    }
  }

  lemma TruncateKeepsNames(v: Vol, n: nat, file: nat)
    requires Inv(v, n) && NamesDiffer(v) && file < ITAB_SIZE
    ensures NamesDiffer(Truncate(v, n, file).vol)
  {
    SameEntries(v, Truncate(v, n, file).vol);
  }

  lemma SameEntries(v: Vol, w: Vol)
    requires NamesDiffer(v) && |v.objs| == |w.objs|
    requires forall i | 0 <= i < |v.objs| :: w.objs[i] == v.objs[i] || w.objs[i].File?
    ensures NamesDiffer(w)
  {
    forall d: nat, e: nat, f: nat
      | IsEntry(w, d, e) && IsEntry(w, d, f) && w.objs[d].entries[e].name == w.objs[d].entries[f].name
      ensures e == f
    {
      assert IsEntry(v, d, e) && IsEntry(v, d, f);
    }
  }

  /** Every file made in the run had a new name. */
  predicate NewNames(w: World, n: nat, ops: seq<Op>)
    requires Good(w, n) && AllProper(ops)
  {
    forall i | 0 <= i < |ops| :: NewName(After(w, n, ops[..i]).cur, ops[i])
  }

  lemma {:induction false} RunKeepsNames(w: World, n: nat, ops: seq<Op>)
    requires Good(w, n) && AllProper(ops) && NewNames(w, n, ops) && NamesDiffer(w.cur) && NamesDiffer(w.saved)
    ensures NamesDiffer(After(w, n, ops).cur) && NamesDiffer(After(w, n, ops).saved)
  {
    hide Inv, Step, NamesDiffer, NewName, Proper;
    if ops != [] {
      var k := |ops| - 1;
      assert forall i | 0 <= i < k :: ops[..k][..i] == ops[..i];
      RunKeepsNames(w, n, ops[..k]);
      StepKeepsNames(After(w, n, ops[..k]), n, ops[k]);
    }
  }

  /** After such a run on a new volume every inode that a path can spell is found under its path. */
  lemma EveryPathIsFound(n: nat, ops: seq<Op>, i: nat)
    requires 10 <= n <= 8 * BLOCK_SIZE && AllProper(ops) && Good(NewWorld(), n) && NewNames(NewWorld(), n, ops)
    requires var v := After(NewWorld(), n, ops).cur;
             InTree(v, n, i) && i != 1 && forall t | t in PathTo(v, n, i) :: Component(t)
    ensures var v := After(NewWorld(), n, ops).cur;
            Wf(v) && Lookup(v, Join(PathTo(v, n, i))) == Looked(1, Some(i))
  {
    hide Inv, Step, NewName, Proper, Formatted, Wf, Lookup;
    NewNamesDiffer();
    RunKeepsNames(NewWorld(), n, ops);
    EveryPathLeadsThere(After(NewWorld(), n, ops).cur, n, i);
  }

  lemma NewNamesDiffer()
    ensures NamesDiffer(Formatted())
  {
  }
}
