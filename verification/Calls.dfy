/**
 * What single calls do to what the caller can see: which bytes a read returns, which entries a
 * listing has, what a new entry is, and why a lookup fails.
 */
module Calls {
  import opened Base
  import opened Bitmap
  import opened Codec
  import opened Names
  import opened Paths
  import opened Runs
  import opened Volume
  import opened VolumeInv

  // ----- fs_read -----

  /** How many bytes a file of `size` bytes has from `offset` on, and not more than `count`. */
  function Remaining(size: nat, offset: nat, count: nat): nat {
    Min(count, Max(0, size - offset))
  }

  /** A read fails exactly if the inode is no file in use, and returns what the file holds there. */
  lemma ReadReturns(v: Vol, file: nat, offset: nat, count: nat)
    requires Wf(v)
    ensures var r := Volume.Read(v, file, offset, count);
            && (r == None <==> !(file < ITAB_SIZE && IsSet(v.ibmap, file) && v.objs[file].File?))
            && (r.Some? ==>
                  && |r.value| == Remaining(|v.objs[file].bytes|, offset, count)
                  && forall j | 0 <= j < |r.value| :: r.value[j] == v.objs[file].bytes[offset + j])
  {
  }

  /** `r` has what a read at `at` finds in `bytes` with `data` over it from `from` on. */
  predicate ReadsBack(r: Option<seq<byte>>, bytes: seq<byte>, from: nat, data: seq<byte>, at: nat, count: nat)
    requires from <= |bytes|
  {
    && r.Some? && |r.value| == Remaining(Max(|bytes|, from + |data|), at, count)
    && forall j | 0 <= j < |r.value| ::
         r.value[j] == if from <= at + j < from + |data| then data[at + j - from] else bytes[at + j]
  }

  /**
   * After a write and any calls that leave the file alone, a read of any range returns as many bytes
   * of it as the file has: those written where they were written, and the old ones elsewhere.
   */
  lemma AnyRangeIsReadBack(w: World, n: nat, file: nat, offset: nat, data: seq<byte>, ops: seq<Op>, at: nat, count: nat)
    requires Good(w, n) && Write(w.cur, n, file, offset, data).rc == 0
    requires AllProper(ops) && forall i | 0 <= i < |ops| :: Leaves(ops[i], file)
    ensures IsFile(w.cur, file)
    ensures var w1, bytes := Step(w, n, OpWrite(file, offset, data)).0, w.cur.objs[file].bytes;
            && Good(w1, n)
            && var r := Volume.Read(After(w1, n, ops).cur, file, at, count);
               ReadsBack(r, bytes, Min(offset, |bytes|), data, at, count)
  {
    hide *;
    var w1, before, bytes, from := WriteFills(w, n, file, offset, data);
    FileIsGood(w1, n, file, bytes);
    RunLeavesFile(w1, n, ops, file, bytes);
    RangeOfFile(After(w1, n, ops), n, file, bytes, at, count);
    FilledReads(before, from, data, bytes, Volume.Read(After(w1, n, ops).cur, file, at, count), at, count);
  }

  /** `bytes'` is `bytes` with `data` over it from `from` on. */
  predicate Filled(bytes: seq<byte>, from: nat, data: seq<byte>, bytes': seq<byte>) {
    && |bytes'| == Max(|bytes|, from + |data|) && from <= |bytes|
    && forall j | 0 <= j < |bytes'| ::
         bytes'[j] == if from <= j < from + |data| then data[j - from] else bytes[j]
  }

  /** A range of `bytes` as far as there is any. */
  predicate RangeOf(r: Option<seq<byte>>, bytes: seq<byte>, at: nat, count: nat) {
    && r.Some? && |r.value| == Remaining(|bytes|, at, count)
    && forall j | 0 <= j < |r.value| :: r.value[j] == bytes[at + j]
  }

  lemma FilledReads(bytes: seq<byte>, from: nat, data: seq<byte>, bytes': seq<byte>,
                    r: Option<seq<byte>>, at: nat, count: nat)
    requires Filled(bytes, from, data, bytes') && RangeOf(r, bytes', at, count)
    ensures from <= |bytes| && ReadsBack(r, bytes, from, data, at, count)
  {
  }

  lemma WriteFills(w: World, n: nat, file: nat, offset: nat, data: seq<byte>)
    returns (w1: World, before: seq<byte>, bytes: seq<byte>, from: nat)
    requires Good(w, n) && Write(w.cur, n, file, offset, data).rc == 0
    ensures IsFile(w.cur, file) && w.cur.objs[file] == File(before) && from == Min(offset, |before|)
    ensures w1 == Step(w, n, OpWrite(file, offset, data)).0 && FileIs(w1, n, file, bytes)
    ensures Filled(before, from, data, bytes)
  {
    hide Write, Inv, Wf, Splice;
    WriteObjs(w.cur, n, file, offset, data);
    w1 := Step(w, n, OpWrite(file, offset, data)).0;
    StepKeepsInv(w, n, OpWrite(file, offset, data));
    before, bytes := w.cur.objs[file].bytes, w1.cur.objs[file].bytes;
    from := Min(offset, |before|);
    SpliceBytes(before, from, data);
  }

  lemma RangeOfFile(w: World, n: nat, file: nat, bytes: seq<byte>, at: nat, count: nat)
    requires FileIs(w, n, file, bytes)
    ensures Wf(w.cur) && RangeOf(Volume.Read(w.cur, file, at, count), bytes, at, count)
  {
    InvIsWf(w.cur, n);
    hide Inv, Wf;
  }

  // ----- fs_readdir -----

  /** The entry as a listing shows it: its name, and whether it is a directory or a file. */
  predicate Shows(v: Vol, entry: Dentry, line: (seq<byte>, nat))
    requires Wf(v)
  {
    && line.0 == entry.name && entry.id < ITAB_SIZE
    && (line.1 == FS_DIR <==> v.objs[entry.id].Dir?)
    && (line.1 == FS_FILE <==> v.objs[entry.id].File?)
  }

  /**
   * A listing fails exactly if the inode is no directory in use or the limit is negative. It has
   * all entries in their order up to the limit, and each is a directory or a file.
   */
  lemma ReaddirLists(v: Vol, n: nat, dir: nat, max: int)
    requires Inv(v, n)
    ensures |v.ibmap| == BLOCK_SIZE && |v.objs| == ITAB_SIZE && Wf(v)
    ensures var r := Readdir(v, n, dir, max);
            && (r == None <==> max < 0 || !(dir < ITAB_SIZE && IsSet(v.ibmap, dir) && v.objs[dir].Dir?))
            && (r.Some? ==>
                  && |r.value| == Min(|v.objs[dir].entries|, max)
                  && forall e | 0 <= e < |r.value| ::
                       Shows(v, v.objs[dir].entries[e], r.value[e]) && r.value[e].1 in {FS_DIR, FS_FILE})
  {
    hide Owned, EntryCount;
    if max >= 0 && IsDir(v, dir) {
      forall e | 0 <= e < |v.objs[dir].entries|
        ensures IsEntry(v, dir, e) && v.objs[dir].entries[e].id < ITAB_SIZE && v.objs[v.objs[dir].entries[e].id] != Free
      {
        assert IsEntry(v, dir, e) && EntryId(v, dir, e) == v.objs[dir].entries[e].id;
      }
    }
  }

  // ----- fs_create and fs_mkdir -----

  /**
   * The inode handed out was the first free one and is in use now, with `o` in it; its directory
   * has one entry more, for it; and no other inode is touched.
   */
  ghost predicate NewEntry(v: Vol, made: Made, dir: nat, name: seq<byte>, o: Obj)
    requires Wf(v) && Wf(made.vol)
  {
    && made.id.Some? && IsDir(v, dir)
    && var k, w := made.id.value, made.vol;
       && k < ITAB_SIZE && !IsSet(v.ibmap, k) && v.objs[k] == Free && (forall i | 0 <= i < k :: IsSet(v.ibmap, i))
       && k != dir && IsSet(w.ibmap, k) && w.objs[k] == o
       && IsDir(w, dir) && w.objs[dir].entries == v.objs[dir].entries + [Dentry(name, k)]
       && forall i | 0 <= i < ITAB_SIZE && i != dir && i != k ::
            w.objs[i] == v.objs[i] && (IsSet(w.ibmap, i) <==> IsSet(v.ibmap, i))
  }

  lemma MadeEntry(v: Vol, n: nat, dir: nat, key: seq<byte>, name: seq<byte>, itype: nat)
    requires Inv(v, n) && CString(name) && itype in {FS_DIR, FS_FILE}
    ensures var made := Make(v, n, dir, key, name, itype);
            && Wf(v) && Wf(made.vol) && made.rc in {0, -1} && (made.rc != 0 ==> made.vol == v)
            && (made.rc == 0 ==> NewEntry(v, made, dir, name, if itype == FS_DIR then Dir([]) else File([])))
  {
    hide Make, Entered, Inv, Wf, NewEntry;
    MakeKeepsInv(v, n, dir, key, name, itype);
    MadeIs(v, n, dir, key, name, itype);
    MakeRc(v, n, dir, key, name, itype);
    var made := Make(v, n, dir, key, name, itype);
    InvIsWf(v, n);
    InvIsWf(made.vol, n);
    if made.rc == 0 {
      EnteredEntry(v, made, n, dir, name, itype);
    }
  }

  lemma MakeRc(v: Vol, n: nat, dir: nat, key: seq<byte>, name: seq<byte>, itype: nat)
    requires Inv(v, n)
    ensures Make(v, n, dir, key, name, itype).rc in {0, -1}
  {
    hide Inv;
  }

  lemma EnteredEntry(v: Vol, made: Made, n: nat, dir: nat, name: seq<byte>, itype: nat)
    requires Inv(v, n) && Wf(v) && Wf(made.vol) && itype in {FS_DIR, FS_FILE}
    requires made.id == Some(Top(v)) && Entered(v, made.vol, n, dir, name, itype)
    ensures NewEntry(v, made, dir, name, if itype == FS_DIR then Dir([]) else File([]))
  {
    hide Inv, Extended, SetBit, IsSet, FirstFree;
    InUseFacts(v, n);
    SetBitSets(v.ibmap, Top(v));
  }

  lemma InUseFacts(v: Vol, n: nat)
    requires Inv(v, n)
    ensures |v.ibmap| == BLOCK_SIZE && |v.objs| == ITAB_SIZE
    ensures forall i | 0 <= i < ITAB_SIZE :: (IsSet(v.ibmap, i) <==> i < Top(v)) && (i >= Top(v) ==> v.objs[i] == Free)
  {
    hide Owned, Tree;
  }

  /** A `fs_mkdir` that returns 0 has made an empty directory under that name; any other changes nothing. */
  lemma MkdirMakesDirectory(v: Vol, n: nat, dir: nat, newdir: seq<byte>)
    requires Inv(v, n) && CString(newdir)
    ensures var made := Mkdir(v, n, dir, newdir);
            && Wf(v) && Wf(made.vol) && made.rc in {0, -1}
            && if made.rc == 0 then NewEntry(v, made, dir, newdir, Dir([])) else made.vol == v
  {
    hide Make, Inv, NewEntry, Wf;
    MadeEntry(v, n, dir, newdir, newdir, FS_DIR);
  }

  /** A `fs_create` that returns 0 has made an empty file, under the name without its first character. */
  lemma CreateMakesFile(v: Vol, n: nat, dir: nat, file: seq<byte>)
    requires Inv(v, n) && CString(file)
    ensures var made := Create(v, n, dir, file);
            && Wf(v) && Wf(made.vol) && made.rc in {0, -1}
            && if made.rc == 0 then file != [] && NewEntry(v, made, dir, file[1..], File([])) else made.vol == v
  {
    hide Make, Inv, NewEntry, Wf, Search, FirstFree, Top;
    var name := if file == [] then [] else file[1..];
    MadeEntry(v, n, dir, file, name, FS_FILE);
    MakeSucceedsIff(v, n, dir, file, name, FS_FILE);
  }

  /** An inode and a block are left. */
  ghost predicate HasRoom(v: Vol, n: nat)
    requires Wf(v) && n <= 8 * BLOCK_SIZE
  {
    && (exists i :: 0 <= i < ITAB_SIZE && !IsSet(v.ibmap, i))
    && (exists b :: 0 <= b < n && !IsSet(v.bmap, b))
  }

  /**
   * In a directory just made a first call that adds an entry succeeds exactly if its name is of
   * proper length and there is room.
   */
  lemma BelowNewDirectory(v: Vol, n: nat, dir: nat, newdir: seq<byte>, name: seq<byte>)
    requires Inv(v, n) && CString(newdir) && CString(name) && Mkdir(v, n, dir, newdir).rc == 0
    ensures var made := Mkdir(v, n, dir, newdir);
            && made.id.Some? && Inv(made.vol, n) && Wf(made.vol) && n <= 8 * BLOCK_SIZE
            && (Create(made.vol, n, made.id.value, name).rc == 0 <==> 0 < |name| < 14 && HasRoom(made.vol, n))
            && (Mkdir(made.vol, n, made.id.value, name).rc == 0 <==> 0 < |name| < 14 && HasRoom(made.vol, n))
  {
    hide Make, Inv, Wf, Search, FirstFree, Top, HasRoom;
    MkdirMakesDirectory(v, n, dir, newdir);
    MakeKeepsInv(v, n, dir, newdir, newdir, FS_DIR);
    var made := Mkdir(v, n, dir, newdir);
    InvIsWf(made.vol, n);
    MakeSucceedsIff(made.vol, n, made.id.value, name, if name == [] then [] else name[1..], FS_FILE);
    MakeSucceedsIff(made.vol, n, made.id.value, name, name, FS_DIR);
    EmptyDirectory(made.vol, n, made.id.value, name);
  }

  lemma EmptyDirectory(v: Vol, n: nat, dir: nat, name: seq<byte>)
    requires Inv(v, n) && Wf(v) && n <= 8 * BLOCK_SIZE
    requires dir < ITAB_SIZE && v.objs[dir] == Dir([]) && IsSet(v.ibmap, dir)
    ensures IsDir(v, dir) && Search(v.objs[dir].entries, name, 0) == None && v.itab[dir].size == 0
    ensures HasRoom(v, n) <==> Top(v) < ITAB_SIZE && FirstFree(v.bmap, 0, n).Some?
  {
    hide Owned, Tree, Prefix;
    if Top(v) < ITAB_SIZE {
      assert !IsSet(v.ibmap, Top(v));
    }
  }

  // ----- listings and new entries -----

  /** All that `fs_readdir` can tell about directory `d`. */
  function Listing(v: Vol, n: nat, d: nat): (lines: seq<(seq<byte>, nat)>)
    requires Inv(v, n) && Wf(v) && IsDir(v, d)
    ensures |lines| == |v.objs[d].entries|
    ensures forall e | 0 <= e < |lines| ::
              Shows(v, v.objs[d].entries[e], lines[e]) && lines[e].1 in {FS_DIR, FS_FILE}
  {
    ReaddirLists(v, n, d, |v.objs[d].entries|);
    Readdir(v, n, d, |v.objs[d].entries|).value
  }

  lemma UpTo(v: Vol, n: nat, d: nat, max: nat)
    requires Inv(v, n) && Wf(v) && IsDir(v, d)
    ensures Readdir(v, n, d, max) == Some(Listing(v, n, d)[..Min(|v.objs[d].entries|, max)])
  {
    hide Inv, Wf, Readdir, Listing;
    ReaddirLists(v, n, d, max);
    var lines, r := Listing(v, n, d), Readdir(v, n, d, max).value;
    forall e | 0 <= e < |r| ensures r[e] == lines[e] {
      assert Shows(v, v.objs[d].entries[e], r[e]) && Shows(v, v.objs[d].entries[e], lines[e]);
    }
    assert r == lines[..|r|];
  }

  /** The new entry stands at the end of its directory's listing; every other listing stays as it was. */
  lemma ListingsAfter(v: Vol, n: nat, made: Made, dir: nat, name: seq<byte>, o: Obj)
    requires Inv(v, n) && Inv(made.vol, n) && Wf(v) && Wf(made.vol) && o in {File([]), Dir([])}
    requires NewEntry(v, made, dir, name, o)
    ensures Listing(made.vol, n, dir) == Listing(v, n, dir) + [(name, if o.Dir? then FS_DIR else FS_FILE)]
    ensures forall d | 0 <= d < ITAB_SIZE && d != dir && IsDir(v, d) ::
              IsDir(made.vol, d) && Listing(made.vol, n, d) == Listing(v, n, d)
    ensures o.Dir? ==> IsDir(made.vol, made.id.value) && Listing(made.vol, n, made.id.value) == []
  {
    hide Inv, Listing;
    var w, k := made.vol, made.id.value;
    var old', new' := Listing(v, n, dir), Listing(w, n, dir);
    forall e | 0 <= e < |old'| ensures new'[e] == old'[e] {
      assert w.objs[dir].entries[e] == v.objs[dir].entries[e];
      SameLine(v, made, dir, name, o, v.objs[dir].entries[e], old'[e], new'[e]);
    }
    assert Shows(w, w.objs[dir].entries[|old'|], new'[|old'|]);
    assert new' == old' + [(name, if o.Dir? then FS_DIR else FS_FILE)];
    forall d | 0 <= d < ITAB_SIZE && d != dir && IsDir(v, d)
      ensures IsDir(w, d) && Listing(w, n, d) == Listing(v, n, d)
    {
      assert d != k && w.objs[d] == v.objs[d];
      forall e | 0 <= e < |v.objs[d].entries| ensures Listing(w, n, d)[e] == Listing(v, n, d)[e] {
        SameLine(v, made, dir, name, o, v.objs[d].entries[e], Listing(v, n, d)[e], Listing(w, n, d)[e]);
      }
      assert Listing(w, n, d) == Listing(v, n, d);
    }
  }

  lemma SameLine(v: Vol, made: Made, dir: nat, name: seq<byte>, o: Obj, entry: Dentry,
                 line: (seq<byte>, nat), line': (seq<byte>, nat))
    requires Wf(v) && Wf(made.vol) && NewEntry(v, made, dir, name, o)
    requires Shows(v, entry, line) && Shows(made.vol, entry, line')
    requires line.1 in {FS_DIR, FS_FILE} && line'.1 in {FS_DIR, FS_FILE}
    ensures line' == line
  {
    hide Wf;
    assert line == (line.0, line.1) && line' == (line'.0, line'.1);
  }

  /** After a successful `fs_create` the listing is the old one and the stored name, as a file. */
  lemma CreateIsListed(v: Vol, n: nat, dir: nat, file: seq<byte>, max: nat)
    requires Inv(v, n) && CString(file) && Create(v, n, dir, file).rc == 0
    ensures Wf(v) && IsDir(v, dir) && file != [] && Inv(Create(v, n, dir, file).vol, n)
    ensures var lines := Listing(v, n, dir) + [(file[1..], FS_FILE)];
            Readdir(Create(v, n, dir, file).vol, n, dir, max) == Some(lines[..Min(|lines|, max)])
  {
    hide Make, Inv, Wf, Listing, Readdir;
    var made := Create(v, n, dir, file);
    MakeKeepsInv(v, n, dir, file, if file == [] then [] else file[1..], FS_FILE);
    CreateMakesFile(v, n, dir, file);
    ListingsAfter(v, n, made, dir, file[1..], File([]));
    UpTo(made.vol, n, dir, max);
  }

  /** After a successful `fs_mkdir` it is the old one and the name, as a directory, and the new one is empty. */
  lemma MkdirIsListed(v: Vol, n: nat, dir: nat, newdir: seq<byte>, max: nat)
    requires Inv(v, n) && CString(newdir) && Mkdir(v, n, dir, newdir).rc == 0
    ensures Wf(v) && IsDir(v, dir) && Inv(Mkdir(v, n, dir, newdir).vol, n)
    ensures var lines, made := Listing(v, n, dir) + [(newdir, FS_DIR)], Mkdir(v, n, dir, newdir);
            && Readdir(made.vol, n, dir, max) == Some(lines[..Min(|lines|, max)])
            && made.id.Some? && Readdir(made.vol, n, made.id.value, max) == Some([])
  {
    hide Make, Inv, Wf, Listing, Readdir;
    var made := Mkdir(v, n, dir, newdir);
    MakeKeepsInv(v, n, dir, newdir, newdir, FS_DIR);
    MkdirMakesDirectory(v, n, dir, newdir);
    ListingsAfter(v, n, made, dir, newdir, Dir([]));
    UpTo(made.vol, n, dir, max);
    UpTo(made.vol, n, made.id.value, max);
  }

  // ----- fs_lookup -----

  /** The names lead from the root to inode `i`, none of them hidden. */
  ghost predicate Reaches(v: Vol, n: nat, tokens: seq<seq<byte>>, i: nat) {
    InTree(v, n, i) && tokens == PathTo(v, n, i) && Visible(v, n, i)
  }

  lemma ReachesIff(v: Vol, n: nat, tokens: seq<seq<byte>>, i: nat)
    requires Inv(v, n) && Wf(v)
    ensures Ends(v, tokens, i) <==> Reaches(v, n, tokens, i)
  {
    hide Inv, Wf, Walk;
    if Ends(v, tokens, i) {
      WalkStaysInTree(v, n, tokens, i);
    }
    if InTree(v, n, i) {
      WalkReachesIff(v, n, i, tokens);
    }
  }

  predicate HasName(entries: seq<Dentry>, name: seq<byte>) {
    exists e :: 0 <= e < |entries| && entries[e].name == name
  }

  /** The first `k` names lead to inode `d`, and there the names end or the next one leads nowhere. */
  ghost predicate StopsAt(v: Vol, n: nat, tokens: seq<seq<byte>>, k: nat, d: nat)
    requires Wf(v)
  {
    && k <= |tokens| && Reaches(v, n, tokens[..k], d) && d < ITAB_SIZE
    && (k < |tokens| ==> !v.objs[d].Dir? || !HasName(v.objs[d].entries, tokens[k]))
  }

  /** 1 at the end of the names, 0 in a directory, -1 below a file; and the last inode but for the root. */
  function Verdict(v: Vol, tokens: seq<seq<byte>>, k: nat, d: nat): Looked
    requires Wf(v) && d < ITAB_SIZE
  {
    Looked(if k == |tokens| then 1 else if v.objs[d].Dir? then 0 else -1, if k == 0 then None else Some(d))
  }

  lemma ReachedInUse(v: Vol, n: nat, tokens: seq<seq<byte>>, i: nat)
    requires Inv(v, n) && Wf(v) && Reaches(v, n, tokens, i)
    ensures i < ITAB_SIZE == |v.objs| && (IsDir(v, i) <==> v.objs[i].Dir?) && (tokens == [] ==> i == 1)
  {
    ReachesIff(v, n, tokens, i);
    hide Owned, Tree;
  }

  lemma SearchHolds(entries: seq<Dentry>, name: seq<byte>)
    ensures Search(entries, name, 0) == None <==> !HasName(entries, name)
  {
    SearchFinds(entries, name, 0);
  }

  lemma RootReached(v: Vol, n: nat)
    requires Inv(v, n) && Wf(v)
    ensures Reaches(v, n, [], 1)
  {
    ReachesIff(v, n, [], 1);
  }

  lemma {:induction false} WalkStops(v: Vol, n: nat, tokens: seq<seq<byte>>) returns (k: nat, d: nat)
    requires Inv(v, n) && Wf(v)
    ensures StopsAt(v, n, tokens, k, d) && Walk(v, 1, tokens, None) == Verdict(v, tokens, k, d)
    decreases |tokens|
  {
    hide Inv, Wf, Search, IsDir, Reaches, HasName;
    if tokens == [] {
      k, d := 0, 1;
      RootReached(v, n);
    } else {
      var last := |tokens| - 1;
      var a, t := tokens[..last], tokens[last];
      assert tokens == a + [t] && tokens[..|tokens|] == tokens;
      k, d := WalkStops(v, n, a);
      assert a[..k] == tokens[..k];
      WalkOneMore(v, a, t);
      ReachedInUse(v, n, a[..k], d);
      if k == last && IsDir(v, d) {
        SearchHolds(v.objs[d].entries, t);
        if Search(v.objs[d].entries, t, 0).Some? {
          k, d := |tokens|, Search(v.objs[d].entries, t, 0).value;
          ReachesIff(v, n, tokens, d);
          ReachedInUse(v, n, tokens, d);
        }
      }
    }
  }

  /** Only one place fits. */
  lemma OneStop(v: Vol, n: nat, tokens: seq<seq<byte>>, k: nat, d: nat, l: nat, e: nat)
    requires Inv(v, n) && Wf(v) && StopsAt(v, n, tokens, k, d) && StopsAt(v, n, tokens, l, e) && k <= l
    ensures k == l && d == e
  {
    hide Inv, Wf, Search, IsDir, Reaches, HasName;
    ReachesIff(v, n, tokens[..k], d);
    ReachesIff(v, n, tokens[..l], e);
    ReachedInUse(v, n, tokens[..k], d);
    if k < l {
      var rest := tokens[..l][k + 1..];
      assert tokens[..l] == tokens[..k] + [tokens[k]] + rest;
      WalkInSteps(v, 1, tokens[..k] + [tokens[k]], rest, None);
      WalkOneMore(v, tokens[..k], tokens[k]);
      if IsDir(v, d) {
        SearchHolds(v.objs[d].entries, tokens[k]);
      }
      assert false;
    }
  }

  /**
   * The three return codes of `fs_lookup`, and the inode it has handed out by then: it follows the
   * names from the root as far as they lead. The place where it stops is one only.
   */
  lemma LookupStops(v: Vol, n: nat, path: seq<byte>)
    requires Inv(v, n)
    ensures Wf(v)
    ensures path == [] || path[0] != SLASH ==> Lookup(v, path) == Looked(-1, None)
    ensures path != [] && path[0] == SLASH ==>
              && (exists k: nat, d: nat :: StopsAt(v, n, Tokens(path), k, d))
              && forall k: nat, d: nat | StopsAt(v, n, Tokens(path), k, d) ::
                   Lookup(v, path) == Verdict(v, Tokens(path), k, d)
  {
    InvIsWf(v, n);
    hide Inv, Wf, Reaches, StopsAt;
    if path != [] && path[0] == SLASH {
      var l, e := WalkStops(v, n, Tokens(path));
      forall k: nat, d: nat | StopsAt(v, n, Tokens(path), k, d) ensures k == l && d == e {
        if k <= l {
          OneStop(v, n, Tokens(path), k, d, l, e);
        } else {
          OneStop(v, n, Tokens(path), l, e, k, d);
        }
      }
    }
  }

  // ----- the path of a new entry -----

  /** A new entry hides nothing: names that led somewhere still do. */
  lemma {:induction false} StillEnds(v: Vol, made: Made, dir: nat, name: seq<byte>, o: Obj,
                                     tokens: seq<seq<byte>>, i: nat)
    requires Wf(v) && Wf(made.vol) && NewEntry(v, made, dir, name, o) && Ends(v, tokens, i)
    ensures Ends(made.vol, tokens, i)
    decreases |tokens|
  {
    hide Wf;
    if tokens != [] {
      var k := |tokens| - 1;
      var a, t := tokens[..k], tokens[k];
      assert tokens == a + [t];
      WalkOneMore(v, a, t);
      WalkOneMore(made.vol, a, t);
      var d := EndOf(Walk(v, 1, a, None));
      StillEnds(v, made, dir, name, o, a, d);
      StillFound(v, made, dir, name, o, d, t);
    }
  }

  lemma StillFound(v: Vol, made: Made, dir: nat, name: seq<byte>, o: Obj, d: nat, t: seq<byte>)
    requires Wf(v) && Wf(made.vol) && NewEntry(v, made, dir, name, o) && IsDir(v, d)
    ensures IsDir(made.vol, d)
    ensures Search(v.objs[d].entries, t, 0).Some? ==>
              Search(made.vol.objs[d].entries, t, 0) == Search(v.objs[d].entries, t, 0)
  {
    hide Search;
    if d == dir {
      SearchAppended(v.objs[dir].entries, Dentry(name, made.id.value), t, 0);
    }
  }

  /** The new inode is found under its name below its directory exactly if no entry there had that name. */
  lemma EntryFoundIff(v: Vol, n: nat, made: Made, dir: nat, name: seq<byte>, o: Obj, tokens: seq<seq<byte>>)
    requires Inv(v, n) && Inv(made.vol, n) && Wf(v) && Wf(made.vol) && NewEntry(v, made, dir, name, o)
    requires Reaches(v, n, tokens, dir) && Component(name) && forall t | t in tokens :: Component(t)
    ensures Lookup(made.vol, Join(tokens + [name])) == Looked(1, made.id) <==> !HasName(v.objs[dir].entries, name)
  {
    hide Inv, Wf, Walk, Search, Reaches;
    var w, k := made.vol, made.id.value;
    ReachesIff(v, n, tokens, dir);
    ReachedInUse(v, n, tokens, dir);
    StillEnds(v, made, dir, name, o, tokens, dir);
    WalkOneMore(w, tokens, name);
    SearchAppended(v.objs[dir].entries, Dentry(name, k), name, 0);
    SearchHolds(v.objs[dir].entries, name);
    NewInodeIsNew(v, n, dir, name, k);
    TokensOfJoinIff(tokens + [name]);
    JoinStartsWithSlash(tokens + [name]);
  }

  lemma NewInodeIsNew(v: Vol, n: nat, dir: nat, name: seq<byte>, k: nat)
    requires Inv(v, n) && Wf(v) && IsDir(v, dir) && k < ITAB_SIZE && v.objs[k] == Free
    ensures Search(v.objs[dir].entries, name, 0) != Some(k)
  {
    SearchFinds(v.objs[dir].entries, name, 0);
    hide Owned, EntryCount;
    forall e | 0 <= e < |v.objs[dir].entries| ensures v.objs[dir].entries[e].id != k {
      assert IsEntry(v, dir, e) && EntryId(v, dir, e) == v.objs[dir].entries[e].id;
    }
  }

  /** `fs_lookup` finds a directory just made below the path of the one it was made in. */
  lemma MkdirIsFound(v: Vol, n: nat, dir: nat, newdir: seq<byte>, tokens: seq<seq<byte>>)
    requires Inv(v, n) && CString(newdir) && Mkdir(v, n, dir, newdir).rc == 0
    requires Reaches(v, n, tokens, dir) && Component(newdir) && forall t | t in tokens :: Component(t)
    ensures var made := Mkdir(v, n, dir, newdir);
            && Wf(made.vol) && made.id.Some? && Lookup(made.vol, Join(tokens + [newdir])) == Looked(1, made.id)
  {
    hide Make, Inv, Wf, Reaches, FirstFree, Top, Search, Lookup;
    var made := Mkdir(v, n, dir, newdir);
    MkdirMakesDirectory(v, n, dir, newdir);
    MakeKeepsInv(v, n, dir, newdir, newdir, FS_DIR);
    MakeSucceedsIff(v, n, dir, newdir, newdir, FS_DIR);
    ReachedInUse(v, n, tokens, dir);
    SearchHolds(v.objs[dir].entries, newdir);
    EntryFoundIff(v, n, made, dir, newdir, Dir([]), tokens);
  }

  /** It finds a file just made under the stored name exactly if its directory had no entry of that name. */
  lemma CreateIsFoundIff(v: Vol, n: nat, dir: nat, file: seq<byte>, tokens: seq<seq<byte>>)
    requires Inv(v, n) && CString(file) && file != [] && Create(v, n, dir, file).rc == 0
    requires Reaches(v, n, tokens, dir) && Component(file[1..]) && forall t | t in tokens :: Component(t)
    ensures Wf(v) && IsDir(v, dir)
    ensures var made := Create(v, n, dir, file);
            && Wf(made.vol) && made.id.Some?
            && (Lookup(made.vol, Join(tokens + [file[1..]])) == Looked(1, made.id) <==>
                !HasName(v.objs[dir].entries, file[1..]))
  {
    hide Make, Inv, Wf, Reaches, Search, Lookup;
    var made := Create(v, n, dir, file);
    CreateMakesFile(v, n, dir, file);
    MakeKeepsInv(v, n, dir, file, file[1..], FS_FILE);
    EntryFoundIff(v, n, made, dir, file[1..], File([]), tokens);
  }

  // ----- fs_truncate -----

  /** It fails exactly for an inode that holds no file, and otherwise leaves it empty and all others as they were. */
  lemma TruncateEmpties(v: Vol, n: nat, file: nat)
    requires Inv(v, n) && file < ITAB_SIZE
    ensures |v.objs| == ITAB_SIZE
    ensures var o := Truncate(v, n, file);
            if v.objs[file].File?
            then o.rc == 0 && o.vol.objs == v.objs[file := File([])] && o.vol.ibmap == v.ibmap
            else o.rc == -1 && o.vol == v
  {
    hide Owned, Tree, Prefix;
  }
}
