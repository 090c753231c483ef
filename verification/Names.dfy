/** What `fs_lookup` finds: the tree of names, walked token by token. */
module Names {
  import opened Base
  import opened Bitmap
  import opened Codec
  import opened Format
  import opened Paths
  import opened Volume
  import opened VolumeInv

  // ----- path strings -----

  /** What may stand between two slashes. */
  predicate Component(t: seq<byte>) {
    t != [] && SLASH !in t
  }

  function Join(tokens: seq<seq<byte>>): seq<byte> {
    if tokens == [] then [] else [SLASH] + tokens[0] + Join(tokens[1..])
  }

  lemma {:induction false} TokensAreComponents(s: seq<byte>)
    ensures forall t | t in Tokens(s) :: Component(t)
    decreases |s|
  {
    if s != [] {
      if s[0] == SLASH {
        TokensAreComponents(s[1..]);
      } else {
        TokensAreComponents(s[TokenLength(s)..]);
      }
    }
  }

  lemma {:induction false} JoinStartsWithSlash(tokens: seq<seq<byte>>)
    requires tokens != []
    ensures Join(tokens)[0] == SLASH
  {
  }

  lemma {:induction false} ComponentsRoundTrip(tokens: seq<seq<byte>>)
    requires forall t | t in tokens :: Component(t)
    ensures Tokens(Join(tokens)) == tokens
  {
    if tokens != [] {
      var t, rest := tokens[0], tokens[1..];
      assert t in tokens && forall u | u in rest :: u in tokens;
      ComponentsRoundTrip(rest);
      FirstToken(t, Join(rest));
      assert Join(tokens) == [SLASH] + t + Join(rest);
    }
  }

  lemma FirstToken(t: seq<byte>, rest: seq<byte>)
    requires Component(t) && (rest == [] || rest[0] == SLASH)
    ensures Tokens([SLASH] + t + rest) == [t] + Tokens(rest)
  {
    assert ([SLASH] + t + rest)[1..] == t + rest && (t + rest)[..|t|] == t && (t + rest)[|t|..] == rest;
    TokenLengthIs(t + rest, |t|);
  }

  /** `strtok` takes a path apart again exactly if no name is empty or holds a slash. */
  lemma TokensOfJoinIff(tokens: seq<seq<byte>>)
    ensures Tokens(Join(tokens)) == tokens <==> forall t | t in tokens :: Component(t)
  {
    TokensAreComponents(Join(tokens));
    if forall t | t in tokens :: Component(t) {
      ComponentsRoundTrip(tokens);
    }
  }

  // ----- the tree -----

  predicate Named(v: Vol, d: nat, e: nat, i: nat) {
    IsEntry(v, d, e) && EntryId(v, d, e) == i
  }

  /** The root, and every inode with an entry in a directory of the tree. */
  ghost predicate InTree(v: Vol, n: nat, i: nat)
    decreases i
  {
    && Inv(v, n) && 1 <= i < Top(v)
    && (i == 1 || exists d: nat, e: nat :: Named(v, d, e, i) && d < i && InTree(v, n, d))
  }

  /** Unless a volume in use was formatted, all inodes are in the tree. */
  lemma {:induction false} AllInTree(v: Vol, n: nat, i: nat)
    requires Inv(v, n)
    ensures |v.ibmap| == BLOCK_SIZE
    ensures AllNamed(v) && 1 <= i < Top(v) ==> InTree(v, n, i)
    decreases i
  {
    hide Owned, EntryCount;
    if AllNamed(v) && 1 < i < Top(v) {
      assert HasEntry(v, i);
      var d: nat, e: nat :| IsEntry(v, d, e) && EntryId(v, d, e) == i;
      DirOfEntry(v, n, d, e);
      AllInTree(v, n, d);
      assert Named(v, d, e, i);
    }
  }

  lemma DirOfEntry(v: Vol, n: nat, d: nat, e: nat)
    requires Inv(v, n) && IsEntry(v, d, e)
    ensures |v.ibmap| == BLOCK_SIZE && Wf(v) && 1 <= d < Top(v) && d < EntryId(v, d, e) && IsDir(v, d)
  {
    hide Owned;
  }

  /** The one entry that names inode `i`: its directory and its place there. */
  ghost function EntryOf(v: Vol, n: nat, i: nat): (p: (nat, nat))
    requires InTree(v, n, i) && i != 1
    ensures Named(v, p.0, p.1, i)
    ensures p.0 < i && InTree(v, n, p.0) && Wf(v) && IsDir(v, p.0)
  {
    var d: nat, e: nat :| Named(v, d, e, i) && d < i && InTree(v, n, d);
    DirOfEntry(v, n, d, e);
    (d, e)
  }

  /** The names on the way from the root to inode `i`. */
  ghost function PathTo(v: Vol, n: nat, i: nat): seq<seq<byte>>
    requires InTree(v, n, i)
    decreases i
  {
    if i == 1 then []
    else
      var (d, e) := EntryOf(v, n, i);
      PathTo(v, n, d) + [v.objs[d].entries[e].name]
  }

  predicate FirstOfName(v: Vol, d: nat, e: nat)
    requires IsEntry(v, d, e)
  {
    forall k | 0 <= k < e :: v.objs[d].entries[k].name != v.objs[d].entries[e].name
  }

  /** No entry on the way to inode `i` is hidden behind an earlier one of the same name. */
  ghost predicate Visible(v: Vol, n: nat, i: nat)
    requires InTree(v, n, i)
    decreases i
  {
    i == 1 ||
    var (d, e) := EntryOf(v, n, i);
    FirstOfName(v, d, e) && Visible(v, n, d)
  }

  lemma {:induction false} WalkInSteps(v: Vol, dir: nat, a: seq<seq<byte>>, b: seq<seq<byte>>, last: Option<nat>)
    requires Wf(v)
    ensures var half := Walk(v, dir, a, last);
            Walk(v, dir, a + b, last) ==
            if half.rc != 1 then half
            else Walk(v, if a == [] || half.id == None then dir else half.id.value, b, half.id)
    ensures Walk(v, dir, a, last).rc == 1 && a != [] ==> Walk(v, dir, a, last).id.Some?
    decreases |a|
  {
    if a == [] {
      assert a + b == b;
    } else {
      assert (a + b)[1..] == a[1..] + b;
      if IsDir(v, dir) {
        match Search(v.objs[dir].entries, a[0], 0)
        case None =>
        case Some(id) => WalkInSteps(v, id, a[1..], b, Some(id));
      }
    }
  }

  /** The inode a walk from the root ends at. */
  function EndOf(l: Looked): nat {
    if l.id == None then 1 else l.id.value
  }

  /** One more token. */
  lemma WalkOneMore(v: Vol, a: seq<seq<byte>>, t: seq<byte>)
    requires Wf(v)
    ensures var half := Walk(v, 1, a, None);
            Walk(v, 1, a + [t], None) ==
            if half.rc != 1 then half
            else if !IsDir(v, EndOf(half)) then Looked(-1, half.id)
            else match Search(v.objs[EndOf(half)].entries, t, 0)
                 case None => Looked(0, half.id)
                 case Some(id) => Looked(1, Some(id))
  {
    WalkInSteps(v, 1, a, [t], None);
  }

  /** In a directory of the tree the first entry of a name is found. */
  lemma SearchFindsFirst(v: Vol, n: nat, d: nat, e: nat, name: seq<byte>, i: nat)
    requires Inv(v, n) && Named(v, d, e, i)
    ensures Search(v.objs[d].entries, name, 0) == Some(i) <==>
            name == v.objs[d].entries[e].name && FirstOfName(v, d, e)
  {
    hide Owned, Prefix, EntryCount, Top;
    var entries := v.objs[d].entries;
    SearchFinds(entries, name, 0);
    match Search(entries, name, 0)
    case None =>
    case Some(j) =>
      var k :| 0 <= k < |entries| && entries[k] == Dentry(name, j) && forall l | 0 <= l < k :: entries[l].name != name;
      assert IsEntry(v, d, k) && EntryId(v, d, k) == j;
      assert j == i ==> k == e;
      if name == entries[e].name && FirstOfName(v, d, e) {
        assert k == e;
      }
  }

  /** The walk along `tokens` succeeds and ends at inode `i`. */
  predicate Ends(v: Vol, tokens: seq<seq<byte>>, i: nat)
    requires Wf(v)
  {
    Walk(v, 1, tokens, None).rc == 1 && EndOf(Walk(v, 1, tokens, None)) == i
  }

  /** An inode has one entry at most, and the root has none. */
  lemma OneEntry(v: Vol, n: nat, d: nat, e: nat, i: nat)
    requires InTree(v, n, i) && Named(v, d, e, i)
    ensures i != 1 && EntryOf(v, n, i) == (d, e)
  {
    hide Owned, Prefix, EntryCount, Wf;
  }

  lemma {:induction false} WalkReachesIff(v: Vol, n: nat, i: nat, tokens: seq<seq<byte>>)
    requires InTree(v, n, i)
    ensures Wf(v)
    ensures Ends(v, tokens, i) <==> tokens == PathTo(v, n, i) && Visible(v, n, i)
    decreases |tokens|
  {
    hide Inv, Wf, Top, Search, FirstOfName, IsDir;
    InTreeWf(v, n, i);
    if tokens != [] {
      var k := |tokens| - 1;
      var a, t := tokens[..k], tokens[k];
      assert tokens == a + [t];
      WalkOneMore(v, a, t);
      if Ends(v, tokens, i) {
        var d := EndOf(Walk(v, 1, a, None));
        var e := FoundEntry(v, n, d, t, i);
        WalkReachesIff(v, n, d, a);
      }
      if tokens == PathTo(v, n, i) && Visible(v, n, i) {
        var (d, e) := EntryOf(v, n, i);
        assert a == PathTo(v, n, d) && t == v.objs[d].entries[e].name;
        WalkReachesIff(v, n, d, a);
        SearchFindsFirst(v, n, d, e, t, i);
      }
    }
  }

  lemma FoundEntry(v: Vol, n: nat, d: nat, t: seq<byte>, i: nat) returns (e: nat)
    requires InTree(v, n, i) && Wf(v) && IsDir(v, d) && Search(v.objs[d].entries, t, 0) == Some(i)
    ensures i != 1 && EntryOf(v, n, i) == (d, e) && Named(v, d, e, i)
    ensures InTree(v, n, d) && t == v.objs[d].entries[e].name && FirstOfName(v, d, e)
  {
    var entries := v.objs[d].entries;
    SearchFinds(entries, t, 0);
    e :| 0 <= e < |entries| && entries[e] == Dentry(t, i) && forall l | 0 <= l < e :: entries[l].name != t;
    assert Named(v, d, e, i);
    OneEntry(v, n, d, e, i);
  }

  lemma InTreeWf(v: Vol, n: nat, i: nat)
    requires InTree(v, n, i)
    ensures Wf(v)
  {
  }

  /**
   * `fs_lookup` of a path hands out inode `i` exactly if the names between its slashes are those on
   * the way from the root to `i`, and no earlier entry of the same name hides one of them.
   */
  lemma LookupIff(v: Vol, n: nat, path: seq<byte>, i: nat)
    requires InTree(v, n, i) && i != 1
    ensures Wf(v)
    ensures Lookup(v, path) == Looked(1, Some(i)) <==>
              path != [] && path[0] == SLASH && Tokens(path) == PathTo(v, n, i) && Visible(v, n, i)
  {
    WalkReachesIff(v, n, i, Tokens(path));
    hide Inv, Wf, Search, IsDir, Top;
    WalkId(v, 1, Tokens(path), None);
  }

  /** No walk ends outside the tree. */
  lemma {:induction false} WalkStaysInTree(v: Vol, n: nat, tokens: seq<seq<byte>>, i: nat)
    requires Inv(v, n) && Wf(v) && Ends(v, tokens, i)
    ensures InTree(v, n, i)
    decreases |tokens|
  {
    hide Wf, Search, IsDir, Owned, Tree;
    if tokens != [] {
      var k := |tokens| - 1;
      assert tokens == tokens[..k] + [tokens[k]];
      WalkOneMore(v, tokens[..k], tokens[k]);
      var d := EndOf(Walk(v, 1, tokens[..k], None));
      WalkStaysInTree(v, n, tokens[..k], d);
      var e := EntryFound(v, n, d, tokens[k], i);
    }
  }

  lemma EntryFound(v: Vol, n: nat, d: nat, t: seq<byte>, i: nat) returns (e: nat)
    requires Inv(v, n) && Wf(v) && IsDir(v, d) && Search(v.objs[d].entries, t, 0) == Some(i)
    ensures Named(v, d, e, i) && d < i && 1 <= i < Top(v)
  {
    var entries := v.objs[d].entries;
    SearchFinds(entries, t, 0);
    e :| 0 <= e < |entries| && entries[e] == Dentry(t, i);
    assert IsEntry(v, d, e);
  }

  /** A path leads to no inode outside the tree. */
  lemma LookupStaysInTree(v: Vol, n: nat, path: seq<byte>, i: nat)
    requires Inv(v, n)
    ensures Wf(v) && (Lookup(v, path) == Looked(1, Some(i)) ==> InTree(v, n, i))
  {
    if Lookup(v, path) == Looked(1, Some(i)) {
      WalkStaysInTree(v, n, Tokens(path), i);
    }
  }

  lemma {:induction false} WalkId(v: Vol, dir: nat, tokens: seq<seq<byte>>, last: Option<nat>)
    requires Wf(v)
    ensures Walk(v, dir, tokens, last).rc == 1 ==>
              Walk(v, dir, tokens, last).id == last || Walk(v, dir, tokens, last).id.Some?
    decreases |tokens|
  {
    if tokens != [] && IsDir(v, dir) && Search(v.objs[dir].entries, tokens[0], 0).Some? {
      var id := Search(v.objs[dir].entries, tokens[0], 0).value;
      WalkId(v, id, tokens[1..], Some(id));
    }
  }

  // ----- equal names -----

  /** No directory holds two entries of one name. */
  ghost predicate NamesDiffer(v: Vol) {
    forall d: nat, e: nat, f: nat | IsEntry(v, d, e) && IsEntry(v, d, f) &&
      v.objs[d].entries[e].name == v.objs[d].entries[f].name ::
      e == f
  }

  lemma {:induction false} AllVisible(v: Vol, n: nat, i: nat)
    requires InTree(v, n, i) && NamesDiffer(v)
    ensures Visible(v, n, i)
    decreases i
  {
    hide Inv, Top;
    if i != 1 {
      var (d, e) := EntryOf(v, n, i);
      forall k | 0 <= k < e ensures v.objs[d].entries[k].name != v.objs[d].entries[e].name {
        assert IsEntry(v, d, k) && IsEntry(v, d, e);
      }
      AllVisible(v, n, d);
    }
  }

  /** Then every inode whose names a path can spell is found under its path, and under no other list of names. */
  lemma EveryPathLeadsThere(v: Vol, n: nat, i: nat)
    requires InTree(v, n, i) && i != 1 && NamesDiffer(v)
    requires forall t | t in PathTo(v, n, i) :: Component(t)
    ensures Wf(v) && Lookup(v, Join(PathTo(v, n, i))) == Looked(1, Some(i))
    ensures forall path | Lookup(v, path) == Looked(1, Some(i)) :: Tokens(path) == PathTo(v, n, i)
  {
    hide Inv, Top, NamesDiffer, Lookup;
    AllVisible(v, n, i);
    TokensOfJoinIff(PathTo(v, n, i));
    PathNotEmpty(v, n, i);
    JoinStartsWithSlash(PathTo(v, n, i));
    LookupIff(v, n, Join(PathTo(v, n, i)), i);
    forall path | Lookup(v, path) == Looked(1, Some(i)) ensures Tokens(path) == PathTo(v, n, i) {
      LookupIff(v, n, path, i);
    }
  }

  lemma PathNotEmpty(v: Vol, n: nat, i: nat)
    requires InTree(v, n, i) && i != 1
    ensures PathTo(v, n, i) != []
  {
    var (d, e) := EntryOf(v, n, i);
  }

  /** A call that adds an entry keeps names different exactly if no entry has the name it stores. */
  lemma MakeKeepsNamesIff(v: Vol, n: nat, dir: nat, key: seq<byte>, name: seq<byte>, itype: nat)
    requires Inv(v, n) && CString(name) && itype in {FS_DIR, FS_FILE} && NamesDiffer(v)
    requires Make(v, n, dir, key, name, itype).rc == 0
    ensures IsDir(v, dir)
    ensures NamesDiffer(Make(v, n, dir, key, name, itype).vol) <==> Search(v.objs[dir].entries, name, 0) == None
  {
    hide Make, Entered, Inv, NamesDiffer;
    MadeIs(v, n, dir, key, name, itype);
    EnteredKeepsNamesIff(v, Make(v, n, dir, key, name, itype).vol, n, dir, name, itype);
  }

  lemma EnteredKeepsNamesIff(v: Vol, w: Vol, n: nat, dir: nat, name: seq<byte>, itype: nat)
    requires Inv(v, n) && Entered(v, w, n, dir, name, itype) && NamesDiffer(v)
    ensures IsDir(v, dir)
    ensures NamesDiffer(w) <==> Search(v.objs[dir].entries, name, 0) == None
  {
    hide Owned, Tree, Extended, SetBit;
    var entries, last := v.objs[dir].entries, |v.objs[dir].entries|;
    SearchFinds(entries, name, 0);
    assert v.objs[Top(v)] == Free;
    assert IsEntry(w, dir, last) && w.objs[dir].entries[last].name == name;
    if k: nat :| k < last && entries[k].name == name {
      assert IsEntry(w, dir, k) && w.objs[dir].entries[k].name == name;
    } else {
      forall d: nat, e: nat, f: nat
        | IsEntry(w, d, e) && IsEntry(w, d, f) && w.objs[d].entries[e].name == w.objs[d].entries[f].name
        ensures e == f
      {
        assert IsEntry(v, d, e) || (d == dir && e == last);
        assert IsEntry(v, d, f) || (d == dir && f == last);
      }
    }
  }

  /** `fs_mkdir` stores the name it looked for, so names stay different. */
  lemma MkdirKeepsNames(v: Vol, n: nat, dir: nat, newdir: seq<byte>)
    requires Inv(v, n) && CString(newdir) && NamesDiffer(v)
    ensures NamesDiffer(Mkdir(v, n, dir, newdir).vol)
  {
    MadeIs(v, n, dir, newdir, newdir, FS_DIR);
    if Mkdir(v, n, dir, newdir).rc == 0 {
      hide Inv, NamesDiffer, Entered, GrowDir, AddEntry;
      MakeKeepsNamesIff(v, n, dir, newdir, newdir, FS_DIR);
    }
  }

  /** Exactly when the calls that add an entry succeed. */
  lemma MakeSucceedsIff(v: Vol, n: nat, dir: nat, key: seq<byte>, name: seq<byte>, itype: nat)
    requires Inv(v, n) && CString(name) && itype in {FS_DIR, FS_FILE}
    ensures Make(v, n, dir, key, name, itype).rc == 0 <==>
              && 0 < |key| < FS_MAX_FNAME_SZ && IsDir(v, dir) && Search(v.objs[dir].entries, key, 0) == None
              && Top(v) < ITAB_SIZE
              && (v.itab[dir].size % BLOCK_SIZE == 0 ==> FirstFree(v.bmap, 0, n).Some?)
  {
    if IsDir(v, dir) {
      DirectoryHasRoom(v, n, dir);
    }
    hide Owned, Tree, EntryCount;
  }

  lemma EntryAtEnd(v: Vol, n: nat, dir: nat, key: seq<byte>, name: seq<byte>, itype: nat)
    requires Inv(v, n) && CString(name) && itype in {FS_DIR, FS_FILE}
    requires Make(v, n, dir, key, name, itype).rc == 0
    ensures var w := Make(v, n, dir, key, name, itype).vol;
            && Inv(w, n) && IsDir(v, dir) && IsDir(w, dir) && dir < |v.objs| == |w.objs| && |v.ibmap| == BLOCK_SIZE
            && w.objs[dir].entries == v.objs[dir].entries + [Dentry(name, Top(v))]
  {
    hide Make, Entered;
    MakeKeepsInv(v, n, dir, key, name, itype);
    MadeIs(v, n, dir, key, name, itype);
    EnteredAtEnd(v, Make(v, n, dir, key, name, itype).vol, n, dir, name, itype);
  }

  lemma EnteredAtEnd(v: Vol, w: Vol, n: nat, dir: nat, name: seq<byte>, itype: nat)
    requires Inv(v, n) && Inv(w, n) && Entered(v, w, n, dir, name, itype)
    ensures IsDir(v, dir) && IsDir(w, dir) && dir < |v.objs| == |w.objs| && |v.ibmap| == BLOCK_SIZE
    ensures w.objs[dir].entries == v.objs[dir].entries + [Dentry(name, Top(v))]
  {
    hide Owned, Tree, Extended, SetBit, EntryCount;
    SetBitSets(v.ibmap, Top(v));
  }

  lemma {:induction false} SearchAppended(entries: seq<Dentry>, last: Dentry, name: seq<byte>, e: nat)
    requires e <= |entries|
    ensures Search(entries + [last], name, e) ==
            if Search(entries, name, e).Some? then Search(entries, name, e)
            else if last.name == name then Some(last.id) else None
    decreases |entries| - e
  {
    if e < |entries| {
      SearchAppended(entries, last, name, e + 1);
    }
  }

  /**
   * `fs_create` does not: it looks for the name as given and stores it without its first character.
   * A second call with the same name goes through, and leaves two entries of one name, as long as
   * there is an inode and, where the last block is full, a block.
   */
  lemma CreateTwice(v: Vol, n: nat, dir: nat, file: seq<byte>)
    requires Inv(v, n) && CString(file) && Create(v, n, dir, file).rc == 0
    ensures var w := Create(v, n, dir, file).vol;
            && Inv(w, n) && IsDir(w, dir)
            && (Create(w, n, dir, file).rc == 0 <==>
                  Top(w) < ITAB_SIZE && (w.itab[dir].size % BLOCK_SIZE == 0 ==> FirstFree(w.bmap, 0, n).Some?))
            && (Create(w, n, dir, file).rc == 0 ==> !NamesDiffer(Create(w, n, dir, file).vol))
  {
    hide Make, Inv, NamesDiffer, FirstFree, Top;
    MakeSucceedsIff(v, n, dir, file, if file == [] then [] else file[1..], FS_FILE);
    EntryAtEnd(v, n, dir, file, file[1..], FS_FILE);
    var w := Create(v, n, dir, file).vol;
    SearchAppended(v.objs[dir].entries, Dentry(file[1..], Top(v)), file, 0);
    MakeSucceedsIff(w, n, dir, file, file[1..], FS_FILE);
    if Create(w, n, dir, file).rc == 0 {
      EntryAtEnd(w, n, dir, file, file[1..], FS_FILE);
      SameName(Create(w, n, dir, file).vol, dir, |v.objs[dir].entries|, |v.objs[dir].entries| + 1);
    }
  }

  lemma SameName(v: Vol, d: nat, e: nat, f: nat)
    requires IsEntry(v, d, e) && IsEntry(v, d, f) && e != f && v.objs[d].entries[e].name == v.objs[d].entries[f].name
    ensures !NamesDiffer(v)
  {
  }

  /** So on a new volume two calls are enough for two files of one name. */
  lemma TwoFilesOneName(n: nat)
    requires 11 <= n <= 8 * BLOCK_SIZE
    ensures Inv(Formatted(), n)
    ensures var file: seq<byte> := [0x61, 0x62];
            var w := Create(Formatted(), n, 1, file);
            w.rc == 0 && Inv(w.vol, n) && Create(w.vol, n, 1, file).rc == 0 &&
            !NamesDiffer(Create(w.vol, n, 1, file).vol)
  {
    hide Make, Inv, NamesDiffer, Wf, Search, IsSet;
    var file: seq<byte> := [0x61, 0x62];
    FormattedKeepsInv(n);
    NewVolume(n);
    MakeSucceedsIff(Formatted(), n, 1, file, file[1..], FS_FILE);
    CreateTwice(Formatted(), n, 1, file);
    FirstFile(n, file);
  }

  lemma NewVolume(n: nat)
    requires 11 <= n <= 8 * BLOCK_SIZE
    ensures |Formatted().ibmap| == BLOCK_SIZE && Top(Formatted()) == 2 && IsDir(Formatted(), 1)
    ensures Formatted().objs[1] == Dir([]) && Formatted().itab[1].size == 0 && FirstFree(Formatted().bmap, 0, n).Some?
    ensures forall name: seq<byte> :: Search([], name, 0) == None
  {
    SetFirstSets(Zeros(BLOCK_SIZE), 10);
    SetFirstSets(Zeros(BLOCK_SIZE), 2);
    NoBitOfZeros(BLOCK_SIZE, 10);
    NoBitOfZeros(BLOCK_SIZE, 2);
    hide SetFirst, IsSet;
  }

  lemma FirstFile(n: nat, file: seq<byte>)
    requires 11 <= n <= 8 * BLOCK_SIZE && CString(file) && Inv(Formatted(), n)
    requires Create(Formatted(), n, 1, file).rc == 0
    ensures var w := Create(Formatted(), n, 1, file).vol;
            Inv(w, n) && Top(w) == 3 && w.itab[1].size == DENTRY_SIZE
  {
    hide Make, Inv, Wf, IsSet, FirstFree;
    NewVolume(n);
    var v, w := Formatted(), Create(Formatted(), n, 1, file).vol;
    MadeIs(v, n, 1, file, if file == [] then [] else file[1..], FS_FILE);
    MakeKeepsInv(v, n, 1, file, if file == [] then [] else file[1..], FS_FILE);
    FirstInodes(v, n);
    TopAfterSet(v, w);
  }

  lemma FirstInodes(v: Vol, n: nat)
    requires Inv(v, n)
    ensures |v.ibmap| == BLOCK_SIZE && forall i | 0 <= i < ITAB_SIZE :: IsSet(v.ibmap, i) <==> i < Top(v)
  {
  }

  /** A second `fs_mkdir` with the same name fails and hands out the directory made the first time. */
  lemma MkdirTwice(v: Vol, n: nat, dir: nat, newdir: seq<byte>)
    requires Inv(v, n) && CString(newdir) && Mkdir(v, n, dir, newdir).rc == 0
    ensures var made := Mkdir(v, n, dir, newdir);
            Inv(made.vol, n) && Mkdir(made.vol, n, dir, newdir) == Made(made.vol, -1, made.id)
  {
    hide Inv, FirstFree, Top, GrowDir, AddEntry;
    MakeSucceedsIff(v, n, dir, newdir, newdir, FS_DIR);
    EntryAtEnd(v, n, dir, newdir, newdir, FS_DIR);
    MadeIs(v, n, dir, newdir, newdir, FS_DIR);
    SearchAppended(v.objs[dir].entries, Dentry(newdir, Top(v)), newdir, 0);
  }
}
