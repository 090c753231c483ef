/** The file system of sofs/fs.c shows the same over plain blocks and over the log. */
module Simulation {
  import opened Base
  import opened Codec
  import opened FileSystem
  import opened Format
  import opened Runs
  import Paths
  import Volume

  /** What a file system shows, and would show after a reload. */
  ghost function Shown(fs: Fs): World
    reads fs
  {
    World(fs.Cur(), fs.saved)
  }

  lemma ShownIsGood(fs: Fs)
    requires fs.Valid()
    ensures Good(Shown(fs), fs.N())
  {
  }

  /** One call on the disk does what the call does on the volume. */
  method Call(fs: Fs, op: Op) returns (out: Out)
    requires fs.Valid() && Proper(op)
    modifies fs
    ensures fs.Valid() && fs.N() == old(fs.N())
    ensures Good(old(Shown(fs)), fs.N())
    ensures (Shown(fs), out) == Step(old(Shown(fs)), fs.N(), op)
  {
    hide Fs.Valid, Fs.Cur, Fs.N, Volume.Inv, Volume.Write, Volume.Make, Volume.Truncate, Volume.Readdir, Volume.Read,
      Paths.Lookup, CString;
    ShownIsGood(fs);
    match op
    case OpRead(file, offset, count) =>
      var rc, bytes := fs.Read(file, offset, count);
      out := Data(if rc == 0 then Some(bytes) else None);
    case OpWrite(file, offset, data) =>
      var rc := fs.Write(file, offset, data);
      out := Rc(rc);
    case OpCreate(dir, name) =>
      var rc, id := fs.Create(dir, name);
      out := Id(rc, id);
    case OpMkdir(dir, name) =>
      var rc, id := fs.Mkdir(dir, name);
      out := Id(rc, id);
    case OpTruncate(file) =>
      var rc := fs.Truncate(file);
      out := Rc(rc);
    case OpReaddir(dir, max) =>
      var rc, entries := fs.Readdir(dir, max);
      out := List(if rc == 0 then Some(entries) else None);
    case OpLookup(path) =>
      var rc, id := fs.Lookup(path);
      out := Found(Paths.Looked(rc, id));
    case OpReload =>
      fs.Reload();
      out := Done;
    case OpFormat =>
      fs.Format();
      out := Rc(0);
  }

  /** The calls `ops` lead from `w` to `w'` and return `outs`. */
  ghost predicate Ran(w: World, n: nat, ops: seq<Op>, w': World, outs: seq<Out>) {
    Good(w, n) && AllProper(ops) && w' == After(w, n, ops) && outs == Outs(w, n, ops)
  }

  lemma RanNone(w: World, n: nat)
    requires Good(w, n)
    ensures Ran(w, n, [], w, [])
  {
  }

  lemma RanNext(w: World, n: nat, ops: seq<Op>, w': World, outs: seq<Out>, op: Op, w'': World, out: Out)
    requires Ran(w, n, ops, w', outs) && Good(w', n) && Proper(op) && (w'', out) == Step(w', n, op)
    ensures Ran(w, n, ops + [op], w'', outs + [out])
  {
    hide Good, Step, Proper;
    assert (ops + [op])[..|ops|] == ops;
    LastStep(w, n, ops + [op]);
  }

  lemma EachProper(ops: seq<Op>)
    requires AllProper(ops)
    ensures forall i | 0 <= i < |ops| :: Proper(ops[i])
  {
  }

  method CallAll(fs: Fs, ops: seq<Op>) returns (outs: seq<Out>)
    requires fs.Valid() && AllProper(ops)
    modifies fs
    ensures fs.Valid() && fs.N() == old(fs.N())
    ensures Ran(old(Shown(fs)), fs.N(), ops, Shown(fs), outs)
  {
    hide *;
    EachProper(ops);
    ShownIsGood(fs);
    ghost var start, n := Shown(fs), fs.N();
    RanNone(start, n);
    outs := [];
    for i := 0 to |ops|
      invariant fs.Valid() && fs.N() == n
      invariant Ran(start, n, ops[..i], Shown(fs), outs)
    {
      ghost var w := Shown(fs);
      var out := Call(fs, ops[i]);
      RanNext(start, n, ops[..i], w, outs, ops[i], Shown(fs), out);
      assert ops[..i + 1] == ops[..i] + [ops[i]];
      outs := outs + [out];
    }
    assert ops[..|ops|] == ops;
  }

  /**
   * Observable simulation: whatever the calls, a file system over the log returns what one over
   * plain blocks returns, and both return what the volume promises.
   */
  method BothDisks(n: nat, ops: seq<Op>) returns (plain: seq<Out>, logged: seq<Out>)
    requires 10 <= n <= 8 * BLOCK_SIZE && AllProper(ops)
    ensures Good(NewWorld(), n)
    ensures plain == logged == Outs(NewWorld(), n, ops)
  {
    NewWorldIsGood(n);
    var onBlocks := new Fs(false, n);
    onBlocks.Format();
    plain := CallAll(onBlocks, ops);
    var onLog := new Fs(true, n);
    onLog.Format();
    logged := CallAll(onLog, ops);
  }
}
