/**
 * The write-back cache of sofs/cache.c as its header promises it: frames with copies of blocks, a
 * FIFO of clean and one of dirty frames, and a hash from block numbers to frames. A clean frame is
 * unhashed before it is used again.
 */
module Cache {
  import opened Base
  import opened HashTable

  datatype Frame = Frame(blockNo: nat, block: Block)

  datatype State = State(disk: seq<Block>, frames: seq<Frame>, clean: seq<nat>, dirty: seq<nat>, hash: map<nat, nat>)

  /** What a reader sees of block `no`. */
  function Shows(c: State, no: nat): Block
    requires no < |c.disk|
  {
    if no in c.hash && c.hash[no] < |c.frames| then c.frames[c.hash[no]].block else c.disk[no]
  }

  function View(c: State): (v: seq<Block>)
    ensures |v| == |c.disk|
  {
    seq(|c.disk|, no requires 0 <= no < |c.disk| => Shows(c, no))
  }

  /** Frame `f` is listed once, unless it is the one in `free`, which is not listed. */
  ghost predicate Listed(c: State, f: nat, free: set<nat>) {
    && (f in c.clean <==> f < |c.frames| && f !in c.dirty && f !in free)
    && (f in c.dirty ==> f < |c.frames| && f !in free)
  }

  /** The hash leads to listed frames that hold the block they should; a clean one holds what is on the disk. */
  ghost predicate Leads(c: State, no: nat, free: set<nat>) {
    no in c.hash ==>
      && c.hash[no] < |c.frames| && no < |c.disk| && c.frames[c.hash[no]].blockNo == no && c.hash[no] !in free
      && (c.hash[no] in c.clean ==> c.frames[c.hash[no]].block == c.disk[no])
  }

  /** The hash leads to a dirty frame. */
  ghost predicate DirtyHashed(c: State, f: nat) {
    f in c.dirty ==> f < |c.frames| && c.frames[f].blockNo in c.hash && c.hash[c.frames[f].blockNo] == f
  }

  /** The invariant; between two operations no frame is free. */
  ghost predicate Coherent(c: State, free: set<nat>) {
    && NoRepeats(c.clean) && NoRepeats(c.dirty) && |c.clean| + |c.dirty| + |free| == |c.frames|
    && (forall f: nat :: Listed(c, f, free))
    && (forall no: nat :: Leads(c, no, free))
    && (forall f: nat :: DirtyHashed(c, f))
  }

  function Init(disk: seq<Block>, size: nat): State {
    State(disk, seq(size, _ => Frame(0, [])), seq(size, i => i), [], map[])
  }

  lemma InitKeeps(disk: seq<Block>, size: nat)
    ensures Coherent(Init(disk, size), {}) && View(Init(disk, size)) == disk
  {
    var c := Init(disk, size);
    forall f: nat ensures Listed(c, f, {}) {
      if f < size {
        assert c.clean[f] == f;
      }
    }
  }

  function Unhash(hash: map<nat, nat>, no: nat): map<nat, nat> {
    map n | n in hash && n != no :: hash[n]
  }

  /** The first dirty frame is written back. */
  function WriteBack(c: State): State
    requires c.dirty != [] && c.dirty[0] < |c.frames| && c.frames[c.dirty[0]].blockNo < |c.disk|
  {
    var x := c.frames[c.dirty[0]];
    c.(dirty := c.dirty[1..], hash := Unhash(c.hash, x.blockNo), disk := c.disk[x.blockNo := x.block])
  }

  /** The first clean frame is taken, and unhashed if the hash leads to it. */
  function TakeClean(c: State): State
    requires c.clean != [] && c.clean[0] < |c.frames|
  {
    var no := c.frames[c.clean[0]].blockNo;
    c.(clean := c.clean[1..], hash := if no in c.hash && c.hash[no] == c.clean[0] then Unhash(c.hash, no) else c.hash)
  }

  lemma InTail(s: seq<nat>, f: nat)
    requires s != [] && NoRepeats(s)
    ensures NoRepeats(s[1..]) && (f in s[1..] <==> f in s && f != s[0])
  {
    assert s == [s[0]] + s[1..];
    InFront(s[0], s[1..]);
  }

  lemma WriteBackKeeps(c: State)
    requires Coherent(c, {}) && c.dirty != []
    ensures c.dirty[0] < |c.frames| && c.frames[c.dirty[0]].blockNo < |c.disk|
    ensures Coherent(WriteBack(c), {c.dirty[0]}) && View(WriteBack(c)) == View(c)
  {
    var f := c.dirty[0];
    assert Listed(c, f, {}) && DirtyHashed(c, f) && Leads(c, c.frames[f].blockNo, {});
    var c', free := WriteBack(c), {f};
    hide NoRepeats;
    forall g: nat ensures Listed(c', g, free) {
      assert Listed(c, g, {});
      InTail(c.dirty, g);
    }
    forall no: nat ensures Leads(c', no, free) {
      assert Leads(c, no, {});
    }
    forall g: nat ensures DirtyHashed(c', g) {
      assert DirtyHashed(c, g);
      InTail(c.dirty, g);
    }
    forall no | 0 <= no < |c.disk| ensures View(c')[no] == View(c)[no] {
      assert Leads(c, no, {});
    }
  }

  lemma TakeCleanKeeps(c: State)
    requires Coherent(c, {}) && c.clean != []
    ensures c.clean[0] < |c.frames|
    ensures Coherent(TakeClean(c), {c.clean[0]}) && View(TakeClean(c)) == View(c)
  {
    var f := c.clean[0];
    assert Listed(c, f, {});
    var c', free := TakeClean(c), {f};
    hide NoRepeats;
    InTail(c.clean, f);
    forall g: nat ensures Listed(c', g, free) {
      assert Listed(c, g, {});
      InTail(c.clean, g);
    }
    forall no: nat ensures Leads(c', no, free) {
      assert Leads(c, no, {});
      if no in c.hash {
        InTail(c.clean, c.hash[no]);
      }
    }
    forall g: nat ensures DirtyHashed(c', g) {
      assert DirtyHashed(c, g);
      assert Listed(c, g, {});
    }
    forall no | 0 <= no < |c.disk| ensures View(c')[no] == View(c)[no] {
      assert Leads(c, no, {});
    }
  }

  /** A free frame for a block that has none. */
  function Take(c: State): (State, nat)
    requires Coherent(c, {}) && |c.frames| > 0
  {
    if c.clean == [] then
      WriteBackKeeps(c);
      (WriteBack(c), c.dirty[0])
    else
      TakeCleanKeeps(c);
      (TakeClean(c), c.clean[0])
  }

  /** The free frame `f` gets a copy of `block` and goes to the end of a FIFO. */
  function Fill(c: State, f: nat, no: nat, block: Block, asDirty: bool): State
    requires f < |c.frames|
  {
    c.(frames := c.frames[f := Frame(no, block)], hash := c.hash[no := f],
       clean := if asDirty then c.clean else c.clean + [f],
       dirty := if asDirty then c.dirty + [f] else c.dirty)
  }

  lemma AtEnd(s: seq<nat>, f: nat)
    requires NoRepeats(s) && f !in s
    ensures NoRepeats(s + [f])
  {
  }

  lemma FillKeeps(c: State, f: nat, no: nat, block: Block, asDirty: bool)
    requires Coherent(c, {f}) && f < |c.frames| && no < |c.disk|
    requires no !in c.hash && (!asDirty ==> block == c.disk[no])
    ensures Coherent(Fill(c, f, no, block, asDirty), {}) && View(Fill(c, f, no, block, asDirty)) == View(c)[no := block]
  {
    var c' := Fill(c, f, no, block, asDirty);
    assert Listed(c, f, {f});
    AtEnd(if asDirty then c.dirty else c.clean, f);
    hide NoRepeats;
    forall g: nat ensures Listed(c', g, {}) {
      assert Listed(c, g, {f});
    }
    forall m: nat ensures Leads(c', m, {}) {
      assert Leads(c, m, {f});
    }
    forall g: nat ensures DirtyHashed(c', g) {
      assert DirtyHashed(c, g);
      assert Listed(c, g, {f});
    }
    forall m | 0 <= m < |c.disk| ensures View(c')[m] == View(c)[no := block][m] {
      assert Leads(c, m, {f});
    }
  }

  /** `blocks_remove`: the frame leaves the FIFO it is in, and the hash for a moment. */
  function Release(c: State, no: nat): State
    requires no in c.hash
  {
    c.(clean := Without(c.clean, c.hash[no]), dirty := Without(c.dirty, c.hash[no]), hash := Unhash(c.hash, no))
  }

  lemma ReleaseKeeps(c: State, no: nat)
    requires Coherent(c, {}) && no in c.hash
    ensures Coherent(Release(c, no), {c.hash[no]}) && c.hash[no] < |c.frames| && no < |c.disk|
    ensures View(Release(c, no)) == View(c)[no := c.disk[no]]
  {
    var f, c' := c.hash[no], Release(c, no);
    assert Leads(c, no, {}) && Listed(c, f, {});
    WithoutIs(c.clean, f);
    WithoutIs(c.dirty, f);
    hide NoRepeats, Without;
    forall g: nat ensures Listed(c', g, {f}) {
      assert Listed(c, g, {});
      InWithout(c.clean, f, g);
      InWithout(c.dirty, f, g);
    }
    forall m: nat ensures Leads(c', m, {f}) {
      assert Leads(c, m, {});
      if m in c.hash {
        InWithout(c.clean, f, c.hash[m]);
      }
    }
    forall g: nat ensures DirtyHashed(c', g) {
      assert DirtyHashed(c, g);
      InWithout(c.dirty, f, g);
    }
    forall m | 0 <= m < |c.disk| ensures View(c')[m] == View(c)[no := c.disk[no]][m] {
      assert Leads(c, m, {});
    }
  }

  /** `cache_read`. */
  function Read(c: State, no: nat): (State, Block)
    requires Coherent(c, {}) && |c.frames| > 0 && no < |c.disk|
  {
    if no in c.hash then
      ReleaseKeeps(c, no);
      var f := c.hash[no];
      (Fill(Release(c, no), f, no, c.frames[f].block, f in c.dirty), c.frames[f].block)
    else
      TakeKeeps(c);
      var (c1, f) := Take(c);
      (Fill(c1, f, no, c1.disk[no], false), c1.disk[no])
  }

  /** `cache_write`. */
  function Write(c: State, no: nat, block: Block): State
    requires Coherent(c, {}) && |c.frames| > 0 && no < |c.disk|
  {
    if no in c.hash then
      ReleaseKeeps(c, no);
      Fill(Release(c, no), c.hash[no], no, block, true)
    else
      TakeKeeps(c);
      var (c1, f) := Take(c);
      Fill(c1, f, no, block, true)
  }

  lemma TakeKeeps(c: State)
    requires Coherent(c, {}) && |c.frames| > 0
    ensures var (c1, f) := Take(c);
            && Coherent(c1, {f}) && f < |c1.frames| == |c.frames| && |c1.disk| == |c.disk| && View(c1) == View(c)
            && forall no | no in c1.hash :: no in c.hash
  {
    if c.clean == [] {
      WriteBackKeeps(c);
    } else {
      TakeCleanKeeps(c);
    }
  }

  /** `cache_flush` of the first dirty frame: it is clean then, and unhashed. */
  function FlushOne(c: State): State
    requires Coherent(c, {}) && c.dirty != []
  {
    WriteBackKeeps(c);
    WriteBack(c).(clean := c.clean + [c.dirty[0]])
  }

  lemma FlushOneKeeps(c: State)
    requires Coherent(c, {}) && c.dirty != []
    ensures Coherent(FlushOne(c), {}) && View(FlushOne(c)) == View(c) && FlushOne(c).dirty == c.dirty[1..]
    ensures |FlushOne(c).frames| == |c.frames|
  {
    WriteBackKeeps(c);
    var c1, f, c' := WriteBack(c), c.dirty[0], FlushOne(c);
    assert Listed(c1, f, {f});
    AtEnd(c1.clean, f);
    hide NoRepeats, WriteBack;
    forall g: nat ensures Listed(c', g, {}) {
      assert Listed(c1, g, {f});
    }
    forall no: nat ensures Leads(c', no, {}) {
      assert Leads(c1, no, {f});
    }
    forall g: nat ensures DirtyHashed(c', g) {
      assert DirtyHashed(c1, g);
    }
    forall no | 0 <= no < |c1.disk| ensures View(c')[no] == View(c1)[no] {
    }
  }

  function Flush(c: State): State
    requires Coherent(c, {})
    decreases |c.dirty|
  {
    if c.dirty == [] then c
    else
      FlushOneKeeps(c);
      Flush(FlushOne(c))
  }

  // ----- transparency -----

  /** A read returns what the cache shows and changes nothing that it shows. */
  lemma ReadIsTransparent(c: State, no: nat)
    requires Coherent(c, {}) && |c.frames| > 0 && no < |c.disk|
    ensures var (c', block) := Read(c, no);
            Coherent(c', {}) && View(c') == View(c) && block == View(c)[no] && |c'.frames| == |c.frames|
  {
    hide Coherent, NoRepeats, Take, Release;
    if no in c.hash {
      ReleaseKeeps(c, no);
      HitLeads(c, no);
      Released(c, no);
      FillKeeps(Release(c, no), c.hash[no], no, c.frames[c.hash[no]].block, c.hash[no] in c.dirty);
      assert View(c)[no := c.disk[no]][no := View(c)[no]] == View(c);
    } else {
      TakeKeeps(c);
      var (c1, f) := Take(c);
      assert View(c1)[no] == c1.disk[no];
      FillKeeps(c1, f, no, c1.disk[no], false);
      assert View(c1)[no := View(c1)[no]] == View(c1);
    }
  }

  lemma HitLeads(c: State, no: nat)
    requires Coherent(c, {}) && no in c.hash
    ensures c.hash[no] < |c.frames| && no < |c.disk|
    ensures c.hash[no] !in c.dirty ==> c.frames[c.hash[no]].block == c.disk[no]
  {
    assert Leads(c, no, {}) && Listed(c, c.hash[no], {});
  }

  lemma Released(c: State, no: nat)
    requires no in c.hash
    ensures var r := Release(c, no);
            r.disk == c.disk && r.frames == c.frames && no !in r.hash
  {
  }

  /** A write changes what the cache shows of that block, and nothing else. */
  lemma WriteIsTransparent(c: State, no: nat, block: Block)
    requires Coherent(c, {}) && |c.frames| > 0 && no < |c.disk|
    ensures var c' := Write(c, no, block);
            Coherent(c', {}) && View(c') == View(c)[no := block] && |c'.frames| == |c.frames|
  {
    hide Coherent, NoRepeats, Take, Release;
    if no in c.hash {
      ReleaseKeeps(c, no);
      HitLeads(c, no);
      Released(c, no);
      FillKeeps(Release(c, no), c.hash[no], no, block, true);
      assert View(c)[no := c.disk[no]][no := block] == View(c)[no := block];
    } else {
      TakeKeeps(c);
      var (c1, f) := Take(c);
      FillKeeps(c1, f, no, block, true);
    }
  }

  /** After a flush no frame is dirty and the disk itself holds what the cache shows. */
  lemma {:induction false} FlushIsTransparent(c: State)
    requires Coherent(c, {})
    ensures var c' := Flush(c);
            Coherent(c', {}) && c'.dirty == [] && View(c') == c'.disk == View(c) && |c'.frames| == |c.frames|
    decreases |c.dirty|
  {
    if c.dirty == [] {
      forall no | 0 <= no < |c.disk| ensures View(c)[no] == c.disk[no] {
        assert Leads(c, no, {});
        if no in c.hash {
          assert Listed(c, c.hash[no], {});
        }
      }
    } else {
      FlushOneKeeps(c);
      hide Coherent, NoRepeats, FlushOne;
      FlushIsTransparent(FlushOne(c));
    }
  }

  // ----- runs -----

  datatype Op = OpRead(no: nat) | OpWrite(no: nat, block: Block) | OpFlush

  predicate InRange(op: Op, n: nat) {
    match op
    case OpRead(no) => no < n
    case OpWrite(no, _) => no < n
    case OpFlush => true
  }

  /** The same calls on a disk without a cache. */
  function OnDisk(disk: seq<Block>, ops: seq<Op>): (r: (seq<Block>, seq<Block>))
    requires forall i | 0 <= i < |ops| :: InRange(ops[i], |disk|)
    ensures |r.0| == |disk|
  {
    if ops == [] then (disk, [])
    else
      assert InRange(ops[|ops| - 1], |disk|);
      var (d, outs) := OnDisk(disk, ops[..|ops| - 1]);
      match ops[|ops| - 1]
      case OpRead(no) => (d, outs + [d[no]])
      case OpWrite(no, block) => (d[no := block], outs)
      case OpFlush => (d, outs)
  }

  function Step(c: State, op: Op): (r: (State, seq<Block>))
    requires Coherent(c, {}) && |c.frames| > 0 && InRange(op, |c.disk|)
    ensures Coherent(r.0, {}) && |r.0.frames| == |c.frames| && |r.0.disk| == |c.disk|
  {
    match op
    case OpRead(no) =>
      ReadIsTransparent(c, no);
      assert |View(Read(c, no).0)| == |View(c)|;
      (Read(c, no).0, [Read(c, no).1])
    case OpWrite(no, block) =>
      WriteIsTransparent(c, no, block);
      assert |View(Write(c, no, block))| == |View(c)|;
      (Write(c, no, block), [])
    case OpFlush =>
      FlushIsTransparent(c);
      assert |View(Flush(c))| == |View(c)|;
      (Flush(c), [])
  }

  function Run(c: State, ops: seq<Op>): (r: (State, seq<Block>))
    requires Coherent(c, {}) && |c.frames| > 0 && forall i | 0 <= i < |ops| :: InRange(ops[i], |c.disk|)
    ensures Coherent(r.0, {}) && |r.0.frames| == |c.frames| && |r.0.disk| == |c.disk|
  {
    if ops == [] then (c, [])
    else
      var (d, outs) := Run(c, ops[..|ops| - 1]);
      var (d', out) := Step(d, ops[|ops| - 1]);
      (d', outs + out)
  }

  /** Whatever the calls, the cache returns what the disk alone would, and shows what it would hold. */
  lemma {:induction false} CacheIsTransparent(c: State, ops: seq<Op>)
    requires Coherent(c, {}) && |c.frames| > 0 && forall i | 0 <= i < |ops| :: InRange(ops[i], |c.disk|)
    ensures Run(c, ops).1 == OnDisk(View(c), ops).1
    ensures View(Run(c, ops).0) == OnDisk(View(c), ops).0
  {
    hide Coherent, Read, Write, Flush, View;
    if ops != [] {
      CacheIsTransparent(c, ops[..|ops| - 1]);
      var d := Run(c, ops[..|ops| - 1]).0;
      match ops[|ops| - 1]
      case OpRead(no) => ReadIsTransparent(d, no);
      case OpWrite(no, block) => WriteIsTransparent(d, no, block);
      case OpFlush => FlushIsTransparent(d);
    }
  }

  // ----- the cache itself -----

  class BlockCache {
    var disk: seq<Block>
    var frames: seq<Frame>
    var clean: seq<nat>
    var dirty: seq<nat>
    var hash: map<nat, nat>

    ghost function Now(): State
      reads this
    {
      State(disk, frames, clean, dirty, hash)
    }

    ghost predicate Valid()
      reads this
    {
      Coherent(Now(), {}) && |frames| > 0
    }

    /** `cache_init`. */
    constructor (disk: seq<Block>, size: nat)
      requires size > 0
      ensures Valid() && View(Now()) == disk && |frames| == size
    {
      this.disk := disk;
      frames := seq(size, _ => Frame(0, []));
      clean, dirty, hash := seq(size, i => i), [], map[];
      InitKeeps(disk, size);
    }

    /** The frame that is used next, and what is done with its block. */
    method TakeFrame() returns (f: nat)
      requires Valid()
      modifies this
      ensures (Now(), f) == Take(old(Now()))
    {
      TakeKeeps(Now());
      if clean == [] {
        WriteBackKeeps(Now());
        f := dirty[0];
        dirty := dirty[1..];
        hash := Unhash(hash, frames[f].blockNo);
        disk := disk[frames[f].blockNo := frames[f].block];
      } else {
        TakeCleanKeeps(Now());
        f := clean[0];
        clean := clean[1..];
        if frames[f].blockNo in hash && hash[frames[f].blockNo] == f {
          hash := Unhash(hash, frames[f].blockNo);
        }
      }
    }

    /** `cache_read`. */
    method ReadBlock(no: nat) returns (block: Block)
      requires Valid() && no < |disk|
      modifies this
      ensures (Now(), block) == Read(old(Now()), no)
      ensures Valid() && View(Now()) == old(View(Now())) && block == View(Now())[no]
    {
      ReadIsTransparent(Now(), no);
      var f;
      if no !in hash {
        TakeKeeps(Now());
        f := TakeFrame();
        block := disk[no];
        frames := frames[f := Frame(no, block)];
        hash := hash[no := f];
        clean := clean + [f];
      } else {
        HitLeads(Now(), no);
        f := hash[no];
        block := frames[f].block;
        var wasDirty := f in dirty;
        clean, dirty := Without(clean, f), Without(dirty, f);
        SameEntry(hash, no, f);
        frames := frames[f := Frame(no, block)];
        if wasDirty {
          dirty := dirty + [f];
        } else {
          clean := clean + [f];
        }
      }
    }

    /** `cache_write`. */
    method WriteBlock(no: nat, block: Block)
      requires Valid() && no < |disk|
      modifies this
      ensures Now() == Write(old(Now()), no, block)
      ensures Valid() && View(Now()) == old(View(Now()))[no := block]
    {
      WriteIsTransparent(Now(), no, block);
      var f;
      if no !in hash {
        TakeKeeps(Now());
        f := TakeFrame();
        hash := hash[no := f];
      } else {
        HitLeads(Now(), no);
        f := hash[no];
        clean, dirty := Without(clean, f), Without(dirty, f);
        SameEntry(hash, no, f);
      }
      frames := frames[f := Frame(no, block)];
      dirty := dirty + [f];
    }

    /** `cache_flush`. */
    method FlushAll()
      requires Valid()
      modifies this
      ensures Now() == Flush(old(Now()))
      ensures Valid() && dirty == [] && disk == View(Now()) == old(View(Now()))
    {
      FlushIsTransparent(Now());
      while dirty != []
        invariant Coherent(Now(), {}) && Flush(Now()) == Flush(old(Now()))
        decreases |dirty|
      {
        WriteBackKeeps(Now());
        FlushOneKeeps(Now());
        var f := dirty[0];
        dirty := dirty[1..];
        hash := Unhash(hash, frames[f].blockNo);
        disk := disk[frames[f].blockNo := frames[f].block];
        clean := clean + [f];
      }
    }
  }

  lemma SameEntry(hash: map<nat, nat>, no: nat, f: nat)
    requires no in hash && hash[no] == f
    ensures Unhash(hash, no)[no := f] == hash
  {
  }
}
