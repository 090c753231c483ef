/**
 * The block cache of sofs/cache.c as it is coded, pointers included. `prev` is never set and `next`
 * only by the FIFO of which a frame is the last one; a frame keeps the pointer to the buffer that
 * the caller passed. How the hash serves a call is handed to the call: what the search finds and,
 * on a miss, whether the addition returns. `SoundAnswers` says what it does while it is sound.
 */
module CacheCode {
  import opened Base
  import HashTable

  datatype Ptr = Null | Unset | To(f: nat)

  /** `struct content`; `buffer` is the address of the caller's buffer. */
  datatype Content = Content(blockNo: nat, buffer: nat, isClean: bool, next: Ptr, prev: Ptr)

  /** The globals of the module, the disk and the memory of the callers. */
  datatype State = State(
    disk: seq<Block>,
    memory: map<nat, Block>,
    frames: seq<Content>,
    cleanHead: Ptr,
    cleanTail: Ptr,
    dirtyHead: Ptr,
    dirtyTail: Ptr)

  /**
   * How the hash serves a call: `find_cache_no` misses, and then `add_block` returns or not; or it
   * finds a frame, or never ends.
   */
  datatype Answer = Miss(added: bool) | Hit(f: nat) | Endless

  /** A call goes on, follows a null pointer or one that was never set, or stays in a loop of the hash. */
  datatype Outcome = Goes(c: State) | NullPointer | Astray | Hangs

  function Load(memory: map<nat, Block>, address: nat): Block {
    if address in memory then memory[address] else []
  }

  // ----- the FIFOs -----

  /** Why a pointer leads nowhere. */
  function Nowhere(p: Ptr): Outcome {
    if p == Null then NullPointer else Astray
  }

  predicate Good(c: State, p: Ptr) {
    p.To? && p.f < |c.frames|
  }

  function SetNext(c: State, f: nat, p: Ptr): State
    requires f < |c.frames|
  {
    c.(frames := c.frames[f := c.frames[f].(next := p)])
  }

  function SetType(c: State, f: nat, isClean: bool): State
    requires f < |c.frames|
  {
    c.(frames := c.frames[f := c.frames[f].(isClean := isClean)])
  }

  function CleanPut(c0: State, f: nat): Outcome
    requires f < |c0.frames|
  {
    var c := SetType(c0, f, true);
    if c.cleanHead == Null then Goes(c.(cleanHead := To(f), cleanTail := To(f)))
    else if !Good(c, c.cleanTail) then Nowhere(c.cleanTail)
    else Goes(SetNext(c, c.cleanTail.f, To(f)).(cleanTail := To(f)))
  }

  function DirtyPut(c0: State, f: nat): Outcome
    requires f < |c0.frames|
  {
    var c := SetType(c0, f, false);
    if c.dirtyHead == Null then Goes(c.(dirtyHead := To(f), dirtyTail := To(f)))
    else if !Good(c, c.dirtyTail) then Nowhere(c.dirtyTail)
    else Goes(SetNext(c, c.dirtyTail.f, To(f)).(dirtyTail := To(f)))
  }

  /** `blocks_remove`, which compares the block number with those at the ends of both FIFOs. */
  function BlocksRemove(c: State, f: nat): Outcome
    requires f < |c.frames|
  {
    var no := c.frames[f].blockNo;
    if !Good(c, c.dirtyHead) then Nowhere(c.dirtyHead)
    else if no == c.frames[c.dirtyHead.f].blockNo then Goes(c.(dirtyHead := c.frames[c.dirtyHead.f].next))
    else if !Good(c, c.cleanHead) then Nowhere(c.cleanHead)
    else if no == c.frames[c.cleanHead.f].blockNo then Goes(c.(cleanHead := c.frames[c.cleanHead.f].next))
    else if !Good(c, c.dirtyTail) then Nowhere(c.dirtyTail)
    else if no == c.frames[c.dirtyTail.f].blockNo then Goes(c.(dirtyTail := c.frames[c.dirtyTail.f].prev))
    else if !Good(c, c.cleanTail) then Nowhere(c.cleanTail)
    else if no == c.frames[c.cleanTail.f].blockNo then Goes(c.(cleanTail := c.frames[c.cleanTail.f].prev))
    else
      var prev, next := c.frames[f].prev, c.frames[f].next;
      if !Good(c, prev) then Nowhere(prev)
      else if !Good(c, next) then Nowhere(next)
      else Goes(SetNext(c, prev.f, next))
  }

  /** `BLOCK_WRITE` of what the frame's buffer holds by now. */
  function WriteBack(c: State, f: nat): State
    requires f < |c.frames|
  {
    var x := c.frames[f];
    if x.blockNo < |c.disk| then c.(disk := c.disk[x.blockNo := Load(c.memory, x.buffer)]) else c
  }

  // ----- the calls -----

  /** The frames as `cache_init` links them; the rest of each is what `malloc` left there. */
  function Frames(junk: seq<nat>): (r: seq<Content>)
    ensures |r| == |junk|
    ensures forall i | 0 <= i < |r| :: r[i].next == if i == |r| - 1 then Unset else To(i + 1)
  {
    if junk == [] then []
    else if |junk| == 1 then [Content(junk[0], junk[0], true, Unset, Unset)]
    else
      var last := |junk| - 1;
      var r := Frames(junk[..last]);
      r[last - 1 := r[last - 1].(next := To(last))] + [Content(junk[last], junk[last], true, Unset, Unset)]
  }

  /** `cache_init`; the source has 2000 frames. */
  function Init(disk: seq<Block>, memory: map<nat, Block>, junk: seq<nat>): State
    requires |junk| > 1
  {
    State(disk, memory, Frames(junk), To(0), To(|junk| - 1), Null, Null)
  }

  /** The frame for a block that is not in the cache, off its FIFO; a dirty one is written back. */
  function TakeForRead(c: State): (Outcome, nat) {
    if c.cleanHead == Null then
      if !Good(c, c.dirtyHead) then (Nowhere(c.dirtyHead), 0)
      else (Goes(WriteBack(c.(dirtyHead := c.frames[c.dirtyHead.f].next), c.dirtyHead.f)), c.dirtyHead.f)
    else if !Good(c, c.cleanHead) then (Nowhere(c.cleanHead), 0)
    else (Goes(c.(cleanHead := c.frames[c.cleanHead.f].next)), c.cleanHead.f)
  }

  /** `cache_read` into the buffer at `address`. */
  function Read(c: State, answer: Answer, no: nat, address: nat): Outcome
    requires no < |c.disk|
  {
    match answer
    case Endless => Hangs
    case Miss(added) =>
      var (taken, f) := TakeForRead(c);
      (match taken
       case Goes(c1) =>
         if f >= |c1.frames| || no >= |c1.disk| then Astray
         else if !added then Hangs
         else
           var filled := c1.frames[f].(blockNo := no, buffer := address, isClean := true);
           CleanPut(c1.(memory := c1.memory[address := c1.disk[no]], frames := c1.frames[f := filled]), f)
       case other => other)
    case Hit(f) =>
      if f >= |c.frames| then Astray
      else
        match BlocksRemove(c, f)
        case Goes(c1) =>
          if f >= |c1.frames| then Astray
          else if c1.frames[f].isClean then CleanPut(c1, f)
          else DirtyPut(c1, f)
        case other => other
  }

  /** `cache_write` of the buffer at `address`. */
  function Write(c: State, answer: Answer, no: nat, address: nat): Outcome
    requires no < |c.disk|
  {
    match answer
    case Endless => Hangs
    case Miss(added) =>
      if c.cleanHead == Null then
        if !Good(c, c.dirtyHead) then Nowhere(c.dirtyHead)
        else
          var f := c.dirtyHead.f;
          match BlocksRemove(c.(dirtyHead := c.frames[f].next), f)
          case Goes(c1) => if f < |c1.frames| then Refill(WriteBack(c1, f), f, added, no, address) else Astray
          case other => other
      else if !Good(c, c.cleanHead) then Nowhere(c.cleanHead)
      else
        var f := c.cleanHead.f;
        (match BlocksRemove(c.(cleanHead := c.frames[f].next), f)
         case Goes(c1) => Refill(c1, f, added, no, address)
         case other => other)
    case Hit(f) =>
      if f >= |c.frames| then Astray
      else
        match BlocksRemove(c, f)
        case Goes(c1) =>
          if f >= |c1.frames| then Astray
          else DirtyPut(c1.(frames := c1.frames[f := c1.frames[f].(buffer := address)]), f)
        case other => other
  }

  /** The rest of a miss: the old contents are read into the buffer of the frame's last caller. */
  function Refill(c: State, f: nat, added: bool, no: nat, address: nat): Outcome {
    if f >= |c.frames| || no >= |c.disk| then Astray
    else if !added then Hangs
    else
      var filled := c.frames[f].(blockNo := no, buffer := address);
      DirtyPut(c.(memory := c.memory[c.frames[f].buffer := c.disk[no]], frames := c.frames[f := filled]), f)
  }

  /** One turn of the loop of `cache_flush`. */
  function FlushTurn(c: State): Outcome {
    if !Good(c, c.dirtyHead) then Nowhere(c.dirtyHead)
    else
      var f := c.dirtyHead.f;
      match BlocksRemove(c.(dirtyHead := c.frames[f].next), f)
      case Goes(c1) => if f < |c1.frames| then CleanPut(WriteBack(c1, f), f) else Astray
      case other => other
  }

  /** `cache_flush`, with at most `turns` turns. */
  function Flush(c: State, turns: nat): Outcome
    decreases turns
  {
    if c.dirtyHead == Null || turns == 0 then Goes(c)
    else
      match FlushTurn(c)
      case Goes(c1) => Flush(c1, turns - 1)
      case other => other
  }

  // ----- single calls -----

  /** Without a dirty frame every call that reaches `blocks_remove` follows the null pointer. */
  lemma RemoveNeedsDirty(c: State, f: nat)
    requires f < |c.frames| && c.dirtyHead == Null
    ensures BlocksRemove(c, f) == NullPointer
  {
  }

  /** Neither the removal from a FIFO nor the way back to one touches the disk or a caller's buffer. */
  lemma RemoveKeepsBlocks(c: State, f: nat)
    requires f < |c.frames| && BlocksRemove(c, f).Goes?
    ensures var c1 := BlocksRemove(c, f).c;
            c1.memory == c.memory && c1.disk == c.disk && |c1.frames| == |c.frames|
  {
  }

  lemma PutKeepsBlocks(c: State, f: nat)
    requires f < |c.frames|
    ensures CleanPut(c, f).Goes? ==> CleanPut(c, f).c.memory == c.memory && CleanPut(c, f).c.disk == c.disk
    ensures DirtyPut(c, f).Goes? ==> DirtyPut(c, f).c.memory == c.memory && DirtyPut(c, f).c.disk == c.disk
  {
  }

  /** A hit copies nothing to the caller, in any state: the buffer is right exactly if it was before. */
  lemma HitCopiesNothing(c: State, f: nat, no: nat, address: nat)
    requires no < |c.disk| && Read(c, Hit(f), no, address).Goes?
    ensures var c1 := Read(c, Hit(f), no, address).c; c1.memory == c.memory && c1.disk == c.disk
  {
    hide BlocksRemove, CleanPut, DirtyPut, TakeForRead;
    RemoveKeepsBlocks(c, f);
    PutKeepsBlocks(BlocksRemove(c, f).c, f);
  }

  // ----- runs -----

  datatype Op = OpRead(no: nat, address: nat) | OpWrite(no: nat, address: nat) | OpFlush

  predicate InRange(op: Op, n: nat) {
    op.OpFlush? || op.no < n
  }

  /** The calls on a disk without a cache: the disk, the memory and what the readers were given. */
  datatype Plain = Plain(disk: seq<Block>, memory: map<nat, Block>, outs: seq<Block>)

  function OnDisk(disk: seq<Block>, memory: map<nat, Block>, ops: seq<Op>): (r: Plain)
    requires forall i | 0 <= i < |ops| :: InRange(ops[i], |disk|)
    ensures |r.disk| == |disk|
  {
    if ops == [] then Plain(disk, memory, [])
    else
      assert InRange(ops[|ops| - 1], |disk|);
      var p := OnDisk(disk, memory, ops[..|ops| - 1]);
      match ops[|ops| - 1]
      case OpRead(no, address) => Plain(p.disk, p.memory[address := p.disk[no]], p.outs + [p.disk[no]])
      case OpWrite(no, address) => p.(disk := p.disk[no := Load(p.memory, address)])
      case OpFlush => p
  }

  datatype Ran = Ran(c: State, outs: seq<Block>) | Stopped

  function Step(c: State, outs: seq<Block>, op: Op, answer: Answer): Ran
    requires InRange(op, |c.disk|)
  {
    match op
    case OpRead(no, address) =>
      (match Read(c, answer, no, address)
       case Goes(c1) => Ran(c1, outs + [Load(c1.memory, address)])
       case _ => Stopped)
    case OpWrite(no, address) =>
      (match Write(c, answer, no, address)
       case Goes(c1) => Ran(c1, outs)
       case _ => Stopped)
    case OpFlush =>
      (match Flush(c, |c.frames|)
       case Goes(c1) => Ran(c1, outs)
       case _ => Stopped)
  }

  /** The calls one after the other; `answers[i]` is how the hash serves call `i`. */
  function Run(c: State, ops: seq<Op>, answers: seq<Answer>): Ran
    requires |answers| == |ops|
  {
    if ops == [] then Ran(c, [])
    else
      var k := |ops| - 1;
      match Run(c, ops[..k], answers[..k])
      case Stopped => Stopped
      case Ran(c1, outs) => if InRange(ops[k], |c1.disk|) then Step(c1, outs, ops[k], answers[k]) else Stopped
  }

  /** The run goes on to its end and its readers get what the disk alone would have given them. */
  predicate Serves(disk: seq<Block>, memory: map<nat, Block>, junk: seq<nat>, ops: seq<Op>, answers: seq<Answer>)
    requires |junk| > 1 && |answers| == |ops| && forall i | 0 <= i < |ops| :: InRange(ops[i], |disk|)
  {
    var r := Run(Init(disk, memory, junk), ops, answers);
    r.Ran? && r.outs == OnDisk(disk, memory, ops).outs
  }

  // ----- however the hash serves the calls -----

  /**
   * The only states that runs reach: nothing is dirty, and after the first read the clean FIFO is a
   * ring of all frames with frame `h` next in turn.
   */
  predicate Ring(c: State, disk: seq<Block>, n: nat, h: nat, started: bool) {
    && c.disk == disk && |c.frames| == n > 1 && h < n && (started || h == 0) && c.dirtyHead == Null
    && c.cleanHead == To(h) && c.cleanTail == To(if h == 0 then n - 1 else h - 1)
    && (forall i | 0 <= i < n - 1 :: c.frames[i].next == To(i + 1))
    && c.frames[n - 1].next == if started then To(0) else Unset
  }

  function NextInTurn(h: nat, n: nat): nat {
    if h + 1 == n then 0 else h + 1
  }

  /**
   * A block that is not found goes into the next frame in turn, in use or not, and its reader gets
   * it from the disk, if the addition of the frame to the hash returns.
   */
  lemma MissIsRead(c: State, disk: seq<Block>, n: nat, h: nat, started: bool, no: nat, address: nat)
    requires Ring(c, disk, n, h, started) && no < |disk|
    ensures var r := Read(c, Miss(true), no, address);
            && r.Goes? && Ring(r.c, disk, n, NextInTurn(h, n), true) && r.c.memory == c.memory[address := disk[no]]
            && r.c.frames[h].blockNo == no && r.c.frames[h].buffer == address
            && forall f | 0 <= f < n && f != h :: r.c.frames[f].blockNo == c.frames[f].blockNo
  {
  }

  /** A block that is found is not read. */
  lemma HitStops(c: State, disk: seq<Block>, n: nat, h: nat, started: bool, f: nat, no: nat, address: nat)
    requires Ring(c, disk, n, h, started) && no < |disk| && f < n
    ensures Read(c, Hit(f), no, address) == NullPointer
  {
    RemoveNeedsDirty(c, f);
  }

  /** No write returns, however the hash serves it. */
  lemma WriteStops(c: State, disk: seq<Block>, n: nat, h: nat, started: bool, answer: Answer, no: nat, address: nat)
    requires Ring(c, disk, n, h, started) && no < |disk| && (answer.Hit? ==> answer.f < n)
    ensures Write(c, answer, no, address) == if answer == Endless then Hangs else NullPointer
  {
  }

  /** A frame that a search finds is one of the frames. */
  predicate InFrames(answers: seq<Answer>, n: nat) {
    forall i | 0 <= i < |answers| && answers[i].Hit? :: answers[i].f < n
  }

  /** The calls that go on: no write, and only reads that miss and whose additions return. */
  predicate OnlyMisses(ops: seq<Op>, answers: seq<Answer>)
    requires |answers| == |ops|
  {
    forall i | 0 <= i < |ops| :: !ops[i].OpWrite? && (ops[i].OpRead? ==> answers[i] == Miss(true))
  }

  lemma OnlyMissesSplit(ops: seq<Op>, answers: seq<Answer>)
    requires |answers| == |ops| > 0
    ensures var k := |ops| - 1;
            OnlyMisses(ops, answers) <==>
              OnlyMisses(ops[..k], answers[..k]) && !ops[k].OpWrite? && (ops[k].OpRead? ==> answers[k] == Miss(true))
  {
    var k := |ops| - 1;
    assert forall i | 0 <= i < k :: ops[..k][i] == ops[i] && answers[..k][i] == answers[i];
  }

  /** One call in such a state. */
  lemma StepInRing(r: Ran, disk: seq<Block>, n: nat, h: nat, started: bool, op: Op, answer: Answer)
    requires r.Ran? && Ring(r.c, disk, n, h, started) && InRange(op, |disk|) && (answer.Hit? ==> answer.f < n)
    ensures var s := Step(r.c, r.outs, op, answer);
            match op
            case OpRead(no, address) =>
              if answer == Miss(true) then
                s.Ran? && Ring(s.c, disk, n, NextInTurn(h, n), true) && s.outs == r.outs + [disk[no]]
              else s == Stopped
            case OpWrite(_, _) => s == Stopped
            case OpFlush => s == r
  {
    match op
    case OpRead(no, address) =>
      match answer {
        case Miss(added) =>
          if added {
            MissIsRead(r.c, disk, n, h, started, no, address);
          }
        case Hit(f) => HitStops(r.c, disk, n, h, started, f, no, address);
        case Endless =>
      }
    case OpWrite(no, address) => WriteStops(r.c, disk, n, h, started, answer, no, address);
    case OpFlush =>
  }

  /** How many reads `ops` has, and which frame is next in turn after them. */
  function Reads(ops: seq<Op>): nat {
    if ops == [] then 0 else Reads(ops[..|ops| - 1]) + (if ops[|ops| - 1].OpRead? then 1 else 0)
  }

  function Turn(ops: seq<Op>, n: nat): (h: nat)
    requires n > 0
    ensures h < n
    ensures Reads(ops) < n ==> h == Reads(ops)
    ensures Reads(ops) == n ==> h == 0
  {
    if ops == [] then 0
    else
      var h := Turn(ops[..|ops| - 1], n);
      if ops[|ops| - 1].OpRead? then NextInTurn(h, n) else h
  }

  lemma {:induction false} RunInRing(disk: seq<Block>, memory: map<nat, Block>, junk: seq<nat>,
                                     ops: seq<Op>, answers: seq<Answer>)
    requires |junk| > 1 && |answers| == |ops| && InFrames(answers, |junk|)
    requires forall i | 0 <= i < |ops| :: InRange(ops[i], |disk|)
    ensures var r := Run(Init(disk, memory, junk), ops, answers);
            if OnlyMisses(ops, answers) then
              && r.Ran? && Ring(r.c, disk, |junk|, Turn(ops, |junk|), Reads(ops) > 0)
              && r.outs == OnDisk(disk, memory, ops).outs && OnDisk(disk, memory, ops).disk == disk
            else r == Stopped
    decreases |ops|
  {
    if ops != [] {
      var k, n := |ops| - 1, |junk|;
      RunInRing(disk, memory, junk, ops[..k], answers[..k]);
      OnlyMissesSplit(ops, answers);
      if OnlyMisses(ops[..k], answers[..k]) {
        var r := Run(Init(disk, memory, junk), ops[..k], answers[..k]);
        StepInRing(r, disk, n, Turn(ops[..k], n), Reads(ops[..k]) > 0, ops[k], answers[k]);
      }
    }
  }

  /**
   * However the hash serves the calls, a run serves its callers exactly if it writes nothing and
   * each of its reads is a miss whose addition returns. `HashAgain.SecondHangs` has one that does not return.
   */
  lemma ServesIffMisses(disk: seq<Block>, memory: map<nat, Block>, junk: seq<nat>, ops: seq<Op>, answers: seq<Answer>)
    requires |junk| > 1 && |answers| == |ops| && InFrames(answers, |junk|)
    requires forall i | 0 <= i < |ops| :: InRange(ops[i], |disk|)
    ensures Serves(disk, memory, junk, ops, answers) <==> OnlyMisses(ops, answers)
  {
    RunInRing(disk, memory, junk, ops, answers);
  }

  // ----- while no frame is hashed twice -----

  /** What a caller can check: nothing is written and no block is read twice. */
  predicate ReadsOnce(ops: seq<Op>) {
    && (forall i | 0 <= i < |ops| :: !ops[i].OpWrite?)
    && (forall i, j | 0 <= i < j < |ops| && ops[i].OpRead? && ops[j].OpRead? :: ops[i].no != ops[j].no)
  }

  predicate HasRead(ops: seq<Op>, no: nat) {
    exists i :: 0 <= i < |ops| && ops[i].OpRead? && ops[i].no == no
  }

  lemma ReadsOnceSplit(ops: seq<Op>)
    requires ops != []
    ensures var op := ops[|ops| - 1]; var rest := ops[..|ops| - 1];
            ReadsOnce(ops) <==> ReadsOnce(rest) && !op.OpWrite? && (op.OpRead? ==> !HasRead(rest, op.no))
  {
    var op := ops[|ops| - 1];
    var rest := ops[..|ops| - 1];
    if ReadsOnce(ops) && op.OpRead? {
      forall i | 0 <= i < |rest| && rest[i].OpRead? ensures rest[i].no != op.no {
        assert ops[i] == rest[i];
      }
    }
    if ReadsOnce(rest) && !op.OpWrite? && (op.OpRead? ==> !HasRead(rest, op.no)) {
      forall i, j | 0 <= i < j < |ops| && ops[i].OpRead? && ops[j].OpRead? ensures ops[i].no != ops[j].no {
        assert ops[i] == rest[i];
      }
    }
  }

  lemma HasReadSplit(ops: seq<Op>, no: nat)
    requires ops != []
    ensures var op := ops[|ops| - 1];
            HasRead(ops, no) <==> HasRead(ops[..|ops| - 1], no) || (op.OpRead? && op.no == no)
  {
    var rest := ops[..|ops| - 1];
    if HasRead(rest, no) {
      var i :| 0 <= i < |rest| && rest[i].OpRead? && rest[i].no == no;
      assert ops[i] == rest[i];
    }
  }

  /** What the reads of a run add to the hash, frame by frame. */
  function Adds(hash: nat -> nat, ops: seq<Op>): seq<HashTable.Op<nat, nat>> {
    if ops == [] then []
    else
      var k := |ops| - 1;
      match ops[k]
      case OpRead(no, _) => Adds(hash, ops[..k]) + [HashTable.OpAdd(HashTable.Item(no, hash(no), Reads(ops[..k])))]
      case _ => Adds(hash, ops[..k])
  }

  ghost predicate Listed(items: seq<HashTable.Item<nat, nat>>, no: nat) {
    exists x :: x in items && x.key == no
  }

  /** The list of the hash after such reads: a proper use of it, with one item for each block that was read. */
  lemma {:induction false} AddsAre(hash: nat -> nat, ops: seq<Op>)
    requires ReadsOnce(ops)
    ensures HashTable.AllProper(hash, Adds(hash, ops))
    ensures forall no: nat :: HasRead(ops, no) <==> Listed(HashTable.ListAfter(Adds(hash, ops)), no)
    ensures forall x | x in HashTable.ListAfter(Adds(hash, ops)) :: x.val < Reads(ops)
    decreases |ops|
  {
    if ops != [] {
      var k := |ops| - 1;
      ReadsOnceSplit(ops);
      AddsAre(hash, ops[..k]);
      forall no: nat ensures HasRead(ops, no) <==> HasRead(ops[..k], no) || (ops[k].OpRead? && ops[k].no == no) {
        HasReadSplit(ops, no);
      }
      if ops[k].OpRead? {
        OneMoreAdd(hash, Adds(hash, ops[..k]), HashTable.Item(ops[k].no, hash(ops[k].no), Reads(ops[..k])));
      }
    }
  }

  lemma OneMoreAdd(hash: nat -> nat, adds: seq<HashTable.Op<nat, nat>>, x: HashTable.Item<nat, nat>)
    requires HashTable.AllProper(hash, adds) && x.hashv == hash(x.key) && !Listed(HashTable.ListAfter(adds), x.key)
    ensures var more := adds + [HashTable.OpAdd(x)];
            && HashTable.AllProper(hash, more)
            && HashTable.ListAfter(more) == HashTable.ListAfter(adds) + [x]
            && forall no: nat :: Listed(HashTable.ListAfter(more), no) <==>
                 Listed(HashTable.ListAfter(adds), no) || no == x.key
  {
    var more, list := adds + [HashTable.OpAdd(x)], HashTable.ListAfter(adds);
    assert more[..|adds|] == adds;
    forall i | 0 <= i < |more| ensures HashTable.Proper(HashTable.ListAfter(more[..i]), hash, more[i]) {
      if i < |adds| {
        assert more[..i] == adds[..i] && more[i] == adds[i];
      }
    }
    forall no: nat ensures Listed(list + [x], no) <==> Listed(list, no) || no == x.key {
      if no == x.key {
        assert x in list + [x];
      } else if Listed(list, no) {
        var y :| y in list && y.key == no;
        assert y in list + [x];
      }
    }
  }

  /**
   * How the hash serves a call after the reads `ops` of different blocks. The addition returns: it is
   * that of a new handle (`HashHandle.Hash.AddItem`), or the first one of a handle that is in the
   * hash already (`HashAgain.AdditionReturns`).
   */
  ghost function Search(hash: nat -> nat, ops: seq<Op>, no: nat): Answer
    requires ReadsOnce(ops)
  {
    AddsAre(hash, ops);
    var t := HashTable.After(hash, Adds(hash, ops));
    match HashTable.Find(t, hash, no)
    case None => Miss(true)
    case Some(x) => Hit(x.val)
  }

  /** The search is a hit exactly if the block was read, and finds a frame in use. */
  lemma SearchIs(hash: nat -> nat, ops: seq<Op>, no: nat)
    requires ReadsOnce(ops)
    ensures if HasRead(ops, no) then Search(hash, ops, no).Hit? && Search(hash, ops, no).f < Reads(ops)
            else Search(hash, ops, no) == Miss(true)
  {
    AddsAre(hash, ops);
    var t, list := HashTable.After(hash, Adds(hash, ops)), HashTable.ListAfter(Adds(hash, ops));
    assert HasRead(ops, no) <==> Listed(list, no);
    hide HashTable.After, HashTable.ListAfter, HashTable.Find, Adds, HashTable.Inv, HashTable.AllProper;
    match HashTable.Find(t, hash, no)
    case None =>
      forall x | x in list ensures x.key != no {
        HashTable.RunFindIff(hash, Adds(hash, ops), no, x);
      }
    case Some(x) => HashTable.RunFindIff(hash, Adds(hash, ops), no, x);
  }

  /** As long as every frame was hashed once at most, the hash does what it promises. */
  ghost predicate SoundAnswers(hash: nat -> nat, ops: seq<Op>, answers: seq<Answer>, n: nat)
    requires |answers| == |ops|
  {
    forall i | 0 <= i < |ops| && !ops[i].OpFlush? && ReadsOnce(ops[..i]) && Reads(ops[..i]) <= n ::
      answers[i] == Search(hash, ops[..i], ops[i].no)
  }

  lemma {:induction false} MissesIffOnce(hash: nat -> nat, ops: seq<Op>, answers: seq<Answer>, n: nat)
    requires |answers| == |ops| && SoundAnswers(hash, ops, answers, n) && Reads(ops) <= n + 1
    ensures OnlyMisses(ops, answers) <==> ReadsOnce(ops)
    decreases |ops|
  {
    if ops != [] {
      var k := |ops| - 1;
      assert forall i | 0 <= i < k :: ops[..k][..i] == ops[..i];
      OnlyMissesSplit(ops, answers);
      ReadsOnceSplit(ops);
      hide SoundAnswers, Search, OnlyMisses, ReadsOnce, HasRead;
      SoundBefore(hash, ops, answers, n);
      MissesIffOnce(hash, ops[..k], answers[..k], n);
      if ReadsOnce(ops[..k]) && ops[k].OpRead? {
        SearchIs(hash, ops[..k], ops[k].no);
      }
    }
  }

  lemma SoundBefore(hash: nat -> nat, ops: seq<Op>, answers: seq<Answer>, n: nat)
    requires |answers| == |ops| > 0 && SoundAnswers(hash, ops, answers, n)
    ensures var k := |ops| - 1;
            && SoundAnswers(hash, ops[..k], answers[..k], n)
            && (ops[k].OpRead? && ReadsOnce(ops[..k]) && Reads(ops[..k]) <= n ==>
                  answers[k] == Search(hash, ops[..k], ops[k].no))
  {
    hide Search, ReadsOnce;
    assert forall i | 0 <= i < |ops| - 1 :: ops[..|ops| - 1][..i] == ops[..i];
  }

  /**
   * As coded, with at most one read more than there are frames, a run serves its callers exactly if
   * they write nothing and read no block a second time. The last of these reads reuses a frame.
   */
  lemma ServesIff(disk: seq<Block>, memory: map<nat, Block>, junk: seq<nat>, hash: nat -> nat,
                  ops: seq<Op>, answers: seq<Answer>)
    requires |junk| > 1 && |answers| == |ops| && InFrames(answers, |junk|)
    requires forall i | 0 <= i < |ops| :: InRange(ops[i], |disk|)
    requires SoundAnswers(hash, ops, answers, |junk|) && Reads(ops) <= |junk| + 1
    ensures Serves(disk, memory, junk, ops, answers) <==> ReadsOnce(ops)
  {
    ServesIffMisses(disk, memory, junk, ops, answers);
    MissesIffOnce(hash, ops, answers, |junk|);
  }

  /** Two inputs on a new cache: one write, and one block read twice. */
  lemma NewCacheFails(disk: seq<Block>, memory: map<nat, Block>, junk: seq<nat>, hash: nat -> nat,
                      no: nat, address: nat, answers: seq<Answer>)
    requires |junk| > 1 && no < |disk| && InFrames(answers, |junk|)
    ensures var write := [OpWrite(no, address)];
            |answers| == 1 && SoundAnswers(hash, write, answers, |junk|) ==>
              !Serves(disk, memory, junk, write, answers)
    ensures var twice := [OpRead(no, address), OpRead(no, address)];
            |answers| == 2 && SoundAnswers(hash, twice, answers, |junk|) ==>
              !Serves(disk, memory, junk, twice, answers)
  {
    var write := [OpWrite(no, address)];
    var twice := [OpRead(no, address), OpRead(no, address)];
    assert write[0].OpWrite?;
    assert twice[0].no == twice[1].no;
    hide Serves, SoundAnswers, Reads;
    FewReads(write);
    FewReads(twice);
    if |answers| == 1 && SoundAnswers(hash, write, answers, |junk|) {
      ServesIff(disk, memory, junk, hash, write, answers);
    }
    if |answers| == 2 && SoundAnswers(hash, twice, answers, |junk|) {
      ServesIff(disk, memory, junk, hash, twice, answers);
    }
  }

  lemma {:induction false} FewReads(ops: seq<Op>)
    ensures Reads(ops) <= |ops|
  {
    if ops != [] {
      FewReads(ops[..|ops| - 1]);
    }
  }
}
