/**
 * The disk under the file system (include/fs.h:21-43): plain blocks, or the registers of the log
 * store when it is built with USE_LOG_SOFS.
 */
module Disk {
  import opened Base
  import opened Blocks
  import opened Codec
  import LogStore

  datatype Disk = Plain(blocks: seq<Block>) | Logged(log: LogStore.Log)

  function Size(d: Disk): nat {
    match d
    case Plain(blocks) => |blocks|
    case Logged(log) => |log.registo|
  }

  ghost predicate Ok(d: Disk) {
    match d
    case Plain(blocks) => forall i | 0 <= i < |blocks| :: |blocks[i]| == BLOCK_SIZE
    case Logged(log) => LogStore.Inv(log, BLOCK_SIZE) && |log.registo| < log.dim
  }

  /** A new disk of `n` blocks of either kind; the log gets ten slots for each register. */
  function New(logged: bool, n: nat): Disk {
    if logged then Logged(LogStore.Open(n, 10 * n, BLOCK_SIZE)) else Plain(seq(n, _ => Zeros(BLOCK_SIZE)))
  }

  /** `DISK_READ` of a block in range. */
  function Read(d: Disk, no: nat): (b: Block)
    requires Ok(d) && no < Size(d)
    ensures |b| == BLOCK_SIZE
  {
    match d
    case Plain(blocks) => blocks[no]
    case Logged(log) =>
      LogStore.ReadGivesRegister(log, BLOCK_SIZE, no);
      LogStore.Read(log, no).value
  }

  /** `DISK_WRITE` of a block in range. */
  function Write(d: Disk, no: nat, block: Block): (r: Disk)
    requires Ok(d) && no < Size(d) && |block| == BLOCK_SIZE
    ensures Ok(r) && Size(r) == Size(d)
  {
    match d
    case Plain(blocks) => Plain(blocks[no := block])
    case Logged(log) =>
      LogStore.WriteRefines(log, BLOCK_SIZE, no, block);
      Logged(LogStore.Write(log, no, block).log)
  }

  /** The blocks written so far read as `known`; nothing is promised of the others. */
  ghost predicate Knows(d: Disk, known: map<nat, Block>) {
    && Ok(d)
    && (forall no | no in known :: no < Size(d) && Read(d, no) == known[no])
    && (d.Logged? && LogStore.Fresh(d.log) ==> known == map[])
  }

  lemma NewDisk(logged: bool, n: nat)
    requires n > 0
    ensures Size(New(logged, n)) == n && Knows(New(logged, n), map[])
    ensures forall no | 0 <= no < n :: Read(New(logged, n), no) == Zeros(BLOCK_SIZE)
  {
    LogStore.OpenHolds(n, 10 * n, BLOCK_SIZE);
    forall no | 0 <= no < n ensures Read(New(logged, n), no) == Zeros(BLOCK_SIZE) {
      LogStore.ReadGivesRegister(LogStore.Open(n, 10 * n, BLOCK_SIZE), BLOCK_SIZE, no);
    }
  }

  /** Both kinds of disk keep what is written until it is written again. */
  lemma WriteIsKnown(d: Disk, known: map<nat, Block>, no: nat, block: Block)
    requires Knows(d, known) && no < Size(d) && |block| == BLOCK_SIZE
    ensures Knows(Write(d, no, block), known[no := block])
  {
    match d
    case Plain(blocks) =>
    case Logged(log) =>
      LogStore.WriteRefines(log, BLOCK_SIZE, no, block);
      var log' := LogStore.Write(log, no, block).log;
      forall r | r in known[no := block]
        ensures r < Size(d) && Read(Write(d, no, block), r) == known[no := block][r]
      {
        LogStore.ReadGivesRegister(log', BLOCK_SIZE, r);
        if r != no {
          assert r in known;
          LogStore.ReadGivesRegister(log, BLOCK_SIZE, r);
        }
      }
  }
}
