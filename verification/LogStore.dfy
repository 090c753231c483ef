/**
 * The log-structured register store (logrw/logrw.c): writes are appended to one of two block
 * arrays; when the active one is full, the newest block of every register is copied to the other.
 * `Log` is its state, `Write` and `Read` are its two calls, taken one at a time under the lock.
 */
module LogStore {
  import opened Base
  import opened Blocks

  /** Slots 0..dim-1 are in `arr1`, slots dim..2*dim-1 in `arr2`. */
  datatype Log = Log(
    dim: nat,
    registo: seq<nat>,
    livre: nat,
    arrayActivo: nat,
    arr1: seq<Block>,
    arr2: seq<Block>)

  /** `logrw_init` once its guard passed and its two arrays have `dim` blocks of `size` bytes. */
  function Open(numReg: nat, dim: nat, size: nat): Log {
    var empty := seq(dim, _ => Zeros(size));
    Log(dim, seq(numReg, _ => 0), 0, 0, empty, empty)
  }

  function Read(s: Log, r: nat): Option<Block>
    requires r < |s.registo|
  {
    var slot := s.registo[r];
    if s.dim <= slot then BlockRead(s.arr2, slot - s.dim) else BlockRead(s.arr1, slot)
  }

  datatype Copied = Copied(dst: seq<Block>, registo: seq<nat>, livre: nat)

  /** The copy loop of a flip from register `i` on; `src` and `dst` begin at the given slots. */
  function CopyFrom(src: seq<Block>, srcBase: nat, dst: seq<Block>, dstBase: nat,
                    registo: seq<nat>, livre: nat, i: nat): (c: Copied)
    requires i <= |registo|
    ensures |c.registo| == |registo| && |c.dst| == |dst|
    decreases |registo| - i
  {
    if i == |registo| then
      Copied(dst, registo, livre)
    else
      match BlockRead(src, registo[i] - srcBase)
      case None => CopyFrom(src, srcBase, dst, dstBase, registo, livre, i + 1)
      case Some(aux) =>
        match BlockWrite(dst, livre - dstBase, aux)
        case None => CopyFrom(src, srcBase, dst, dstBase, registo, livre, i + 1)
        case Some(dst') => CopyFrom(src, srcBase, dst', dstBase, registo[i := livre], livre + 1, i + 1)
  }

  /** One turn of the copy loop. */
  lemma CopyFromStep(src: seq<Block>, srcBase: nat, dst: seq<Block>, dstBase: nat,
                     registo: seq<nat>, livre: nat, i: nat)
    requires i < |registo|
    ensures var aux := BlockRead(src, registo[i] - srcBase);
            var ok := aux.Some? && BlockWrite(dst, livre - dstBase, aux.value).Some?;
            CopyFrom(src, srcBase, dst, dstBase, registo, livre, i) ==
            if ok then
              CopyFrom(src, srcBase, dst[livre - dstBase := aux.value], dstBase, registo[i := livre], livre + 1, i + 1)
            else
              CopyFrom(src, srcBase, dst, dstBase, registo, livre, i + 1)
  {
  }

  lemma CopyFromEnd(src: seq<Block>, srcBase: nat, dst: seq<Block>, dstBase: nat,
                    registo: seq<nat>, livre: nat)
    ensures CopyFrom(src, srcBase, dst, dstBase, registo, livre, |registo|) == Copied(dst, registo, livre)
  {
  }

  predicate Flips(s: Log) {
    s.livre == s.dim || s.livre == 2 * s.dim
  }

  /** The state after the copy loop of the flip that a write to a full active array makes. */
  function Flip(s: Log): Log
    requires Flips(s)
  {
    if s.livre == s.dim then
      var c := CopyFrom(s.arr1, 0, s.arr2, s.dim, s.registo, s.livre, 0);
      s.(arrayActivo := 1, arr2 := c.dst, registo := c.registo, livre := c.livre)
    else
      var c := CopyFrom(s.arr2, s.dim, s.arr1, 0, s.registo, 0, 0);
      s.(arrayActivo := 0, arr1 := c.dst, registo := c.registo, livre := c.livre)
  }

  /** A state with the return code of the call that led to it. */
  datatype Wrote = Wrote(log: Log, rc: int)

  function Append1(s: Log, r: nat, block: Block): Wrote
    requires r < |s.registo|
  {
    match BlockWrite(s.arr1, s.livre, block)
    case None => Wrote(s, -1)
    case Some(a) => Wrote(s.(arr1 := a, registo := s.registo[r := s.livre], livre := s.livre + 1), 0)
  }

  function Append2(s: Log, r: nat, block: Block): Wrote
    requires r < |s.registo|
  {
    match BlockWrite(s.arr2, s.livre - s.dim, block)
    case None => Wrote(s, -1)
    case Some(a) => Wrote(s.(arr2 := a, registo := s.registo[r := s.livre], livre := s.livre + 1), 0)
  }

  function Write(s: Log, r: nat, block: Block): (w: Wrote)
    requires r < |s.registo|
    ensures |w.log.registo| == |s.registo|
  {
    if Flips(s) then
      if s.livre == s.dim then Append2(Flip(s), r, block) else Append1(Flip(s), r, block)
    else if s.livre < s.dim then
      Append1(s, r, block)
    else
      Append2(s, r, block)
  }

  /** Nothing was written yet. */
  predicate Fresh(s: Log) {
    s.livre == 0
  }

  /** First slot of the active array. */
  function Start(s: Log): nat {
    if s.arrayActivo == 0 then 0 else s.dim
  }

  function Active(s: Log): seq<Block> {
    if s.arrayActivo == 0 then s.arr1 else s.arr2
  }

  ghost predicate Shape(s: Log, size: nat) {
    && s.dim > 0
    && |s.arr1| == |s.arr2| == s.dim
    && (forall i | 0 <= i < s.dim :: |s.arr1[i]| == size && |s.arr2[i]| == size)
    && s.arrayActivo <= 1
  }

  /**
   * Every register points into the used part of the active array; before the first write they
   * all share slot 0, which is still zero-filled.
   */
  ghost predicate Inv(s: Log, size: nat) {
    && Shape(s, size)
    && Start(s) <= s.livre <= Start(s) + s.dim
    && (s.arrayActivo == 1 ==> s.dim < s.livre)
    && (forall i | 0 <= i < |s.registo| :: Start(s) <= s.registo[i] < Start(s) + s.dim)
    && (!Fresh(s) ==> forall i | 0 <= i < |s.registo| :: s.registo[i] < s.livre)
    && (Fresh(s) ==> s.arr1[0] == Zeros(size) && forall i | 0 <= i < |s.registo| :: s.registo[i] == 0)
  }

  /** What each register reads as. */
  ghost function Regs(s: Log, size: nat): (regs: seq<Block>)
    requires Inv(s, size)
    ensures |regs| == |s.registo|
    ensures forall i | 0 <= i < |regs| :: regs[i] == Active(s)[s.registo[i] - Start(s)]
  {
    seq(|s.registo|, i requires 0 <= i < |s.registo| => Active(s)[s.registo[i] - Start(s)])
  }

  lemma OpenHolds(numReg: nat, dim: nat, size: nat)
    requires dim > 0
    ensures Inv(Open(numReg, dim, size), size)
    ensures Regs(Open(numReg, dim, size), size) == seq(numReg, _ => Zeros(size))
  {
  }

  lemma ReadGivesRegister(s: Log, size: nat, r: nat)
    requires Inv(s, size) && r < |s.registo|
    ensures Read(s, r) == Some(Regs(s, size)[r])
  {
  }

  /** With room for all of them, the loop moves the remaining registers to consecutive slots. */
  lemma {:induction false} CopyFromMoves(src: seq<Block>, srcBase: nat, dst: seq<Block>, dstBase: nat,
                                         registo: seq<nat>, livre: nat, i: nat, size: nat)
    requires i <= |registo|
    requires forall k | 0 <= k < |src| :: |src[k]| == size
    requires forall k | 0 <= k < |dst| :: |dst[k]| == size
    requires forall j | i <= j < |registo| :: srcBase <= registo[j] < srcBase + |src|
    requires dstBase <= livre && livre - dstBase + (|registo| - i) <= |dst|
    ensures var c := CopyFrom(src, srcBase, dst, dstBase, registo, livre, i);
            && c.livre == livre + (|registo| - i)
            && |c.registo| == |registo| && |c.dst| == |dst|
            && (forall j | 0 <= j < i :: c.registo[j] == registo[j])
            && (forall j | i <= j < |registo| :: c.registo[j] == livre + (j - i))
            && (forall k | 0 <= k < livre - dstBase :: c.dst[k] == dst[k])
            && (forall j | i <= j < |registo| ::
                  c.dst[c.registo[j] - dstBase] == src[registo[j] - srcBase])
            && (forall k | 0 <= k < |dst| :: |c.dst[k]| == size)
    decreases |registo| - i
  {
    if i < |registo| {
      var dst' := dst[livre - dstBase := src[registo[i] - srcBase]];
      CopyFromMoves(src, srcBase, dst', dstBase, registo[i := livre], livre + 1, i + 1, size);
    }
  }

  /** A flip keeps what every register reads and leaves a free slot. */
  lemma FlipMoves(s: Log, size: nat)
    requires Inv(s, size) && Flips(s) && 0 < |s.registo| < s.dim
    ensures Inv(Flip(s), size) && !Fresh(Flip(s))
    ensures Flip(s).arrayActivo == 1 - s.arrayActivo
    ensures Flip(s).livre == Start(Flip(s)) + |s.registo|
    ensures Regs(Flip(s), size) == Regs(s, size)
    ensures forall i, j | 0 <= i < j < |s.registo| :: Flip(s).registo[i] != Flip(s).registo[j]
  {
    hide CopyFrom;
    if s.livre == s.dim {
      CopyFromMoves(s.arr1, 0, s.arr2, s.dim, s.registo, s.livre, 0, size);
    } else {
      CopyFromMoves(s.arr2, s.dim, s.arr1, 0, s.registo, 0, 0, size);
    }
  }

  function Append(s: Log, r: nat, block: Block): Wrote
    requires r < |s.registo|
  {
    if s.arrayActivo == 0 then Append1(s, r, block) else Append2(s, r, block)
  }

  lemma AppendRefines(s: Log, size: nat, r: nat, block: Block)
    requires Inv(s, size) && s.livre < Start(s) + s.dim && r < |s.registo| && |block| == size
    ensures var w := Append(s, r, block);
            && w.rc == 0
            && Inv(w.log, size) && !Fresh(w.log)
            && Regs(w.log, size) ==
                 (if Fresh(s) then seq(|s.registo|, _ => block) else Regs(s, size)[r := block])
  {
    var regs := Regs(Append(s, r, block).log, size);
    forall i | 0 <= i < |regs|
      ensures regs[i] == if Fresh(s) || i == r then block else Regs(s, size)[i]
    {
    }
  }

  /**
   * One write, through a flip or not: it succeeds, the register reads the new block and no other
   * register changes, except that the first write of all shows in every register.
   */
  lemma WriteRefines(s: Log, size: nat, r: nat, block: Block)
    requires Inv(s, size) && r < |s.registo| < s.dim && |block| == size
    ensures var w := Write(s, r, block);
            && w.rc == 0
            && Inv(w.log, size) && !Fresh(w.log) && |w.log.registo| == |s.registo| && w.log.dim == s.dim
            && Regs(w.log, size) ==
                 (if Fresh(s) then seq(|s.registo|, _ => block) else Regs(s, size)[r := block])
  {
    if Flips(s) {
      FlipMoves(s, size);
      AppendRefines(Flip(s), size, r, block);
    } else {
      AppendRefines(s, size, r, block);
    }
  }

  datatype Put = Put(reg: nat, block: Block)

  predicate ValidPuts(puts: seq<Put>, numReg: nat, size: nat) {
    forall k | 0 <= k < |puts| :: puts[k].reg < numReg && |puts[k].block| == size
  }

  /** The state after a run of writes. */
  function Run(s: Log, puts: seq<Put>): (t: Log)
    requires forall k | 0 <= k < |puts| :: puts[k].reg < |s.registo|
    ensures |t.registo| == |s.registo|
  {
    if puts == [] then s
    else
      var last := puts[|puts| - 1];
      Write(Run(s, puts[..|puts| - 1]), last.reg, last.block).log
  }

  /** Every write of the run reports success. */
  predicate AllSucceed(s: Log, puts: seq<Put>)
    requires forall k | 0 <= k < |puts| :: puts[k].reg < |s.registo|
  {
    puts == [] ||
    var last := puts[|puts| - 1];
    AllSucceed(s, puts[..|puts| - 1]) && Write(Run(s, puts[..|puts| - 1]), last.reg, last.block).rc == 0
  }

  /** The last block written to register `r`, or `default` if there is none. */
  function LastWritten(puts: seq<Put>, r: nat, default: Block): Block {
    if puts == [] then default
    else if puts[|puts| - 1].reg == r then puts[|puts| - 1].block
    else LastWritten(puts[..|puts| - 1], r, default)
  }

  predicate Written(puts: seq<Put>, r: nat) {
    exists k | 0 <= k < |puts| :: puts[k].reg == r
  }

  /**
   * The store refines an array of registers over every run. A register that was never written
   * reads as zeros before the first write of all and as the block of that first write afterwards.
   */
  lemma {:induction false} RunRefines(numReg: nat, dim: nat, size: nat, puts: seq<Put>, r: nat)
    requires r < numReg < dim && ValidPuts(puts, numReg, size)
    ensures var s := Run(Open(numReg, dim, size), puts);
            && AllSucceed(Open(numReg, dim, size), puts)
            && Inv(s, size) && s.dim == dim && Fresh(s) == (puts == [])
            && Read(s, r) == Some(LastWritten(puts, r, if puts == [] then Zeros(size) else puts[0].block))
  {
    hide Write, Inv;
    if puts == [] {
      OpenHolds(numReg, dim, size);
    } else {
      var prefix, last := puts[..|puts| - 1], puts[|puts| - 1];
      var t := Run(Open(numReg, dim, size), prefix);
      RunRefines(numReg, dim, size, prefix, r);
      ReadGivesRegister(t, size, r);
      WriteRefines(t, size, last.reg, last.block);
    }
    ReadGivesRegister(Run(Open(numReg, dim, size), puts), size, r);
  }

  lemma {:induction false} DefaultIsRead(puts: seq<Put>, r: nat, default: Block)
    requires !Written(puts, r)
    ensures LastWritten(puts, r, default) == default
  {
    if puts != [] {
      assert puts[|puts| - 1].reg != r;
      var prefix := puts[..|puts| - 1];
      assert !Written(prefix, r) by {
        assert forall k | 0 <= k < |prefix| :: prefix[k] == puts[k];
      }
      DefaultIsRead(prefix, r, default);
    }
  }

  lemma {:induction false} WrittenIsRead(puts: seq<Put>, r: nat, default: Block, other: Block)
    requires Written(puts, r)
    ensures LastWritten(puts, r, default) == LastWritten(puts, r, other)
  {
    if puts[|puts| - 1].reg != r {
      var k :| 0 <= k < |puts| && puts[k].reg == r;
      assert puts[..|puts| - 1][k].reg == r;
      WrittenIsRead(puts[..|puts| - 1], r, default, other);
    }
  }

  /**
   * The log store and a plain zero-filled array of blocks agree on a register exactly when it was
   * written, or nothing was, or the very first block written was itself all zeros.
   */
  lemma AgreesWithPlainArrayIff(numReg: nat, dim: nat, size: nat, puts: seq<Put>, r: nat)
    requires r < numReg < dim && ValidPuts(puts, numReg, size)
    ensures Read(Run(Open(numReg, dim, size), puts), r) == Some(LastWritten(puts, r, Zeros(size)))
       <==> Written(puts, r) || puts == [] || puts[0].block == Zeros(size)
  {
    RunRefines(numReg, dim, size, puts, r);
    var first := if puts == [] then Zeros(size) else puts[0].block;
    if Written(puts, r) {
      WrittenIsRead(puts, r, first, Zeros(size));
    } else {
      DefaultIsRead(puts, r, first);
      DefaultIsRead(puts, r, Zeros(size));
    }
  }

  // ----- slots -----

  /** One write: the register moves to a slot of its own, in either array. */
  lemma WriteApart(s: Log, size: nat, r: nat, block: Block, i: nat, j: nat)
    requires Inv(s, size) && r < |s.registo| < s.dim && |block| == size
    requires i < |s.registo| && j < |s.registo| && i != j
    ensures var w := Write(s, r, block).log;
            && |w.registo| == |s.registo|
            && (Flips(s) || (!Fresh(s) && r in {i, j}) || s.registo[i] != s.registo[j] ==> w.registo[i] != w.registo[j])
  {
    if Flips(s) {
      FlipMoves(s, size);
    }
  }

  /**
   * Over every run, through flips in both directions, the indices of the written registers lie in
   * the used part of the active array and are distinct.
   */
  lemma {:induction false} WrittenAreApart(numReg: nat, dim: nat, size: nat, puts: seq<Put>, i: nat, j: nat)
    requires i < numReg < dim && j < numReg && ValidPuts(puts, numReg, size)
    requires Written(puts, i) && Written(puts, j) && i != j
    ensures var s := Run(Open(numReg, dim, size), puts);
            && |s.registo| == numReg && s.registo[i] != s.registo[j]
            && Start(s) <= s.registo[i] < s.livre && Start(s) <= s.registo[j] < s.livre <= Start(s) + dim
  {
    var prefix, last := puts[..|puts| - 1], puts[|puts| - 1];
    var t := Run(Open(numReg, dim, size), prefix);
    RunRefines(numReg, dim, size, puts, i);
    RunRefines(numReg, dim, size, prefix, i);
    WrittenBefore(puts, i);
    WrittenBefore(puts, j);
    hide Write, Inv;
    assert prefix != [];
    if Written(prefix, i) && Written(prefix, j) {
      WrittenAreApart(numReg, dim, size, prefix, i, j);
    }
    WriteApart(t, size, last.reg, last.block, i, j);
    InvSlots(Run(Open(numReg, dim, size), puts), size);
  }

  lemma WrittenBefore(puts: seq<Put>, r: nat)
    requires Written(puts, r)
    ensures puts != [] && (puts[|puts| - 1].reg == r || Written(puts[..|puts| - 1], r))
  {
    var k :| 0 <= k < |puts| && puts[k].reg == r;
    if k < |puts| - 1 {
      assert puts[..|puts| - 1][k].reg == r;
    }
  }

  lemma InvSlots(s: Log, size: nat)
    requires Inv(s, size) && !Fresh(s)
    ensures forall i | 0 <= i < |s.registo| :: Start(s) <= s.registo[i] < s.livre
    ensures s.livre <= Start(s) + s.dim
  {
  }

  // ----- how much room the arrays need -----

  /** Without room for all registers the copy loop fills the other array to the last block. */
  lemma {:induction false} CopyFromFills(src: seq<Block>, srcBase: nat, dst: seq<Block>, dstBase: nat,
                                         registo: seq<nat>, livre: nat, i: nat)
    requires i <= |registo|
    requires forall j | i <= j < |registo| :: srcBase <= registo[j] < srcBase + |src|
    requires dstBase <= livre <= dstBase + |dst| <= livre + (|registo| - i)
    ensures CopyFrom(src, srcBase, dst, dstBase, registo, livre, i).livre == dstBase + |dst|
    decreases |registo| - i
  {
    if i < |registo| {
      if livre < dstBase + |dst| {
        var dst' := dst[livre - dstBase := src[registo[i] - srcBase]];
        CopyFromFills(src, srcBase, dst', dstBase, registo[i := livre], livre + 1, i + 1);
      } else {
        CopyFromFills(src, srcBase, dst, dstBase, registo, livre, i + 1);
      }
    }
  }

  /** `k` writes to register 0. */
  function Filling(k: nat, size: nat): (puts: seq<Put>)
    ensures ValidPuts(puts, 1, size) && |puts| == k
  {
    seq(k, _ => Put(0, Zeros(size)))
  }

  lemma {:induction false} FillsFirstArray(numReg: nat, dim: nat, size: nat, k: nat)
    requires 0 < numReg && k <= dim && dim > 0
    ensures var s := Run(Open(numReg, dim, size), Filling(k, size));
            Inv(s, size) && s.livre == k && s.dim == dim && s.arrayActivo == 0
  {
    if k == 0 {
      OpenHolds(numReg, dim, size);
    } else {
      assert Filling(k, size)[..k - 1] == Filling(k - 1, size);
      FillsFirstArray(numReg, dim, size, k - 1);
      AppendRefines(Run(Open(numReg, dim, size), Filling(k - 1, size)), size, 0, Zeros(size));
    }
  }

  lemma LastWriteFails(numReg: nat, dim: nat, size: nat)
    requires 0 < dim <= numReg
    ensures !AllSucceed(Open(numReg, dim, size), Filling(dim + 1, size))
  {
    assert Filling(dim + 1, size)[..dim] == Filling(dim, size);
    FillsFirstArray(numReg, dim, size, dim);
    var s := Run(Open(numReg, dim, size), Filling(dim, size));
    CopyFromFills(s.arr1, 0, s.arr2, s.dim, s.registo, s.livre, 0);
  }

  /** No run of writes ever fails if and only if there are fewer registers than blocks in an array. */
  lemma NeverFailsIff(numReg: nat, dim: nat, size: nat)
    requires numReg > 0 && dim > 0
    ensures (forall puts | ValidPuts(puts, numReg, size) :: AllSucceed(Open(numReg, dim, size), puts))
       <==> numReg < dim
  {
    if numReg < dim {
      forall puts | ValidPuts(puts, numReg, size) ensures AllSucceed(Open(numReg, dim, size), puts) {
        RunRefines(numReg, dim, size, puts, 0);
      }
    } else {
      LastWriteFails(numReg, dim, size);
      assert ValidPuts(Filling(dim + 1, size), numReg, size);
    }
  }

  /**
   * `logrw_init` as it stands: it compares `num_reg` with `array_dim`, but passes its arguments in
   * the order of block.h while `block_new` is defined with the number of blocks first, so that
   * each array has `bloco_dim` blocks of `array_dim` bytes.
   */
  function InitAsCoded(numReg: nat, arrayDim: nat, blocoDim: nat): Option<Log> {
    if numReg >= arrayDim then None else Some(Open(numReg, blocoDim, arrayDim))
  }

  /** The guard accepts (3, 12, 2), and the third write after that already fails. */
  lemma GuardIsNotEnough()
    ensures InitAsCoded(3, 12, 2) == Some(Open(3, 2, 12))
    ensures !AllSucceed(Open(3, 2, 12), Filling(3, 12))
  {
    LastWriteFails(3, 2, 12);
  }

  /** What the guard is for holds of the code exactly when `num_reg` is below `bloco_dim`. */
  lemma InitAsCodedServesIff(numReg: nat, arrayDim: nat, blocoDim: nat)
    requires 0 < numReg < arrayDim && blocoDim > 0
    ensures var s := InitAsCoded(numReg, arrayDim, blocoDim);
            && s.Some?
            && |s.value.registo| == numReg
            && ((forall puts | ValidPuts(puts, numReg, arrayDim) :: AllSucceed(s.value, puts)) <==> numReg < blocoDim)
  {
    NeverFailsIff(numReg, blocoDim, arrayDim);
  }

  // ----- what compaction costs -----

  /** How often the copy loop from register `i` on calls `block_write`: once for each block it could read. */
  function CopyCalls(src: seq<Block>, srcBase: nat, dst: seq<Block>, dstBase: nat,
                     registo: seq<nat>, livre: nat, i: nat): nat
    requires i <= |registo|
    decreases |registo| - i
  {
    if i == |registo| then 0
    else
      match BlockRead(src, registo[i] - srcBase)
      case None => CopyCalls(src, srcBase, dst, dstBase, registo, livre, i + 1)
      case Some(aux) =>
        match BlockWrite(dst, livre - dstBase, aux)
        case None => 1 + CopyCalls(src, srcBase, dst, dstBase, registo, livre, i + 1)
        case Some(dst') => 1 + CopyCalls(src, srcBase, dst', dstBase, registo[i := livre], livre + 1, i + 1)
  }

  /** Calls of `block_write` made by one write: those of a flip and one for the requested block. */
  function BlockWrites(s: Log): nat {
    if s.livre == s.dim then CopyCalls(s.arr1, 0, s.arr2, s.dim, s.registo, s.livre, 0) + 1
    else if s.livre == 2 * s.dim then CopyCalls(s.arr2, s.dim, s.arr1, 0, s.registo, 0, 0) + 1
    else 1
  }

  /** With readable registers each of the remaining ones is written once. */
  lemma {:induction false} CopyCallsCounted(src: seq<Block>, srcBase: nat, dst: seq<Block>, dstBase: nat,
                                            registo: seq<nat>, livre: nat, i: nat)
    requires i <= |registo|
    requires forall j | i <= j < |registo| :: srcBase <= registo[j] < srcBase + |src|
    ensures CopyCalls(src, srcBase, dst, dstBase, registo, livre, i) == |registo| - i
    decreases |registo| - i
  {
    if i < |registo| {
      var aux := src[registo[i] - srcBase];
      match BlockWrite(dst, livre - dstBase, aux)
      case None => CopyCallsCounted(src, srcBase, dst, dstBase, registo, livre, i + 1);
      case Some(dst') => CopyCallsCounted(src, srcBase, dst', dstBase, registo[i := livre], livre + 1, i + 1);
    }
  }

  datatype Cost = Cost(flips: int, blockWrites: int)

  function RunCost(s: Log, puts: seq<Put>): Cost
    requires forall k | 0 <= k < |puts| :: puts[k].reg < |s.registo|
  {
    if puts == [] then Cost(0, 0)
    else
      var t := Run(s, puts[..|puts| - 1]);
      var c := RunCost(s, puts[..|puts| - 1]);
      Cost(c.flips + (if Flips(t) then 1 else 0), c.blockWrites + BlockWrites(t))
  }

  /** Flips made by `w` writes. */
  function FlipsOf(w: nat, numReg: nat, dim: nat): nat
    requires numReg < dim
  {
    if w <= dim then 0 else 1 + (w - dim - 1) / (dim - numReg)
  }

  lemma DivStep(x: nat, d: nat)
    requires d > 0
    ensures (x + 1) / d == x / d + (if x % d == d - 1 then 1 else 0)
    ensures (x + 1) % d == if x % d == d - 1 then 0 else x % d + 1
  {
    var q, m := x / d, x % d;
    assert x == q * d + m;
    if m == d - 1 {
      assert x + 1 == (q + 1) * d;
      DivModOf(x + 1, d, q + 1, 0);
    } else {
      DivModOf(x + 1, d, q, m + 1);
    }
  }

  lemma DivModOf(x: nat, d: nat, q: nat, m: nat)
    requires x == q * d + m && m < d
    ensures x / d == q && x % d == m
  {
    var e := x / d - q;
    assert x == (x / d) * d + x % d;
    assert e * d == m - x % d;
    assert 0 - d < e * d < d;
    assert e >= 1 ==> e * d >= d;
    assert e <= -1 ==> e * d <= -1 * d;
  }

  /** Slots of the active array in use after `w` writes. */
  function UsedAfter(w: nat, numReg: nat, dim: nat): nat
    requires numReg < dim
  {
    if w <= dim then w else numReg + 1 + (w - dim - 1) % (dim - numReg)
  }

  lemma CostStep(t: Log, size: nat, put: Put)
    requires Inv(t, size) && put.reg < |t.registo| < t.dim && |put.block| == size
    ensures var u := Write(t, put.reg, put.block).log;
            && Flips(t) == (t.livre - Start(t) == t.dim)
            && BlockWrites(t) == (if Flips(t) then |t.registo| + 1 else 1)
            && u.livre - Start(u) == (if Flips(t) then |t.registo| else t.livre - Start(t)) + 1
  {
    hide CopyFrom, CopyCalls;
    if Flips(t) {
      FlipMoves(t, size);
      if t.livre == t.dim {
        CopyCallsCounted(t.arr1, 0, t.arr2, t.dim, t.registo, t.livre, 0);
      } else {
        CopyCallsCounted(t.arr2, t.dim, t.arr1, 0, t.registo, 0, 0);
      }
    }
  }

  lemma UsedStep(w: nat, numReg: nat, dim: nat)
    requires numReg < dim
    ensures var full := UsedAfter(w, numReg, dim) == dim;
            && UsedAfter(w + 1, numReg, dim) == (if full then numReg else UsedAfter(w, numReg, dim)) + 1
            && FlipsOf(w + 1, numReg, dim) == FlipsOf(w, numReg, dim) + (if full then 1 else 0)
  {
    if w > dim {
      DivStep(w - dim - 1, dim - numReg);
    } else if w == dim {
      DivModOf(0, dim - numReg, 0, 0);
    }
  }

  lemma {:induction false} FlipsCounted(numReg: nat, dim: nat, size: nat, puts: seq<Put>)
    requires 0 < numReg < dim && ValidPuts(puts, numReg, size)
    ensures var s := Run(Open(numReg, dim, size), puts);
            && RunCost(Open(numReg, dim, size), puts).flips == FlipsOf(|puts|, numReg, dim)
            && s.livre - Start(s) == UsedAfter(|puts|, numReg, dim)
  {
    hide Write, Inv, Flips, BlockWrites;
    if puts != [] {
      var prefix, last := puts[..|puts| - 1], puts[|puts| - 1];
      FlipsCounted(numReg, dim, size, prefix);
      RunRefines(numReg, dim, size, prefix, 0);
      CostStep(Run(Open(numReg, dim, size), prefix), size, last);
      UsedStep(|prefix|, numReg, dim);
    }
  }

  lemma {:induction false} BlockWritesCounted(numReg: nat, dim: nat, size: nat, puts: seq<Put>)
    requires 0 < numReg < dim && ValidPuts(puts, numReg, size)
    ensures var c := RunCost(Open(numReg, dim, size), puts);
            c.blockWrites == |puts| + numReg * c.flips
  {
    hide Write, Inv, Flips, BlockWrites;
    if puts != [] {
      var prefix, last := puts[..|puts| - 1], puts[|puts| - 1];
      BlockWritesCounted(numReg, dim, size, prefix);
      RunRefines(numReg, dim, size, prefix, 0);
      CostStep(Run(Open(numReg, dim, size), prefix), size, last);
      var f := RunCost(Open(numReg, dim, size), prefix).flips;
      assert numReg * (f + 1) == numReg * f + numReg;
    }
  }

  /** Exactly this many flips and block writes, whatever is written and to which registers. */
  lemma CompactionCost(numReg: nat, dim: nat, size: nat, puts: seq<Put>)
    requires 0 < numReg < dim && ValidPuts(puts, numReg, size)
    ensures var w, c := |puts|, RunCost(Open(numReg, dim, size), puts);
            && c.flips == (if w <= dim then 0 else 1 + (w - dim - 1) / (dim - numReg))
            && c.blockWrites == w + numReg * c.flips
  {
    hide Write, Inv;
    FlipsCounted(numReg, dim, size, puts);
    BlockWritesCounted(numReg, dim, size, puts);
  }
}
