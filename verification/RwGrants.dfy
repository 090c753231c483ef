/** When a reader that was counted as waiting gets in, and when it can lose its unit. */
module RwGrants {
  import opened Base
  import opened Semaphores
  import opened RwLock
  import opened RwProtocol
  import opened RwTheorems

  // ----- which side an unlock serves -----

  predicate WaitingReader(pc: Pc) {
    pc == RdGate || pc == RdAsleep
  }

  predicate WaitingWriter(pc: Pc) {
    pc == WrGate || pc == WrAsleep
  }

  predicate ReaderWaits(s: State) {
    exists r :: 0 <= r < |s.pcs| && WaitingReader(s.pcs[r])
  }

  predicate WriterWaits(s: State) {
    exists w :: 0 <= w < |s.pcs| && WaitingWriter(s.pcs[w])
  }

  /** `t` is the only reader inside, and no other one was let in. */
  predicate LastReader(s: State, t: nat) {
    && t < |s.pcs| && s.pcs[t] == Reading && s.lock.leitores.counter == 0
    && forall u | 0 <= u < |s.pcs| && u != t :: s.pcs[u] != Reading && s.pcs[u] != RdAwake
  }

  lemma AloneCount(pcs: seq<Pc>, t: nat, pc: Pc)
    requires t < |pcs| && pcs[t] == pc
    ensures Count(pcs, pc) == 1 <==> forall u | 0 <= u < |pcs| && u != t :: pcs[u] != pc
  {
    var other := if pc == Idle then Reading else Idle;
    CountUpdate(pcs, t, other, pc);
    CountPositive(pcs[t := other], pc);
    if u :| 0 <= u < |pcs| && u != t && pcs[u] == pc {
      CountTwo(pcs, pc, t, u);
    }
  }

  /** Waiting threads and the counters, while a writer or the last reader is about to unlock. */
  lemma WaitersCounted(s: State, t: nat)
    requires Inv(s) && t < |s.pcs| && s.m == None && (s.pcs[t] == Writing || s.pcs[t] == Reading)
    ensures s.pcs[t] == Writing ==> (s.lock.leitoresEspera > 0 <==> ReaderWaits(s))
    ensures s.lock.escritoresEspera > 0 <==> WriterWaits(s)
    ensures s.pcs[t] == Writing <==> s.lock.emEscrita == 1
    ensures s.pcs[t] == Reading ==> (s.lock.nleitores == 1 <==> LastReader(s, t))
  {
    hide Count;
    CountPositive(s.pcs, RdGate);
    CountPositive(s.pcs, RdAsleep);
    CountPositive(s.pcs, WrGate);
    CountPositive(s.pcs, WrAsleep);
    CountPositive(s.pcs, Writing);
    CountPositive(s.pcs, Reading);
    CountPositive(s.pcs, RdAwake);
    if s.pcs[t] == Reading {
      AloneCount(s.pcs, t, Reading);
    }
  }

  /**
   * Whom an unlock serves: a writer the readers if one waits, at the gate or asleep, and only
   * otherwise a writer; a reader never the readers, and a writer exactly if it was the last one.
   */
  lemma UnlockServes(s: State, e: Event)
    requires Inv(s) && Enabled(s, e) && (s.pcs[e.t] == Writing || s.pcs[e.t] == Reading)
    ensures var pc := Next(s, e).pcs[e.t];
            && pc in {Idle, PostingReaders(0), PostingWriter}
            && (pc == PostingReaders(0) <==> s.pcs[e.t] == Writing && ReaderWaits(s))
            && (pc == PostingWriter <==>
                WriterWaits(s) && if s.pcs[e.t] == Writing then !ReaderWaits(s) else LastReader(s, e.t))
  {
    WaitersCounted(s, e.t);
    hide Inv, ReaderWaits, WriterWaits, LastReader;
  }

  lemma {:induction false} PostReadersList(l: Lock, i: nat)
    requires 0 <= |l.leitores.queue| <= l.leitoresEspera - i
    ensures PostReaders(l, i).1 == l.leitores.queue
    decreases l.leitoresEspera - i
  {
    if i < l.leitoresEspera {
      PostReadersList(PostReader(l).0, i + 1);
    }
  }

  /**
   * The threads that a whole unlock wakes: all readers asleep in the order in which they fell
   * asleep, or the writer that has slept longest, or nobody.
   */
  lemma UnlockWakes(s: State, t: nat)
    requires Inv(s) && t < |s.pcs| && s.m == None && (s.pcs[t] == Writing || s.pcs[t] == Reading)
    ensures Unlock(s.lock).1 ==
            if s.pcs[t] == Writing && ReaderWaits(s) then s.lock.leitores.queue
            else if (s.pcs[t] == Writing || LastReader(s, t)) && s.lock.escritores.queue != []
            then [s.lock.escritores.queue[0]]
            else []
  {
    WaitersCounted(s, t);
    SleepersCounted(s);
    hide Inv, ReaderWaits, WriterWaits, LastReader, Count;
    if s.pcs[t] == Writing && ReaderWaits(s) {
      PostReadersList(UnlockStart(s.lock).0, 0);
    }
  }

  lemma SleepersCounted(s: State)
    requires Inv(s) && s.m == None
    ensures |s.lock.leitores.queue| <= s.lock.leitoresEspera
    ensures s.lock.escritores.queue != [] ==> s.lock.escritoresEspera > 0
  {
    UnitsOrSleepers(s);
  }

  /** After `k` events the batch of `w` has just ended, and `r` is awake or has a unit at the gate. */
  ghost predicate AdmittedAt(s: State, es: seq<Event>, w: nat, r: nat, k: nat) {
    && 0 < k <= |es| && es[k - 1].t == w && Valid(s, es[..k - 1]) && Valid(s, es[..k])
    && var u, v := Exec(s, es[..k - 1]), Exec(s, es[..k]);
       && w < |u.pcs| && w < |v.pcs| && u.pcs[w].PostingReaders? && v.pcs[w] == Idle
       && r < |v.pcs| && (v.pcs[r] == RdAwake || v.pcs[r] == RdGate)
       && v.lock.leitores.counter == Count(v.pcs, RdGate)
  }

  lemma BatchStep(s: State, e: Event, w: nat, r: nat)
    requires Inv(s) && Enabled(s, e) && w < |s.pcs| && r < |s.pcs| && s.pcs[w].PostingReaders?
    requires s.pcs[r] == RdAwake || WaitingReader(s.pcs[r])
    ensures var s' := Next(s, e);
            && (s'.pcs[r] == RdAwake || WaitingReader(s'.pcs[r]))
            && if s'.pcs[w] == Idle
               then e.t == w && s'.pcs[r] != RdAsleep && s'.lock.leitores.counter == Count(s'.pcs, RdGate)
               else s'.pcs[w].PostingReaders?
  {
    if e.t == w && s.pcs[w].i >= s.lock.leitoresEspera {
      BatchAdmitsEveryReader(s, e);
    }
    hide Count, Ledger;
  }

  lemma AdmittedLater(s: State, es: seq<Event>, w: nat, r: nat, k: nat)
    requires es != [] && Enabled(s, es[0]) && AdmittedAt(Next(s, es[0]), es[1..], w, r, k)
    ensures AdmittedAt(s, es, w, r, k + 1)
  {
    hide Next, Enabled;
    assert es[..k][1..] == es[1..][..k - 1] && es[..k + 1][1..] == es[1..][..k];
  }

  lemma {:induction false} BatchRuns(s: State, es: seq<Event>, w: nat, r: nat)
    requires Inv(s) && Valid(s, es) && w < |s.pcs| && r < |s.pcs| && s.pcs[w].PostingReaders?
    requires s.pcs[r] == RdAwake || WaitingReader(s.pcs[r])
    requires Exec(s, es).pcs[w] == Idle
    ensures exists k :: 0 < k <= |es| && AdmittedAt(s, es, w, r, k)
    decreases |es|
  {
    hide Inv, Next, Enabled;
    var s' := Next(s, es[0]);
    BatchStep(s, es[0], w, r);
    NextKeepsInv(s, es[0]);
    if s'.pcs[w] == Idle {
      assert es[..0] == [] && es[..1] == [es[0]] && [es[0]][1..] == [];
      ExecCons(s, es[0], []);
      assert [es[0]] + [] == [es[0]];
      assert AdmittedAt(s, es, w, r, 1);
    } else {
      BatchRuns(s', es[1..], w, r);
      var k :| 0 < k <= |es[1..]| && AdmittedAt(s', es[1..], w, r, k);
      AdmittedLater(s, es, w, r, k);
    }
  }

  /**
   * The first unlock that a writer calls after a reader was counted starts a batch, and in every
   * run in which it returns that reader is awake or has a unit when the batch ends.
   */
  lemma WriterUnlockAdmits(s: State, es: seq<Event>, r: nat)
    requires Inv(s) && Valid(s, es) && es != [] && s.pcs[es[0].t] == Writing
    requires r < |s.pcs| && WaitingReader(s.pcs[r])
    ensures Next(s, es[0]).pcs[es[0].t] == PostingReaders(0)
    ensures Exec(s, es).pcs[es[0].t] == Idle ==>
              exists k :: 1 < k <= |es| && AdmittedAt(s, es, es[0].t, r, k)
  {
    var w := es[0].t;
    UnlockServes(s, es[0]);
    NextKeepsInv(s, es[0]);
    OwnUnlockStep(s, es[0], r);
    hide Inv, Next, Enabled, AdmittedAt;
    if Exec(s, es).pcs[w] == Idle {
      BatchRuns(Next(s, es[0]), es[1..], w, r);
      var k :| 0 < k <= |es[1..]| && AdmittedAt(Next(s, es[0]), es[1..], w, r, k);
      AdmittedLater(s, es, w, r, k);
    }
  }

  lemma OwnUnlockStep(s: State, e: Event, r: nat)
    requires Enabled(s, e) && r < |s.pcs| && WaitingReader(s.pcs[r]) && s.pcs[e.t] == Writing
    ensures Next(s, e).pcs[r] == s.pcs[r]
  {
  }

  // ----- how many writers can overtake a waiting reader -----

  /** Reader `r` waits, at the gate or asleep, in every state of the run. */
  predicate KeepsWaiting(s: State, es: seq<Event>, r: nat)
    requires Valid(s, es)
    decreases |es|
  {
    && r < |s.pcs| && WaitingReader(s.pcs[r])
    && (es == [] || KeepsWaiting(Next(s, es[0]), es[1..], r))
  }

  predicate KeepsSleeping(s: State, es: seq<Event>, r: nat)
    requires Valid(s, es)
    decreases |es|
  {
    && r < |s.pcs| && s.pcs[r] == RdAsleep
    && (es == [] || KeepsSleeping(Next(s, es[0]), es[1..], r))
  }

  /** Steps by which a writer gets the lock, with or without a grant. */
  function WriterEntries(s: State, es: seq<Event>): nat
    requires Valid(s, es)
    decreases |es|
  {
    if es == [] then 0
    else Tally(Next(s, es[0]).lock.emEscrita > s.lock.emEscrita) + WriterEntries(Next(s, es[0]), es[1..])
  }

  /** Batches of readers that end in a run. */
  function BatchEnds(s: State, es: seq<Event>): nat
    requires Valid(s, es)
    decreases |es|
  {
    if es == [] then 0
    else
      Tally(s.pcs[es[0].t].PostingReaders? && Next(s, es[0]).pcs[es[0].t] == Idle) +
      BatchEnds(Next(s, es[0]), es[1..])
  }

  /** A writer has the lock, or a batch of readers is being admitted. */
  predicate ReadersAreNext(s: State) {
    || s.lock.emEscrita == 1
    || (s.m.Some? && s.m.value < |s.pcs| && s.pcs[s.m.value].PostingReaders?)
  }

  /** With a reader waiting a free lock has readers inside, and who posts holds `m`. */
  lemma WaiterFacts(s: State, e: Event, r: nat)
    requires Inv(s) && Enabled(s, e) && r < |s.pcs| && WaitingReader(s.pcs[r])
    ensures 0 <= s.lock.emEscrita <= 1 && (s.m.Some? ==> s.lock.emEscrita == 0)
    ensures s.m == None && s.lock.emEscrita == 0 ==> s.lock.nleitores > 0
    ensures s.pcs[e.t] == Writing ==> s.m == None && Next(s, e).pcs[e.t] == PostingReaders(0)
    ensures s.pcs[e.t] == Reading ==> s.lock.emEscrita == 0
    ensures Posting(s.pcs[e.t]) ==> s.m == Some(e.t) && s.lock.emEscrita == 0
  {
    if s.pcs[e.t] == Writing {
      UnlockServes(s, e);
    }
    hide Count, QueueOk, Next;
    CountPositive(s.pcs, RdGate);
    CountPositive(s.pcs, RdAsleep);
    CountPositive(s.pcs, Reading);
  }

  lemma OvertakingStep(s: State, e: Event, r: nat)
    requires Inv(s) && Enabled(s, e) && r < |s.pcs| && WaitingReader(s.pcs[r])
    requires !(s.pcs[e.t].PostingReaders? && Next(s, e).pcs[e.t] == Idle)
    ensures var s' := Next(s, e);
            && (ReadersAreNext(s) ==> ReadersAreNext(s') && s'.lock.emEscrita <= s.lock.emEscrita)
            && (s'.lock.emEscrita > s.lock.emEscrita ==> ReadersAreNext(s'))
            && (s.pcs[e.t] == PostingWriter ==> s'.lock.emEscrita > s.lock.emEscrita)
  {
    hide Inv, QueueOk, Ledger, Reasons;
    WaiterFacts(s, e, r);
    if s.m.Some? && s.m.value < |s.pcs| && s.pcs[s.m.value].PostingReaders? {
      BatchStep(s, e, s.m.value, r);
    }
  }

  /**
   * Bounded bypass for readers. While a reader waits, and until a batch of readers has been let
   * in, at most one writer gets the lock, and none at all if a writer has it already.
   */
  lemma {:induction false} ReaderBypassIsBounded(s: State, es: seq<Event>, r: nat)
    requires Inv(s) && Valid(s, es) && KeepsWaiting(s, es, r) && BatchEnds(s, es) == 0
    ensures WriterGrants(s, es) <= WriterEntries(s, es) <= 1 - Tally(ReadersAreNext(s))
    decreases |es|
  {
    hide Inv, Next, Enabled, ReadersAreNext;
    if es != [] {
      OvertakingStep(s, es[0], r);
      NextKeepsInv(s, es[0]);
      ReaderBypassIsBounded(Next(s, es[0]), es[1..], r);
    }
  }

  lemma SleeperSeesNoEnd(s: State, e: Event, r: nat)
    requires Inv(s) && Enabled(s, e) && r < |s.pcs| && s.pcs[r] == Next(s, e).pcs[r] == RdAsleep
    ensures !(s.pcs[e.t].PostingReaders? && Next(s, e).pcs[e.t] == Idle)
  {
    hide Inv, Next;
    if s.pcs[e.t].PostingReaders? {
      BatchStep(s, e, e.t, r);
    }
  }

  lemma {:induction false} SleepersSeeNoEnd(s: State, es: seq<Event>, r: nat)
    requires Inv(s) && Valid(s, es) && KeepsSleeping(s, es, r)
    ensures KeepsWaiting(s, es, r) && BatchEnds(s, es) == 0
    decreases |es|
  {
    hide Inv, Next, Enabled;
    if es != [] {
      NextKeepsInv(s, es[0]);
      SleeperSeesNoEnd(s, es[0], r);
      SleepersSeeNoEnd(Next(s, es[0]), es[1..], r);
    }
  }

  /** No run has two grants to writers while a reader asleep at its start stays asleep. */
  lemma OneWriterPerSleeper(s: State, es: seq<Event>, r: nat)
    requires Inv(s) && Valid(s, es) && KeepsSleeping(s, es, r)
    ensures WriterGrants(s, es) <= WriterEntries(s, es) <= 1 - Tally(ReadersAreNext(s))
  {
    SleepersSeeNoEnd(s, es, r);
    ReaderBypassIsBounded(s, es, r);
  }

  // ----- readers asleep -----

  /** A reader asleep when the batch of writer `w` is under way, or starts, is not asleep when it ends. */
  lemma AsleepReadersGetIn(s: State, es: seq<Event>, w: nat, r: nat)
    requires Inv(s) && es != [] && Valid(s, es) && es[|es| - 1].t == w && r < |s.pcs| && s.pcs[r] == RdAsleep
    requires Valid(s, es[..|es| - 1])
    requires var u := Exec(s, es[..|es| - 1]);
             w < |u.pcs| && u.pcs[w].PostingReaders? && u.pcs[w].i >= u.lock.leitoresEspera
    ensures |Exec(s, es).pcs| == |s.pcs| && Exec(s, es).pcs[r] != RdAsleep
    ensures exists k :: 0 <= k < |es| && WokenAt(s, es, r, k)
  {
    hide Inv, Next, Enabled;
    var before, last := es[..|es| - 1], es[|es| - 1];
    var u := Exec(s, before);
    ExecKeepsInv(s, before);
    assert es == before + [last];
    LastEvent(s, before, last);
    BatchAdmitsEveryReader(u, last);
    WokenOnce(s, es, r);
  }

  lemma {:induction false} LastEvent(s: State, es: seq<Event>, e: Event)
    requires Valid(s, es + [e])
    ensures Valid(s, es) && Enabled(Exec(s, es), e) && Exec(s, es + [e]) == Next(Exec(s, es), e)
    decreases |es|
  {
    hide Next, Enabled;
    if es == [] {
      assert es + [e] == [e] && [e][1..] == [];
    } else {
      assert (es + [e])[1..] == es[1..] + [e];
      LastEvent(Next(s, es[0]), es[1..], e);
    }
  }

  /** Event `k` of the run wakes reader `r`. */
  ghost predicate WokenAt(s: State, es: seq<Event>, r: nat, k: nat) {
    && k < |es| && Valid(s, es[..k]) && Valid(s, es[..k + 1])
    && r < |Exec(s, es[..k]).pcs| && Exec(s, es[..k]).pcs[r] == RdAsleep
    && r < |Exec(s, es[..k + 1]).pcs| && Exec(s, es[..k + 1]).pcs[r] == RdAwake
  }

  lemma {:induction false} WokenOnce(s: State, es: seq<Event>, r: nat)
    requires Inv(s) && Valid(s, es) && r < |s.pcs| && s.pcs[r] == RdAsleep
    requires r < |Exec(s, es).pcs| && Exec(s, es).pcs[r] != RdAsleep
    ensures exists k :: 0 <= k < |es| && WokenAt(s, es, r, k)
    decreases |es|
  {
    hide Inv, Next, Enabled;
    var s' := Next(s, es[0]);
    NextKeepsInv(s, es[0]);
    SleeperStep(s, es[0], r);
    assert es[..0] == [] && es[..1] == [es[0]] && [es[0]][1..] == [];
    ExecCons(s, es[0], []);
    assert [es[0]] + [] == [es[0]];
    if s'.pcs[r] == RdAwake {
      assert WokenAt(s, es, r, 0);
    } else {
      WokenOnce(s', es[1..], r);
      var k :| 0 <= k < |es[1..]| && WokenAt(s', es[1..], r, k);
      assert es[..k + 1][1..] == es[1..][..k] && es[..k + 2][1..] == es[1..][..k + 1];
      assert WokenAt(s, es, r, k + 1);
    }
  }

  lemma SleeperStep(s: State, e: Event, r: nat)
    requires Inv(s) && Enabled(s, e) && r < |s.pcs| && s.pcs[r] == RdAsleep
    ensures Next(s, e).pcs[r] in {RdAsleep, RdAwake}
  {
    hide Count, Ledger, Reasons;
  }

  // ----- readers at the gate -----

  /** Other threads that called `sem_wait` for readers in a run. */
  function Passed(s: State, es: seq<Event>): nat
    requires Valid(s, es)
    decreases |es|
  {
    if es == [] then 0 else Tally(s.pcs[es[0].t] == RdGate) + Passed(Next(s, es[0]), es[1..])
  }

  /** The step posts a unit for a reader. */
  predicate Posts(s: State, e: Event)
    requires Enabled(s, e)
  {
    s.pcs[e.t].PostingReaders? && s.pcs[e.t].i < s.lock.leitoresEspera
  }

  /** Units posted for readers in a run. */
  function Posted(s: State, es: seq<Event>): nat
    requires Valid(s, es)
    decreases |es|
  {
    if es == [] then 0 else Tally(Posts(s, es[0])) + Posted(Next(s, es[0]), es[1..])
  }

  predicate Others(es: seq<Event>, t: nat) {
    forall k | 0 <= k < |es| :: es[k].t != t
  }

  /** The units there are, less the readers asleep; never are there both. */
  function Units(s: State): int {
    s.lock.leitores.counter - |s.lock.leitores.queue|
  }

  lemma UnitsOrSleepers(s: State)
    requires Inv(s)
    ensures s.lock.leitores.counter >= 0 && (s.lock.leitores.counter > 0 ==> s.lock.leitores.queue == [])
  {
  }

  lemma GateStep(s: State, e: Event, t: nat)
    requires Inv(s) && Enabled(s, e) && t < |s.pcs| && s.pcs[t] == RdGate && e.t != t
    ensures Next(s, e).pcs[t] == RdGate
    ensures Units(Next(s, e)) == Units(s) + Tally(Posts(s, e)) - Tally(s.pcs[e.t] == RdGate)
  {
    hide Count, Ledger, Reasons;
  }

  /** Every post adds one unit, and every other reader that comes by takes one. */
  lemma {:induction false} UnitsLeft(s: State, es: seq<Event>, t: nat)
    requires Inv(s) && Valid(s, es) && t < |s.pcs| && s.pcs[t] == RdGate && Others(es, t)
    ensures var r := Exec(s, es);
            && Inv(r) && |r.pcs| == |s.pcs| && r.pcs[t] == RdGate
            && Units(r) == Units(s) + Posted(s, es) - Passed(s, es)
    decreases |es|
  {
    hide Inv, Next, Enabled, Units;
    if es != [] {
      NextKeepsInv(s, es[0]);
      GateStep(s, es[0], t);
      assert Others(es[1..], t);
      UnitsLeft(Next(s, es[0]), es[1..], t);
    }
  }

  lemma GateOpens(s: State, t: nat)
    requires Inv(s) && t < |s.pcs| && s.pcs[t] == RdGate
    ensures Enabled(s, Event(t, GoOn))
    ensures Next(s, Event(t, GoOn)).pcs[t] == if Units(s) > 0 then RdAwake else RdAsleep
  {
    UnitsOrSleepers(s);
    hide Inv;
  }

  /**
   * A reader at the gate gets its unit exactly if fewer other threads came by since than there were
   * units, counting those posted in between and less the readers that were asleep; otherwise it
   * falls asleep.
   */
  lemma KeepsUnitIff(s: State, es: seq<Event>, t: nat)
    requires Inv(s) && Valid(s, es) && t < |s.pcs| && s.pcs[t] == RdGate && Others(es, t)
    ensures var r := Exec(s, es);
            && |r.pcs| == |s.pcs| && Enabled(r, Event(t, GoOn))
            && Next(r, Event(t, GoOn)).pcs[t] ==
               if Passed(s, es) < Units(s) + Posted(s, es) then RdAwake else RdAsleep
  {
    hide Inv, Valid, Exec, Passed, Posted, Units, Next, Enabled;
    UnitsLeft(s, es, t);
    GateOpens(Exec(s, es), t);
  }

  // ----- when a unit can be lost -----

  /** As the end of a batch leaves it: `t` is at the gate, and there is a unit for each thread there. */
  ghost predicate Settled(s: State, t: nat) {
    && Inv(s) && s.m == None && s.lock.emEscrita == 0 && t < |s.pcs| && s.pcs[t] == RdGate
    && s.lock.leitores.counter == Count(s.pcs, RdGate)
  }

  lemma BatchEndsSettled(s: State, e: Event, t: nat)
    requires Inv(s) && Enabled(s, e) && s.pcs[e.t].PostingReaders? && s.pcs[e.t].i >= s.lock.leitoresEspera
    requires t < |s.pcs| && s.pcs[t] == RdGate
    ensures Settled(Next(s, e), t)
  {
    BatchAdmitsEveryReader(s, e);
    NextKeepsInv(s, e);
    hide Count, QueueOk, Ledger;
  }

  /** Other threads alone can bring it about that `t` finds no unit. */
  ghost predicate CanLose(s: State, t: nat) {
    exists es: seq<Event> :: Valid(s, es) && Others(es, t) && Loses(Exec(s, es), t)
  }

  predicate Loses(s: State, t: nat) {
    && t < |s.pcs| && s.pcs[t] == RdGate && Enabled(s, Event(t, GoOn))
    && Next(s, Event(t, GoOn)).pcs[t] == RdAsleep
  }

  /** A thread that could come to the gate as another reader, or queue up as a writer. */
  predicate Free(s: State, t: nat, u: nat) {
    u < |s.pcs| && u != t && !WaitingWriter(s.pcs[u])
  }

  predicate Thieves(s: State, t: nat) {
    || (s.lock.escritoresEspera > 0 && exists u :: 0 <= u < |s.pcs| && Free(s, t, u))
    || (exists u, v :: 0 <= u < v < |s.pcs| && Free(s, t, u) && Free(s, t, v))
  }

  lemma SettledFacts(s: State, t: nat)
    requires Settled(s, t)
    ensures s.lock.leitores.counter >= 1 && s.lock.nleitores >= 1
    ensures forall u | 0 <= u < |s.pcs| :: s.pcs[u] in {Idle, RdGate, RdAwake, Reading, WrGate, WrAsleep}
    ensures s.lock.escritores.counter == 0
    ensures s.lock.escritoresEspera > 0 <==> exists u :: 0 <= u < |s.pcs| && WaitingWriter(s.pcs[u])
  {
    hide Count;
    CountPositive(s.pcs, RdGate);
    CountPositive(s.pcs, Writing);
    CountPositive(s.pcs, WrAwake);
    CountPositive(s.pcs, RdAsleep);
    CountPositive(s.pcs, WrGate);
    CountPositive(s.pcs, WrAsleep);
  }

  // Where a settled lock can be taken by others without `t`.

  /** Other threads lead from `s` to `r`. */
  ghost predicate Leads(s: State, t: nat, r: State) {
    exists es: seq<Event> :: Valid(s, es) && Others(es, t) && Exec(s, es) == r
  }

  lemma LeadsNowhere(s: State, t: nat)
    ensures Leads(s, t, s)
  {
    assert Valid(s, []) && Others([], t) && Exec(s, []) == s;
  }

  lemma LeadsOne(s: State, t: nat, e: Event)
    requires Enabled(s, e) && e.t != t
    ensures Leads(s, t, Next(s, e))
  {
    ExecCons(s, e, []);
    assert Valid(s, [e] + []) && Others([e] + [], t);
  }

  lemma LeadsOn(s: State, t: nat, u: State, r: State)
    requires Leads(s, t, u) && Leads(u, t, r)
    ensures Leads(s, t, r)
  {
    hide Next, Enabled;
    var a: seq<Event> :| Valid(s, a) && Others(a, t) && Exec(s, a) == u;
    var b: seq<Event> :| Valid(u, b) && Others(b, t) && Exec(u, b) == r;
    ExecConcat(s, a, b);
    assert Valid(s, a + b) && Others(a + b, t);
  }

  /** Another reader takes a step: through the gate, inside, or out. */
  lemma ReaderSteps(s: State, t: nat, u: nat)
    requires Settled(s, t) && u < |s.pcs| && u != t && s.pcs[u] in {RdGate, RdAwake, Reading}
    ensures var e := Event(u, GoOn);
            && Enabled(s, e) && Settled(Next(s, e), t)
            && Next(s, e).pcs ==
               s.pcs[u := if s.pcs[u] == RdGate then RdAwake else if s.pcs[u] == RdAwake then Reading else Idle]
            && Next(s, e).lock.escritoresEspera == s.lock.escritoresEspera
  {
    var e := Event(u, GoOn);
    SettledFacts(s, t);
    AtGate(s, t, u);
    NextKeepsInv(s, e);
    hide Count, QueueOk, Ledger, Reasons;
    CountUpdate(s.pcs, u, Next(s, e).pcs[u], RdGate);
  }

  /** With `t` at the gate as well there is more than one unit, or one reader more inside. */
  lemma AtGate(s: State, t: nat, u: nat)
    requires Settled(s, t) && u < |s.pcs| && u != t
    ensures s.pcs[u] == RdGate ==> s.lock.leitores.counter >= 2
    ensures s.pcs[u] == Reading ==> s.lock.nleitores >= 2
  {
    hide Count;
    if s.pcs[u] == RdGate {
      CountTwo(s.pcs, RdGate, t, u);
    }
    CountPositive(s.pcs, RdGate);
    CountPositive(s.pcs, Reading);
  }

  /** A free thread can become idle. */
  lemma GoesHome(s: State, t: nat, u: nat) returns (r: State)
    requires Settled(s, t) && Free(s, t, u)
    ensures Leads(s, t, r) && Settled(r, t) && r.pcs == s.pcs[u := Idle]
    ensures r.lock.escritoresEspera == s.lock.escritoresEspera
    decreases if s.pcs[u] == RdGate then 3 else if s.pcs[u] == RdAwake then 2 else if s.pcs[u] == Reading then 1 else 0
  {
    hide Settled, Next, Enabled, Leads, Inv;
    SettledFacts(s, t);
    if s.pcs[u] == Idle {
      r := s;
      LeadsNowhere(s, t);
    } else {
      ReaderSteps(s, t, u);
      var e := Event(u, GoOn);
      LeadsOne(s, t, e);
      r := GoesHome(Next(s, e), t, u);
      LeadsOn(s, t, Next(s, e), r);
    }
  }

  /** All other threads at the gate can take their units. */
  lemma GateEmpties(s: State, t: nat, u: nat) returns (r: State)
    requires Settled(s, t) && Free(s, t, u)
    ensures Leads(s, t, r) && Settled(r, t) && Free(r, t, u) && Count(r.pcs, RdGate) == 1
    ensures r.lock.escritoresEspera == s.lock.escritoresEspera
    decreases Count(s.pcs, RdGate)
  {
    hide Settled, Next, Enabled, Leads, Count, Inv;
    SettledFacts(s, t);
    SettledCount(s, t);
    if w :| 0 <= w < |s.pcs| && w != t && s.pcs[w] == RdGate {
      ReaderSteps(s, t, w);
      CountUpdate(s.pcs, w, RdAwake, RdGate);
      var e := Event(w, GoOn);
      LeadsOne(s, t, e);
      r := GateEmpties(Next(s, e), t, u);
      LeadsOn(s, t, Next(s, e), r);
    } else {
      r := s;
      LeadsNowhere(s, t);
      OnlyOne(s.pcs, t);
    }
  }

  lemma SettledCount(s: State, t: nat)
    requires Settled(s, t)
    ensures t < |s.pcs| && s.pcs[t] == RdGate && s.lock.leitores.counter == Count(s.pcs, RdGate)
  {
  }

  lemma OnlyOne(pcs: seq<Pc>, t: nat)
    requires t < |pcs| && pcs[t] == RdGate && forall w | 0 <= w < |pcs| && w != t :: pcs[w] != RdGate
    ensures Count(pcs, RdGate) == 1
  {
    CountUpdate(pcs, t, Idle, RdGate);
    CountPositive(pcs[t := Idle], RdGate);
  }

  /** An idle thread can queue up as a writer. */
  lemma WriterQueues(s: State, t: nat, v: nat)
    requires Settled(s, t) && v < |s.pcs| && v != t && s.pcs[v] == Idle
    ensures var e := Event(v, CallWrlock);
            && Enabled(s, e) && Settled(Next(s, e), t) && Next(s, e).pcs == s.pcs[v := WrGate]
            && Next(s, e).lock.escritoresEspera == s.lock.escritoresEspera + 1
  {
    SettledFacts(s, t);
    NextKeepsInv(s, Event(v, CallWrlock));
    hide Count, QueueOk, Ledger, Reasons;
    CountUpdate(s.pcs, v, WrGate, RdGate);
  }

  /** With a writer waiting an idle thread comes to the gate and takes the last unit. */
  lemma TakesLast(s: State, t: nat, u: nat)
    requires Settled(s, t) && u < |s.pcs| && u != t && s.pcs[u] == Idle
    requires s.lock.escritoresEspera > 0 && s.lock.leitores.counter == 1
    ensures CanLose(s, t)
  {
    var e, f := Event(u, CallRdlock), Event(u, GoOn);
    SettledFacts(s, t);
    var s1 := Next(s, e);
    var s2 := Next(s1, f);
    assert Enabled(s, e) && Enabled(s1, f);
    ExecCons(s1, f, []);
    ExecCons(s, e, [f] + []);
    hide Inv, Count;
    var es := [e] + ([f] + []);
    assert Others(es, t) && Valid(s, es) && Exec(s, es) == s2 && Loses(s2, t);
  }

  lemma CanLoseLater(s: State, t: nat, r: State)
    requires Leads(s, t, r) && CanLose(r, t)
    ensures CanLose(s, t)
  {
    hide Next, Enabled, Loses;
    var a: seq<Event> :| Valid(s, a) && Others(a, t) && Exec(s, a) == r;
    var b: seq<Event> :| Valid(r, b) && Others(b, t) && Loses(Exec(r, b), t);
    ExecConcat(s, a, b);
    assert Valid(s, a + b) && Others(a + b, t) && Loses(Exec(s, a + b), t);
  }

  /** A free thread and a waiting writer are enough. */
  lemma ThiefWithWriter(s: State, t: nat, u: nat)
    requires Settled(s, t) && Free(s, t, u) && s.lock.escritoresEspera > 0
    ensures CanLose(s, t)
  {
    hide Settled, Next, Enabled, Leads, CanLose;
    var a := GateEmpties(s, t, u);
    var b := GoesHome(a, t, u);
    SettledCount(a, t);
    SettledCount(b, t);
    CountUpdate(a.pcs, u, Idle, RdGate);
    AloneAtGate(a, t, u);
    TakesLast(b, t, u);
    LeadsOn(s, t, a, b);
    CanLoseLater(s, t, b);
  }

  lemma AloneAtGate(s: State, t: nat, u: nat)
    requires Settled(s, t) && Count(s.pcs, RdGate) == 1 && u < |s.pcs| && u != t
    ensures s.pcs[u] != RdGate
  {
    if s.pcs[u] == RdGate {
      CountTwo(s.pcs, RdGate, t, u);
    }
  }

  lemma ThiefWithFriend(s: State, t: nat, u: nat, v: nat)
    requires Settled(s, t) && Free(s, t, u) && Free(s, t, v) && u != v
    ensures CanLose(s, t)
  {
    SettledCount(s, t);
    hide Settled, Next, Enabled, Leads, CanLose, Count;
    var a := GoesHome(s, t, v);
    WriterQueues(a, t, v);
    var e := Event(v, CallWrlock);
    LeadsOne(a, t, e);
    SettledEspera(a, t);
    ThiefWithWriter(Next(a, e), t, u);
    LeadsOn(s, t, a, Next(a, e));
    CanLoseLater(s, t, Next(a, e));
  }

  lemma SettledEspera(s: State, t: nat)
    requires Settled(s, t)
    ensures s.lock.escritoresEspera >= 0
  {
  }

  // Where it cannot.

  /** All others are waiting writers, or there is at most one other thread. */
  predicate Harmless(s: State, t: nat) {
    |s.pcs| <= 2 || forall u | 0 <= u < |s.pcs| && u != t :: WaitingWriter(s.pcs[u])
  }

  lemma WriterSleeps(s: State, t: nat, u: nat)
    requires Settled(s, t) && u < |s.pcs| && s.pcs[u] == WrGate
    ensures var s' := Next(s, Event(u, GoOn));
            Settled(s', t) && s'.pcs == s.pcs[u := WrAsleep]
  {
    SettledFacts(s, t);
    NextKeepsInv(s, Event(u, GoOn));
    hide Count, QueueOk, Ledger, Reasons;
    CountUpdate(s.pcs, u, WrAsleep, RdGate);
  }

  lemma ReaderEnters(s: State, t: nat, u: nat)
    requires Settled(s, t) && u < |s.pcs| && s.pcs[u] == Idle && s.lock.escritoresEspera == 0
    ensures var s' := Next(s, Event(u, CallRdlock));
            Settled(s', t) && s'.pcs == s.pcs[u := Reading]
  {
    NextKeepsInv(s, Event(u, CallRdlock));
    hide Count, QueueOk, Ledger, Reasons;
    CountUpdate(s.pcs, u, Reading, RdGate);
  }

  lemma HarmlessStep(s: State, e: Event, t: nat)
    requires Settled(s, t) && Harmless(s, t) && Enabled(s, e) && e.t != t
    ensures Settled(Next(s, e), t) && Harmless(Next(s, e), t)
  {
    hide Settled, Next, Count;
    SettledFacts(s, t);
    SettledCount(s, t);
    SettledEspera(s, t);
    if s.pcs[e.t] in {RdGate, RdAwake, Reading} {
      ReaderSteps(s, t, e.t);
    } else if s.pcs[e.t] == WrGate {
      WriterSleeps(s, t, e.t);
    } else if e.call == CallWrlock {
      WriterQueues(s, t, e.t);
    } else {
      ReaderEnters(s, t, e.t);
    }
  }

  lemma {:induction false} HarmlessRun(s: State, es: seq<Event>, t: nat)
    requires Settled(s, t) && Harmless(s, t) && Valid(s, es) && Others(es, t)
    ensures Settled(Exec(s, es), t)
    decreases |es|
  {
    hide Settled, Harmless, Next, Enabled;
    if es != [] {
      HarmlessStep(s, es[0], t);
      assert Others(es[1..], t);
      HarmlessRun(Next(s, es[0]), es[1..], t);
    }
  }

  lemma SettledKeepsUnit(s: State, t: nat)
    requires Settled(s, t)
    ensures !Loses(s, t)
  {
    SettledFacts(s, t);
  }

  lemma HarmlessOrThieves(s: State, t: nat)
    requires Settled(s, t)
    ensures Harmless(s, t) || Thieves(s, t)
  {
    SettledFacts(s, t);
    if |s.pcs| > 2 {
      if u: nat :| u < |s.pcs| && u != t && !WaitingWriter(s.pcs[u]) {
        var w := if t != 0 && u != 0 then 0 else if t != 1 && u != 1 then 1 else 2;
        var a, b := if u < w then u else w, if u < w then w else u;
        assert Free(s, t, u) && (WaitingWriter(s.pcs[w]) || (Free(s, t, a) && Free(s, t, b)));
      }
    }
  }

  /**
   * At the end of a batch, and as long as each thread at the gate has its unit, a reader there can
   * lose its unit to others exactly if a writer waits and some other thread is no waiting writer,
   * or two other threads are none.
   */
  lemma CanLoseIff(s: State, t: nat)
    requires Settled(s, t)
    ensures CanLose(s, t) <==> Thieves(s, t)
  {
    hide Settled, Next, Enabled, Loses, Count;
    if Thieves(s, t) {
      if u :| 0 <= u < |s.pcs| && Free(s, t, u) && s.lock.escritoresEspera > 0 {
        ThiefWithWriter(s, t, u);
      } else {
        var u, v :| 0 <= u < v < |s.pcs| && Free(s, t, u) && Free(s, t, v);
        ThiefWithFriend(s, t, u, v);
      }
    } else {
      HarmlessOrThieves(s, t);
      forall es: seq<Event> | Valid(s, es) && Others(es, t) ensures !Loses(Exec(s, es), t) {
        HarmlessRun(s, es, t);
        SettledKeepsUnit(Exec(s, es), t);
      }
    }
  }
}
