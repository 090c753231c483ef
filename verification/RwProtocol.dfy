/**
 * Any number of threads running the readers/writer lock, one atomic action at a time. Between its
 * section under `m` and its `sem_wait` a thread stands at a gate; the posts of an unlocker are
 * separate steps, made while it holds `m`.
 */
module RwProtocol {
  import opened Base
  import opened Semaphores
  import opened RwLock

  datatype Pc =
    | Idle
    | RdGate | RdAsleep | RdAwake | Reading
    | WrGate | WrAsleep | WrAwake | Writing
    | PostingReaders(i: nat)
    | PostingWriter

  datatype State = State(lock: Lock, m: Option<nat>, pcs: seq<Pc>)

  function Init(n: nat): State {
    State(InitLock(), None, seq(n, _ => Idle))
  }

  /** What an idle thread calls; any other thread just goes on. */
  datatype Call = CallRdlock | CallWrlock | GoOn

  datatype Event = Event(t: nat, call: Call)

  predicate Enabled(s: State, e: Event) {
    && e.t < |s.pcs|
    && (s.pcs[e.t] == Idle <==> e.call != GoOn)
    && match s.pcs[e.t]
       case Idle | RdAwake | Reading | WrAwake | Writing => s.m == None
       case RdGate | WrGate => true
       case RdAsleep | WrAsleep => false
       case PostingReaders(_) | PostingWriter => true
  }

  function Wake(pcs: seq<Pc>, woken: Option<nat>, pc: Pc): (r: seq<Pc>)
    ensures |r| == |pcs|
  {
    if woken.Some? && woken.value < |pcs| then pcs[woken.value := pc] else pcs
  }

  function Next(s: State, e: Event): (s': State)
    requires Enabled(s, e)
    ensures |s'.pcs| == |s.pcs|
  {
    var t, l := e.t, s.lock;
    match s.pcs[t]
    case Idle =>
      if e.call == CallRdlock then
        var (l', waits) := RdEnter(l);
        s.(lock := l', pcs := s.pcs[t := if waits then RdGate else Reading])
      else
        var (l', waits) := WrEnter(l);
        s.(lock := l', pcs := s.pcs[t := if waits then WrGate else Writing])
    case RdGate =>
      var (sem, blocked) := SemWait(l.leitores, t);
      s.(lock := l.(leitores := sem), pcs := s.pcs[t := if blocked then RdAsleep else RdAwake])
    case WrGate =>
      var (sem, blocked) := SemWait(l.escritores, t);
      s.(lock := l.(escritores := sem), pcs := s.pcs[t := if blocked then WrAsleep else WrAwake])
    case RdAwake => s.(pcs := s.pcs[t := Reading])
    case WrAwake => s.(pcs := s.pcs[t := Writing])
    case Reading | Writing =>
      var (l', job) := UnlockStart(l);
      (match job
       case Nothing => s.(lock := l', pcs := s.pcs[t := Idle])
       case Readers => State(l', Some(t), s.pcs[t := PostingReaders(0)])
       case Writer => State(l', Some(t), s.pcs[t := PostingWriter]))
    case PostingReaders(i) =>
      if i < l.leitoresEspera then
        var (l', woken) := PostReader(l);
        s.(lock := l', pcs := Wake(s.pcs[t := PostingReaders(i + 1)], woken, RdAwake))
      else
        State(l.(leitoresEspera := l.leitoresEspera - i), None, s.pcs[t := Idle])
    case PostingWriter =>
      var (l', woken) := PostWriter(l);
      State(l', None, Wake(s.pcs[t := Idle], woken, WrAwake))
  }

  // ----- counting threads -----

  function Count(pcs: seq<Pc>, pc: Pc): nat {
    if pcs == [] then 0 else Count(pcs[..|pcs| - 1], pc) + (if pcs[|pcs| - 1] == pc then 1 else 0)
  }

  lemma {:induction false} CountUpdate(pcs: seq<Pc>, t: nat, x: Pc, pc: Pc)
    requires t < |pcs|
    ensures Count(pcs[t := x], pc) ==
            Count(pcs, pc) - (if pcs[t] == pc then 1 else 0) + (if x == pc then 1 else 0)
  {
    var k := |pcs| - 1;
    if t < k {
      assert pcs[t := x][..k] == pcs[..k][t := x];
      CountUpdate(pcs[..k], t, x, pc);
    } else {
      assert pcs[t := x][..k] == pcs[..k];
    }
  }

  lemma CountUpdates(pcs: seq<Pc>, t: nat, x: Pc)
    requires t < |pcs|
    ensures forall pc ::
              Count(pcs[t := x], pc) ==
              Count(pcs, pc) - (if pcs[t] == pc then 1 else 0) + (if x == pc then 1 else 0)
  {
    forall pc
      ensures Count(pcs[t := x], pc) ==
              Count(pcs, pc) - (if pcs[t] == pc then 1 else 0) + (if x == pc then 1 else 0)
    {
      CountUpdate(pcs, t, x, pc);
    }
  }

  lemma {:induction false} CountPositive(pcs: seq<Pc>, pc: Pc)
    ensures Count(pcs, pc) > 0 <==> exists t :: 0 <= t < |pcs| && pcs[t] == pc
  {
    if pcs != [] {
      var k := |pcs| - 1;
      CountPositive(pcs[..k], pc);
      if Count(pcs[..k], pc) > 0 {
        var t :| 0 <= t < k && pcs[..k][t] == pc;
        assert pcs[t] == pc;
      }
      if t :| 0 <= t < k && pcs[t] == pc {
        assert pcs[..k][t] == pc;
      }
    }
  }

  lemma CountTwo(pcs: seq<Pc>, pc: Pc, t: nat, u: nat)
    requires t < |pcs| && u < |pcs| && t != u && pcs[t] == pcs[u] == pc
    ensures Count(pcs, pc) >= 2
  {
    var other := if pc == Idle then Reading else Idle;
    CountUpdate(pcs, t, other, pc);
    CountPositive(pcs[t := other], pc);
    assert pcs[t := other][u] == pc;
  }

  // ----- the invariant -----

  predicate Posting(pc: Pc) {
    pc.PostingReaders? || pc.PostingWriter?
  }

  /** Readers that the holder of `m` has already posted for but not yet taken off the books. */
  function Posted(s: State): int {
    if s.m.Some? && s.m.value < |s.pcs| && s.pcs[s.m.value].PostingReaders? then s.pcs[s.m.value].i else 0
  }

  /** The queue of a semaphore holds the threads asleep on it, each once, and no unit is left. */
  ghost predicate QueueOk(sem: Sem, pcs: seq<Pc>, asleep: Pc) {
    && sem.counter >= 0
    && (sem.queue != [] ==> sem.counter == 0)
    && |sem.queue| == Count(pcs, asleep)
    && (forall k | 0 <= k < |sem.queue| :: sem.queue[k] < |pcs| && pcs[sem.queue[k]] == asleep)
    && (forall j, k | 0 <= j < k < |sem.queue| :: sem.queue[j] != sem.queue[k])
    && (forall t | 0 <= t < |pcs| && pcs[t] == asleep :: t in sem.queue)
  }

  /**
   * The counters as a ledger: `nleitores` and `emEscrita` count the threads inside together with
   * the grants that were posted but not used yet; the waiting counters count the others.
   */
  ghost predicate Ledger(s: State) {
    var l, pcs := s.lock, s.pcs;
    && l.nleitores == Count(pcs, Reading) + Count(pcs, RdAwake) + l.leitores.counter
    && l.leitoresEspera - Posted(s) == Count(pcs, RdGate) + Count(pcs, RdAsleep) - l.leitores.counter
    && l.emEscrita == Count(pcs, Writing) + Count(pcs, WrAwake) + l.escritores.counter
    && l.escritoresEspera == Count(pcs, WrGate) + Count(pcs, WrAsleep) - l.escritores.counter
    && l.leitoresEspera - Posted(s) >= 0
    && l.escritoresEspera >= 0
    && l.emEscrita <= 1
    && (l.emEscrita == 1 ==> l.nleitores == 0)
  }

  /** Nobody waits without a reason, unless the holder of `m` is about to wake someone. */
  ghost predicate Reasons(s: State) {
    var l := s.lock;
    match s.m
    case None =>
      && (l.leitoresEspera > 0 ==> l.emEscrita == 1 || l.escritoresEspera > 0)
      && (l.escritoresEspera > 0 ==> l.emEscrita == 1 || l.nleitores > 0)
    case Some(t) =>
      && t < |s.pcs|
      && l.emEscrita == 0
      && match s.pcs[t]
         case PostingReaders(i) => l.nleitores == i && i <= l.leitoresEspera && l.leitoresEspera > 0
         case PostingWriter => l.nleitores == 0 && l.escritoresEspera > 0
         case _ => false
  }

  ghost predicate Inv(s: State) {
    && QueueOk(s.lock.leitores, s.pcs, RdAsleep)
    && QueueOk(s.lock.escritores, s.pcs, WrAsleep)
    && Ledger(s)
    && Reasons(s)
    && (forall t | 0 <= t < |s.pcs| && Posting(s.pcs[t]) :: s.m == Some(t))
  }

  lemma {:induction false} CountNone(n: nat, pc: Pc)
    ensures Count(Init(n).pcs, pc) == if pc == Idle then n else 0
  {
    if n > 0 {
      assert Init(n).pcs[..n - 1] == Init(n - 1).pcs;
      CountNone(n - 1, pc);
    }
  }

  lemma InitHolds(n: nat)
    ensures Inv(Init(n))
  {
    forall pc ensures Count(Init(n).pcs, pc) == if pc == Idle then n else 0 {
      CountNone(n, pc);
    }
  }

  // A queue is kept by steps of other threads, and by joining, leaving and posting on it.

  lemma QueueKept(sem: Sem, counter: int, pcs: seq<Pc>, asleep: Pc, t: nat, x: Pc)
    requires QueueOk(sem, pcs, asleep) && t < |pcs| && pcs[t] != asleep && x != asleep
    requires counter == sem.counter || (sem.queue == [] && counter >= 0)
    ensures QueueOk(sem.(counter := counter), pcs[t := x], asleep)
  {
    hide Count;
    CountUpdate(pcs, t, x, asleep);
  }

  lemma QueueJoined(sem: Sem, pcs: seq<Pc>, asleep: Pc, t: nat)
    requires QueueOk(sem, pcs, asleep) && t < |pcs| && pcs[t] != asleep && sem.counter == 0
    ensures QueueOk(sem.(queue := sem.queue + [t]), pcs[t := asleep], asleep)
  {
    hide Count;
    CountUpdate(pcs, t, asleep, asleep);
  }

  lemma QueueLeft(sem: Sem, pcs: seq<Pc>, asleep: Pc, x: Pc)
    requires QueueOk(sem, pcs, asleep) && sem.queue != [] && x != asleep
    ensures QueueOk(sem.(queue := sem.queue[1..]), pcs[sem.queue[0] := x], asleep)
  {
    hide Count;
    CountUpdate(pcs, sem.queue[0], x, asleep);
  }

  ghost predicate QueuesOk(s: State) {
    QueueOk(s.lock.leitores, s.pcs, RdAsleep) && QueueOk(s.lock.escritores, s.pcs, WrAsleep)
  }

  lemma OwnStepKeepsQueues(s: State, e: Event)
    requires QueuesOk(s) && Enabled(s, e)
    requires s.pcs[e.t] !in {RdGate, WrGate, PostingWriter}
    requires s.pcs[e.t].PostingReaders? ==> s.pcs[e.t].i >= s.lock.leitoresEspera
    ensures QueuesOk(Next(s, e))
  {
    hide QueueOk;
    var x := Next(s, e).pcs[e.t];
    QueueKept(s.lock.leitores, s.lock.leitores.counter, s.pcs, RdAsleep, e.t, x);
    QueueKept(s.lock.escritores, s.lock.escritores.counter, s.pcs, WrAsleep, e.t, x);
  }

  lemma WaitKeepsQueues(s: State, e: Event)
    requires QueuesOk(s) && Enabled(s, e) && s.pcs[e.t] in {RdGate, WrGate}
    ensures QueuesOk(Next(s, e))
  {
    var x := Next(s, e).pcs[e.t];
    if x == RdAsleep {
      QueueJoined(s.lock.leitores, s.pcs, RdAsleep, e.t);
    } else {
      QueueKept(s.lock.leitores, Next(s, e).lock.leitores.counter, s.pcs, RdAsleep, e.t, x);
    }
    if x == WrAsleep {
      QueueJoined(s.lock.escritores, s.pcs, WrAsleep, e.t);
    } else {
      QueueKept(s.lock.escritores, Next(s, e).lock.escritores.counter, s.pcs, WrAsleep, e.t, x);
    }
  }

  /** A semaphore and the places of the threads after a post. */
  lemma PostKeepsQueue(sem: Sem, pcs: seq<Pc>, asleep: Pc, awake: Pc, other: Sem, otherAsleep: Pc)
    requires QueueOk(sem, pcs, asleep) && QueueOk(other, pcs, otherAsleep)
    requires asleep != otherAsleep && awake != asleep && awake != otherAsleep
    ensures var (sem', woken) := SemPost(sem);
            QueueOk(sem', Wake(pcs, woken, awake), asleep) && QueueOk(other, Wake(pcs, woken, awake), otherAsleep)
  {
    if sem.queue != [] {
      QueueLeft(sem, pcs, asleep, awake);
      QueueKept(other, other.counter, pcs, otherAsleep, sem.queue[0], awake);
    }
  }

  lemma PostKeepsQueues(s: State, e: Event)
    requires QueuesOk(s) && Enabled(s, e)
    requires s.pcs[e.t] == PostingWriter || (s.pcs[e.t].PostingReaders? && s.pcs[e.t].i < s.lock.leitoresEspera)
    ensures QueuesOk(Next(s, e))
  {
    hide QueueOk;
    var x := if s.pcs[e.t] == PostingWriter then Idle else PostingReaders(s.pcs[e.t].i + 1);
    var pcs := s.pcs[e.t := x];
    QueueKept(s.lock.leitores, s.lock.leitores.counter, s.pcs, RdAsleep, e.t, x);
    QueueKept(s.lock.escritores, s.lock.escritores.counter, s.pcs, WrAsleep, e.t, x);
    if x == Idle {
      PostKeepsQueue(s.lock.escritores, pcs, WrAsleep, WrAwake, s.lock.leitores, RdAsleep);
    } else {
      PostKeepsQueue(s.lock.leitores, pcs, RdAsleep, RdAwake, s.lock.escritores, WrAsleep);
    }
  }

  ghost predicate Books(s: State) {
    && Ledger(s)
    && Reasons(s)
    && (forall t | 0 <= t < |s.pcs| && Posting(s.pcs[t]) :: s.m == Some(t))
  }

  /** Steps without a post: the thread that takes the step carries its own entry along. */
  lemma OwnStepKeepsBooks(s: State, e: Event)
    requires Inv(s) && Enabled(s, e)
    requires s.pcs[e.t] != PostingWriter
    requires s.pcs[e.t].PostingReaders? ==> s.pcs[e.t].i >= s.lock.leitoresEspera
    ensures Books(Next(s, e))
  {
    hide Count;
    CountUpdates(s.pcs, e.t, Next(s, e).pcs[e.t]);
    if s.pcs[e.t] == Reading || s.pcs[e.t] == Writing {
      CountPositive(s.pcs, s.pcs[e.t]);
    }
  }

  /** A post turns one counted waiter into a grant: a thread awake, or a unit of the semaphore. */
  lemma PostKeepsBooks(s: State, e: Event)
    requires Inv(s) && Enabled(s, e)
    requires s.pcs[e.t] == PostingWriter || (s.pcs[e.t].PostingReaders? && s.pcs[e.t].i < s.lock.leitoresEspera)
    ensures Books(Next(s, e))
  {
    hide Count, Books, Next;
    if s.pcs[e.t] == PostingWriter {
      PostWriterKeepsBooks(s, e);
    } else {
      PostReaderKeepsBooks(s, e);
    }
  }

  lemma PostWriterKeepsBooks(s: State, e: Event)
    requires Inv(s) && Enabled(s, e) && s.pcs[e.t] == PostingWriter
    ensures Books(Next(s, e))
  {
    hide Count;
    CountUpdates(s.pcs, e.t, Idle);
    var queue := s.lock.escritores.queue;
    if queue != [] {
      CountUpdates(s.pcs[e.t := Idle], queue[0], WrAwake);
    }
  }

  lemma PostReaderKeepsBooks(s: State, e: Event)
    requires Inv(s) && Enabled(s, e) && s.pcs[e.t].PostingReaders? && s.pcs[e.t].i < s.lock.leitoresEspera
    ensures Books(Next(s, e))
  {
    hide Count;
    var x := PostingReaders(s.pcs[e.t].i + 1);
    CountUpdates(s.pcs, e.t, x);
    var queue := s.lock.leitores.queue;
    if queue != [] {
      CountUpdates(s.pcs[e.t := x], queue[0], RdAwake);
    }
  }

  /** Every atomic step of every thread keeps the invariant. */
  lemma NextKeepsInv(s: State, e: Event)
    requires Inv(s) && Enabled(s, e)
    ensures Inv(Next(s, e))
  {
    hide Ledger, Reasons, QueueOk, Next;
    var pc := s.pcs[e.t];
    if pc == PostingWriter || (pc.PostingReaders? && pc.i < s.lock.leitoresEspera) {
      PostKeepsQueues(s, e);
      PostKeepsBooks(s, e);
    } else {
      OwnStepKeepsBooks(s, e);
      if pc in {RdGate, WrGate} {
        WaitKeepsQueues(s, e);
      } else {
        OwnStepKeepsQueues(s, e);
      }
    }
  }
}
