/** What the readers/writer lock guarantees over every interleaving of any number of threads. */
module RwTheorems {
  import opened Base
  import opened Semaphores
  import opened RwLock
  import opened RwProtocol

  /** A run: each event is enabled where it happens. */
  predicate Valid(s: State, es: seq<Event>)
    decreases |es|
  {
    es == [] || (Enabled(s, es[0]) && Valid(Next(s, es[0]), es[1..]))
  }

  function Exec(s: State, es: seq<Event>): (r: State)
    requires Valid(s, es)
    ensures |r.pcs| == |s.pcs|
    decreases |es|
  {
    if es == [] then s else Exec(Next(s, es[0]), es[1..])
  }

  lemma {:induction false} ExecKeepsInv(s: State, es: seq<Event>)
    requires Inv(s) && Valid(s, es)
    ensures Inv(Exec(s, es))
    decreases |es|
  {
    hide Inv, Next;
    if es != [] {
      NextKeepsInv(s, es[0]);
      ExecKeepsInv(Next(s, es[0]), es[1..]);
    }
  }

  // ----- safety -----

  lemma ExclusionFromInv(s: State, t: nat, u: nat)
    requires Inv(s) && t < |s.pcs| && u < |s.pcs| && t != u && s.pcs[t] == Writing
    ensures s.pcs[u] != Writing && s.pcs[u] != Reading
  {
    hide Count;
    CountPositive(s.pcs, Writing);
    CountPositive(s.pcs, Reading);
    if s.pcs[u] == Writing {
      CountTwo(s.pcs, Writing, t, u);
    }
  }

  /** No thread reads or writes while another one writes, in any run from the initial lock. */
  lemma WriterExcludesAll(n: nat, es: seq<Event>, t: nat, u: nat)
    requires Valid(Init(n), es)
    requires t < n && u < n && t != u && Exec(Init(n), es).pcs[t] == Writing
    ensures Exec(Init(n), es).pcs[u] != Writing && Exec(Init(n), es).pcs[u] != Reading
  {
    InitHolds(n);
    ExecKeepsInv(Init(n), es);
    ExclusionFromInv(Exec(Init(n), es), t, u);
  }

  // ----- progress -----

  /** Every unit left in a semaphore has a thread of its own on the way to take it. */
  lemma GrantsHaveTakers(s: State)
    requires Inv(s)
    ensures s.lock.leitores.counter <= Count(s.pcs, RdGate)
    ensures s.lock.escritores.counter <= Count(s.pcs, WrGate)
  {
    hide Count;
  }

  /** A lock that nobody holds, was granted or is on the way to never leaves a thread asleep. */
  lemma NeverStuck(s: State, t: nat)
    requires Inv(s) && t < |s.pcs| && s.pcs[t] != Idle
    ensures exists u | 0 <= u < |s.pcs| :: s.pcs[u] != Idle && Enabled(s, Event(u, GoOn))
  {
    hide Count;
    CountPositive(s.pcs, s.pcs[t]);
    if s.m.Some? {
      assert Enabled(s, Event(s.m.value, GoOn));
    } else if u :| 0 <= u < |s.pcs| && s.pcs[u] !in {Idle, RdAsleep, WrAsleep} {
      assert Enabled(s, Event(u, GoOn));
    } else {
      forall pc | pc !in {Idle, RdAsleep, WrAsleep} ensures Count(s.pcs, pc) == 0 {
        CountPositive(s.pcs, pc);
      }
      assert false;
    }
  }

  // ----- how far a waiting thread can be overtaken -----

  /**
   * When a writer's unlock ends its loop every reader counted until then is admitted: none is
   * asleep and there is a unit for each reader still at the gate.
   */
  lemma BatchAdmitsEveryReader(s: State, e: Event)
    requires Inv(s) && Enabled(s, e)
    requires s.pcs[e.t].PostingReaders? && s.pcs[e.t].i >= s.lock.leitoresEspera
    ensures var s' := Next(s, e);
            && s'.lock.leitoresEspera == 0
            && s'.lock.nleitores == s.lock.leitoresEspera
            && s'.lock.leitores.counter == Count(s'.pcs, RdGate)
            && forall t | 0 <= t < |s'.pcs| :: s'.pcs[t] != RdAsleep
  {
    NextKeepsInv(s, e);
    var s' := Next(s, e);
    assert Ledger(s');
    hide Count;
    CountPositive(s'.pcs, RdAsleep);
  }

  lemma ExecCons(s: State, e: Event, es: seq<Event>)
    requires Enabled(s, e) && Valid(Next(s, e), es)
    ensures Valid(s, [e] + es) && Exec(s, [e] + es) == Exec(Next(s, e), es)
  {
    assert ([e] + es)[1..] == es;
  }

  lemma {:induction false} ExecConcat(s: State, a: seq<Event>, b: seq<Event>)
    requires Valid(s, a) && Valid(Exec(s, a), b)
    ensures Valid(s, a + b) && Exec(s, a + b) == Exec(Exec(s, a), b)
    decreases |a|
  {
    hide Next;
    if a == [] {
      assert a + b == b;
    } else {
      ExecConcat(Next(s, a[0]), a[1..], b);
      assert a + b == [a[0]] + (a[1..] + b);
    }
  }

  lemma Exec3(s: State, e: Event, f: Event, g: Event)
    requires Enabled(s, e) && Enabled(Next(s, e), f) && Enabled(Next(Next(s, e), f), g)
    ensures Valid(s, [e, f, g]) && Exec(s, [e, f, g]) == Next(Next(Next(s, e), f), g)
  {
    hide Next;
    var s1 := Next(s, e);
    var s2 := Next(s1, f);
    ExecCons(s2, g, []);
    ExecCons(s1, f, [g]);
    ExecCons(s, e, [f, g]);
    assert [g] + [] == [g] && [f] + [g] == [f, g] && [e] + [f, g] == [e, f, g];
  }

  // Thread 0 writes while reader 1 is counted and has not reached `sem_wait`, and writer 2 waits.
  const WAITING := [Event(0, CallWrlock), Event(1, CallRdlock), Event(2, CallWrlock)]

  // 0 unlocks, leaving a unit for reader 1.
  const UNLOCKING := [Event(0, GoOn), Event(0, GoOn), Event(0, GoOn)]

  // 0 comes back as a reader and is first at the semaphore.
  const STEALING := [Event(0, CallRdlock), Event(0, GoOn), Event(1, GoOn)]

  /**
   * The units are not reserved: a reader that has not reached `sem_wait` when the unlocker posts
   * can lose its unit to a reader that arrived later, and go to sleep.
   */
  lemma GrantCanBeStolen()
    ensures var es := WAITING + UNLOCKING + STEALING;
            Valid(Init(3), es) && Exec(Init(3), es).pcs == [RdAwake, RdAsleep, WrGate]
  {
    var s3 := State(Lock(0, 1, 1, 1, Sem(0, []), Sem(0, [])), None, [Writing, RdGate, WrGate]);
    var s6 := State(Lock(1, 0, 0, 1, Sem(1, []), Sem(0, [])), None, [Idle, RdGate, WrGate]);
    Exec3(Init(3), WAITING[0], WAITING[1], WAITING[2]);
    assert Exec(Init(3), WAITING) == s3;
    Exec3(s3, UNLOCKING[0], UNLOCKING[1], UNLOCKING[2]);
    assert Exec(s3, UNLOCKING) == s6;
    Exec3(s6, STEALING[0], STEALING[1], STEALING[2]);
    ExecConcat(s3, UNLOCKING, STEALING);
    ExecConcat(Init(3), WAITING, UNLOCKING + STEALING);
    assert WAITING + UNLOCKING + STEALING == WAITING + (UNLOCKING + STEALING);
  }

  /** A writer waits, none is inside, and no batch of readers is being admitted. */
  predicate Draining(s: State) {
    && s.lock.emEscrita == 0 && s.lock.escritoresEspera > 0
    && (s.m.Some? ==> s.m.value < |s.pcs| && s.pcs[s.m.value] == PostingWriter)
  }

  function Tally(b: bool): nat {
    if b then 1 else 0
  }

  /** Number of grants to a writer in a run. */
  function WriterGrants(s: State, es: seq<Event>): nat
    requires Valid(s, es)
    decreases |es|
  {
    if es == [] then 0
    else Tally(s.pcs[es[0].t] == PostingWriter) + WriterGrants(Next(s, es[0]), es[1..])
  }

  /** Number of unlocks called by readers in a run. */
  function ReaderUnlocks(s: State, es: seq<Event>): nat
    requires Valid(s, es)
    decreases |es|
  {
    if es == [] then 0
    else Tally(s.pcs[es[0].t] == Reading) + ReaderUnlocks(Next(s, es[0]), es[1..])
  }

  lemma DrainStep(s: State, e: Event)
    requires Inv(s) && Draining(s) && Enabled(s, e) && s.pcs[e.t] != PostingWriter
    ensures Draining(Next(s, e))
    ensures Next(s, e).lock.nleitores == s.lock.nleitores - Tally(s.pcs[e.t] == Reading)
  {
    hide Count;
    if s.pcs[e.t] == Writing {
      CountPositive(s.pcs, Writing);
    }
  }

  /**
   * While a writer waits and none holds the lock, `nleitores` falls by one with every reader
   * that leaves and never rises; when it is used up the grant to the writer is under way.
   */
  lemma {:induction false} ReadersOnlyDrain(s: State, es: seq<Event>)
    requires Inv(s) && Draining(s) && Valid(s, es) && WriterGrants(s, es) == 0
    ensures var r := Exec(s, es);
            && Draining(r)
            && r.lock.nleitores == s.lock.nleitores - ReaderUnlocks(s, es) >= 0
            && (r.lock.nleitores == 0 ==> r.m.Some? && r.pcs[r.m.value] == PostingWriter)
    decreases |es|
  {
    hide Count, Next;
    if es != [] {
      DrainStep(s, es[0]);
      NextKeepsInv(s, es[0]);
      ReadersOnlyDrain(Next(s, es[0]), es[1..]);
    }
  }

  /** Unlocks that begin to admit the waiting readers. */
  function Batches(s: State, es: seq<Event>): nat
    requires Valid(s, es)
    decreases |es|
  {
    if es == [] then 0
    else Tally(Next(s, es[0]).pcs[es[0].t] == PostingReaders(0)) + Batches(Next(s, es[0]), es[1..])
  }

  /** Steps in which `nleitores` grows without being a post of such an unlock. */
  function LooseAdmissions(s: State, es: seq<Event>): nat
    requires Valid(s, es)
    decreases |es|
  {
    if es == [] then 0
    else
      var s' := Next(s, es[0]);
      Tally(s'.lock.nleitores > s.lock.nleitores && !s.pcs[es[0].t].PostingReaders?) +
      LooseAdmissions(s', es[1..])
  }

  lemma BypassStep(s: State, e: Event)
    requires Inv(s) && Enabled(s, e) && s.lock.escritoresEspera > 0
    ensures var s' := Next(s, e);
            && s'.lock.emEscrita + Tally(s'.pcs[e.t] == PostingReaders(0)) <=
               s.lock.emEscrita + Tally(s.pcs[e.t] == PostingWriter)
            && (s'.lock.nleitores > s.lock.nleitores ==> s.pcs[e.t].PostingReaders?)
  {
    hide Count;
    if s.pcs[e.t] == Reading {
      CountPositive(s.pcs, Reading);
    }
  }

  /** The writers' queue after a step: a grant takes its head, anything else leaves it in place. */
  lemma WriterQueueStep(s: State, e: Event, j: nat)
    requires Inv(s) && Enabled(s, e) && j < |s.lock.escritores.queue|
    ensures var q, q' := s.lock.escritores.queue, Next(s, e).lock.escritores.queue;
            if s.pcs[e.t] != PostingWriter then j < |q'| && q'[j] == q[j]
            else if j == 0 then Next(s, e).pcs[q[0]] == WrAwake
            else j - 1 < |q'| && q'[j - 1] == q[j]
  {
    hide Count, Ledger;
  }

  /**
   * Bounded bypass. A writer asleep behind `j` others stays in the queue for exactly `j` grants
   * and is woken by the next one. Until then at most one batch of readers gets in between two
   * grants, and no reader otherwise.
   */
  lemma {:induction false} WriterBypassIsBounded(s: State, es: seq<Event>, j: nat)
    requires Inv(s) && Valid(s, es) && j < |s.lock.escritores.queue|
    requires WriterGrants(s, es) <= j
    ensures var g, q := WriterGrants(s, es), Exec(s, es).lock.escritores.queue;
            && j - g < |q| && q[j - g] == s.lock.escritores.queue[j]
            && Exec(s, es).pcs[q[j - g]] == WrAsleep
            && Batches(s, es) <= g + s.lock.emEscrita <= j + 1
            && LooseAdmissions(s, es) == 0
    decreases |es|
  {
    hide Count, Next;
    if es != [] {
      var grant := Tally(s.pcs[es[0].t] == PostingWriter);
      assert s.lock.escritoresEspera > 0;
      BypassStep(s, es[0]);
      WriterQueueStep(s, es[0], j);
      NextKeepsInv(s, es[0]);
      WriterBypassIsBounded(Next(s, es[0]), es[1..], j - grant);
    }
  }

  // ----- the unlock method as a run -----

  /** The remaining steps of an unlock by `t`, taken without interruption. */
  function OnlyGoOn(t: nat, k: nat): (es: seq<Event>)
    ensures |es| == k
  {
    if k == 0 then [] else [Event(t, GoOn)] + OnlyGoOn(t, k - 1)
  }

  lemma {:induction false} PostReadersIsRun(s: State, t: nat, i: nat)
    requires Inv(s) && t < |s.pcs| && s.pcs[t] == PostingReaders(i) && i <= s.lock.leitoresEspera
    ensures var es := OnlyGoOn(t, s.lock.leitoresEspera - i + 1);
            && Valid(s, es)
            && Exec(s, es).lock == PostReaders(s.lock, i).0
            && Exec(s, es).m == None && Exec(s, es).pcs[t] == Idle
    decreases s.lock.leitoresEspera - i
  {
    var e := Event(t, GoOn);
    if i < s.lock.leitoresEspera {
      NextKeepsInv(s, e);
      PostReadersIsRun(Next(s, e), t, i + 1);
      ExecCons(s, e, OnlyGoOn(t, s.lock.leitoresEspera - i));
    } else {
      assert OnlyGoOn(t, 1) == [e] + [];
      ExecCons(s, e, []);
    }
  }

  function AwakeFrom(pc: Pc): Pc {
    if pc == RdAsleep then RdAwake else if pc == WrAsleep then WrAwake else pc
  }

  /** From `pcs` to `pcs'` the threads in `woken`, all asleep, woke up, and `t` went home; nothing else happened. */
  ghost predicate JustWoken(pcs: seq<Pc>, pcs': seq<Pc>, t: nat, woken: seq<nat>) {
    && |pcs'| == |pcs| && t < |pcs| && pcs'[t] == Idle
    && (forall u | u in woken :: u < |pcs| && u != t && pcs[u] in {RdAsleep, WrAsleep})
    && (forall u | 0 <= u < |pcs| && u != t :: pcs'[u] == if u in woken then AwakeFrom(pcs[u]) else pcs[u])
  }

  /** One turn of the reader loop wakes at most the head of the queue, before all that come later. */
  lemma PostTurn(s: State, t: nat, i: nat)
    requires Inv(s) && t < |s.pcs| && s.pcs[t] == PostingReaders(i) && i < s.lock.leitoresEspera
    ensures var (l', woken) := PostReader(s.lock);
            && Next(s, Event(t, GoOn)).lock == l' && l'.leitoresEspera == s.lock.leitoresEspera
            && (woken.Some? ==> woken.value < |s.pcs| && woken.value != t && s.pcs[woken.value] == RdAsleep)
            && Next(s, Event(t, GoOn)).pcs == Wake(s.pcs[t := PostingReaders(i + 1)], woken, RdAwake)
  {
    ReaderQueue(s);
    hide Inv;
  }

  lemma {:induction false} PostReadersWake(s: State, t: nat, i: nat)
    requires Inv(s) && t < |s.pcs| && s.pcs[t] == PostingReaders(i) && i <= s.lock.leitoresEspera
    requires Valid(s, OnlyGoOn(t, s.lock.leitoresEspera - i + 1))
    ensures JustWoken(s.pcs, Exec(s, OnlyGoOn(t, s.lock.leitoresEspera - i + 1)).pcs, t, PostReaders(s.lock, i).1)
    decreases s.lock.leitoresEspera - i
  {
    hide Inv, Count, SemPost, Enabled;
    var e := Event(t, GoOn);
    var k := s.lock.leitoresEspera - i;
    if i < s.lock.leitoresEspera {
      PostTurn(s, t, i);
      NextKeepsInv(s, e);
      assert OnlyGoOn(t, k + 1)[1..] == OnlyGoOn(t, k);
      PostReadersWake(Next(s, e), t, i + 1);
      WokenFirst(s, t, i, Exec(s, OnlyGoOn(t, k + 1)).pcs);
    } else {
      assert OnlyGoOn(t, 1) == [e] + [] && ([e] + [])[1..] == [];
    }
  }

  lemma WokenFirst(s: State, t: nat, i: nat, pcs: seq<Pc>)
    requires t < |s.pcs| && s.pcs[t] == PostingReaders(i) && i < s.lock.leitoresEspera
    requires var (l', woken) := PostReader(s.lock);
             && (woken.Some? ==> woken.value < |s.pcs| && woken.value != t && s.pcs[woken.value] == RdAsleep)
             && JustWoken(Wake(s.pcs[t := PostingReaders(i + 1)], woken, RdAwake), pcs, t, PostReaders(l', i + 1).1)
    ensures JustWoken(s.pcs, pcs, t, PostReaders(s.lock, i).1)
  {
    hide SemPost;
  }

  lemma ReaderQueue(s: State)
    requires Inv(s)
    ensures forall k | 0 <= k < |s.lock.leitores.queue| ::
              s.lock.leitores.queue[k] < |s.pcs| && s.pcs[s.lock.leitores.queue[k]] == RdAsleep
    ensures forall k | 0 <= k < |s.lock.escritores.queue| ::
              s.lock.escritores.queue[k] < |s.pcs| && s.pcs[s.lock.escritores.queue[k]] == WrAsleep
  {
  }

  lemma UnlockFirstStep(s: State, t: nat) returns (s': State)
    requires Inv(s) && t < |s.pcs| && s.pcs[t] in {Reading, Writing} && s.m == None
    ensures Enabled(s, Event(t, GoOn)) && s' == Next(s, Event(t, GoOn)) && Inv(s')
    ensures match UnlockStart(s.lock).1
            case Nothing =>
              && s'.lock == Unlock(s.lock).0 && s'.m == None && s'.pcs[t] == Idle
              && JustWoken(s.pcs, s'.pcs, t, Unlock(s.lock).1)
            case Readers =>
              && s'.pcs == s.pcs[t := PostingReaders(0)] && s'.lock.leitoresEspera >= 0
              && PostReaders(s'.lock, 0) == Unlock(s.lock)
            case Writer =>
              && s'.pcs[t] == PostingWriter && Enabled(s', Event(t, GoOn))
              && var s'' := Next(s', Event(t, GoOn));
                 && s''.lock == Unlock(s.lock).0 && s''.m == None && s''.pcs[t] == Idle
                 && JustWoken(s.pcs, s''.pcs, t, Unlock(s.lock).1)
  {
    hide Count, QueueOk;
    ReaderQueue(s);
    s' := Next(s, Event(t, GoOn));
    NextKeepsInv(s, Event(t, GoOn));
  }

  /**
   * A whole unlock is one of the runs: the steps of `t` alone lead to the lock that `Unlock`
   * computes, and wake exactly the threads that it lists.
   */
  lemma UnlockIsRun(s: State, t: nat) returns (es: seq<Event>)
    requires Inv(s) && t < |s.pcs| && s.pcs[t] in {Reading, Writing} && s.m == None
    ensures Valid(s, es) && (forall k | 0 <= k < |es| :: es[k] == Event(t, GoOn))
    ensures Exec(s, es).lock == Unlock(s.lock).0
    ensures Exec(s, es).m == None && Exec(s, es).pcs[t] == Idle
    ensures JustWoken(s.pcs, Exec(s, es).pcs, t, Unlock(s.lock).1)
  {
    hide Next, Inv, Unlock, UnlockStart, PostReaders, Enabled;
    var e := Event(t, GoOn);
    var s' := UnlockFirstStep(s, t);
    var rest := [];
    if s'.pcs[t].PostingReaders? {
      PostReadersIsRun(s', t, 0);
      PostReadersWake(s', t, 0);
      rest := OnlyGoOn(t, s'.lock.leitoresEspera + 1);
    } else if s'.pcs[t] == PostingWriter {
      rest := [e];
      assert [e] + [] == [e];
      ExecCons(s', e, []);
    } else {
      assert Exec(s', rest) == s';
    }
    OnlyGoOnIsThat(t, |rest|);
    ExecCons(s, e, rest);
    es := [e] + rest;
  }

  lemma {:induction false} OnlyGoOnIsThat(t: nat, k: nat)
    ensures forall i | 0 <= i < k :: OnlyGoOn(t, k)[i] == Event(t, GoOn)
  {
    if k > 0 {
      OnlyGoOnIsThat(t, k - 1);
    }
  }
}
