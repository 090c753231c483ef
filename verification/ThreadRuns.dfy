/**
 * What the calls of the thread library mean over whole runs: who is joined and how often, how long
 * a thread sleeps, when a new or woken thread runs, and in which order threads are let on.
 */
module ThreadRuns {
  import opened Base
  import opened Semaphores
  import opened Scheduler
  import opened ThreadTheorems

  lemma OneStep(states: seq<Sched>, ops: seq<Op>, k: nat)
    requires Run(states, ops, false) && 0 < k < |states|
    ensures Proper(states[k - 1], ops[k - 1]) && Step(states[k - 1], ops[k - 1], false) == Next(states[k])
  {
    assert Step(states[k - 1], ops[k - 1], false) == Next(states[k - 1 + 1]);
  }

  // ----- exit and join -----

  /** Some thread waits in `join` for `t`. */
  predicate Awaited(s: Sched, t: nat) {
    exists j :: j in s.joining && j in s.target && s.target[j] == t
  }

  predicate JoinedBetween(ops: seq<Op>, t: nat, from: nat, to: nat) {
    exists i :: from <= i < to && i < |ops| && ops[i] == OpJoin(t)
  }

  lemma NobodySelected(s: Sched)
    ensures Select(s.joining, Joiners(s.target, s.active)) == [] <==> !Awaited(s, s.active)
  {
    var who := Joiners(s.target, s.active);
    var joiners := Select(s.joining, who);
    if joiners != [] {
      InSelect(s.joining, who, joiners[0]);
    }
    if j :| j in s.joining && j in s.target && s.target[j] == s.active {
      InSelect(s.joining, who, j);
    }
  }

  lemma ExitLeaves(s: Sched, ret: int)
    requires Conserved(s) && Exit(s, ret).Next?
    ensures s.active in Exit(s, ret).s.zombie <==> !Awaited(s, s.active)
  {
    NotTwice(s, s.active);
    NobodySelected(s);
    hide Conserved, Awaited, Select, Drop, SetAll;
  }

  lemma ZombieStep(s: Sched, op: Op, t: nat)
    requires Conserved(s) && Proper(s, op) && Step(s, op, false).Next? && Gone(s, t)
    ensures t in Step(s, op, false).s.zombie <==> t in s.zombie && op != OpJoin(t)
  {
    NotTwice(s, t);
    hide Conserved, Step, Select, Drop, SetAll;
    if op.OpJoin? {
      InSelect(s.zombie, {op.t}, t);
      JoinTakes(s, op.t);
    } else if op.OpExit? {
      ExitAdds(s, op.ret);
    } else {
      ZombiesStay(s, op);
    }
  }

  lemma JoinTakes(s: Sched, t: nat)
    requires Join(s, t, false).Next?
    ensures Step(s, OpJoin(t), false) == Join(s, t, false) && Join(s, t, false).s.zombie == Drop(s.zombie, {t})
  {
    hide Select, Drop;
  }

  lemma ExitAdds(s: Sched, ret: int)
    requires Exit(s, ret).Next?
    ensures Step(s, OpExit(ret), false) == Exit(s, ret)
    ensures Exit(s, ret).s.zombie == s.zombie || Exit(s, ret).s.zombie == s.zombie + [s.active]
  {
    hide Select, Drop, SetAll;
  }

  lemma ZombiesStay(s: Sched, op: Op)
    requires Proper(s, op) && Step(s, op, false).Next? && !op.OpExit? && !op.OpJoin?
    ensures Step(s, op, false).s.zombie == s.zombie
  {
  }

  lemma {:induction false} ZombieUntilJoined(states: seq<Sched>, ops: seq<Op>, e: nat, k: nat)
    requires Run(states, ops, false) && Conserved(states[0]) && e < k < |states| && ops[e].OpExit?
    ensures var t := states[e].active;
            && Gone(states[k], t)
            && (t in states[k].zombie <==> !Awaited(states[e], t) && !JoinedBetween(ops, t, e + 1, k))
  {
    hide Conserved, Step, Proper, Gone, Awaited;
    var t := states[e].active;
    RunConserves(states, ops, k - 1);
    OneStep(states, ops, k);
    GoneBy(states[k - 1], ops[k - 1], t);
    if e < k - 1 {
      ZombieUntilJoined(states, ops, e, k - 1);
      ZombieStep(states[k - 1], ops[k - 1], t);
    } else {
      ExitIs(states[e], ops[e].ret);
      ExitLeaves(states[e], ops[e].ret);
    }
  }

  lemma ExitIs(s: Sched, ret: int)
    ensures Proper(s, OpExit(ret)) && Step(s, OpExit(ret), false) == Exit(s, ret)
  {
  }

  /**
   * A thread that has exited is joined once: `join` returns 0 to the first caller after the exit if
   * nobody was waiting then, and -1 to every further one; it returns -1 to all of them if somebody
   * was waiting. No such call suspends its caller.
   */
  lemma ExitedIsJoinedOnce(states: seq<Sched>, ops: seq<Op>, e: nat, k: nat)
    requires Run(states, ops, false) && Conserved(states[0]) && e < k < |states| && ops[e].OpExit?
    ensures var t := states[e].active;
            JoinRc(states[k], t) ==
            Some(if !Awaited(states[e], t) && !JoinedBetween(ops, t, e + 1, k) then 0 else -1)
  {
    ZombieUntilJoined(states, ops, e, k);
    RunConserves(states, ops, k);
    NotTwice(states[k], states[e].active);
    hide Conserved, Step, Proper, Awaited, JoinedBetween;
  }

  // ----- calls that do not go on -----

  /** The program ends when the last thread that could run exits or sleeps. */
  predicate Ends(s: Sched, op: Op) {
    s.exe == [] &&
    match op
    case OpExit(_) => !Awaited(s, s.active)
    case OpSleep(time) => time <= -10000 || 10000 <= time
    case _ => false
  }

  /** The caller would have to wait, and there is nobody to switch to. */
  predicate Starves(s: Sched, op: Op)
    requires Proper(s, op)
  {
    s.exe == [] &&
    match op
    case OpJoin(t) => JoinRc(s, t) == None
    case OpLock(m) => s.syncs[m].thr != None
    case OpWait(i) => s.syncs[i].sem.counter <= 0
    case OpMonitorWait(c) => s.syncs[s.syncs[c].mutex] == Mutex(Some(s.active), [])
    case _ => false
  }

  lemma OutcomeIff(s: Sched, op: Op)
    requires Proper(s, op)
    ensures Step(s, op, false) == Exited <==> Ends(s, op)
    ensures Step(s, op, false) == Crashed <==> Starves(s, op)
  {
    NobodySelected(s);
    if op.OpJoin? {
      InZombies(s, op.t);
    }
    hide Awaited, Select, Drop, SetAll;
  }

  // ----- sleep -----

  function TicksIn(ops: seq<Op>, k: nat): nat
    requires k <= |ops|
  {
    if k == 0 then 0 else TicksIn(ops, k - 1) + (if ops[k - 1] == OpTick then 1 else 0)
  }

  lemma {:induction false} ClockCounts(states: seq<Sched>, ops: seq<Op>, k: nat)
    requires Run(states, ops, false) && k < |states|
    ensures states[k].clock == states[0].clock + TicksIn(ops, k)
  {
    hide Step, Proper;
    if k > 0 {
      ClockCounts(states, ops, k - 1);
      OneStep(states, ops, k);
      TickCounts(states[k - 1], ops[k - 1]);
    }
  }

  lemma TickCounts(s: Sched, op: Op)
    requires Proper(s, op) && Step(s, op, false).Next?
    ensures Step(s, op, false).s.clock == s.clock + (if op == OpTick then 1 else 0)
  {
  }

  /** The run without its first call. */
  lemma RestOfRun(states: seq<Sched>, ops: seq<Op>)
    requires Run(states, ops, false) && ops != []
    ensures Run(states[1..], ops[1..], false)
  {
    hide Step, Proper;
    forall k | 0 <= k < |ops[1..]|
      ensures Proper(states[1..][k], ops[1..][k]) &&
              Step(states[1..][k], ops[1..][k], false) == Next(states[1..][k + 1])
    {
      OneStep(states, ops, k + 2);
    }
  }

  lemma FallsAsleep(s: Sched, time: int)
    requires Conserved(s) && time >= 10000 && Sleep(s, time).Next?
    ensures var s' := Sleep(s, time).s;
            && s.active in s'.sleep && s.active in s'.wake && s'.wake[s.active] == s.clock + time / 10000
            && s'.clock == s.clock
  {
  }

  /**
   * `sleep` for a tick or more: through `time / 10000` ticks, whatever else is called, the
   * thread is asleep, and with the last of them it can run.
   */
  lemma SleepsForItsTime(states: seq<Sched>, ops: seq<Op>, time: int, k: nat)
    requires Run(states, ops, false) && 0 < k < |states| && Conserved(states[0])
    requires ops[0] == OpSleep(time) && time >= 10000
    ensures var t, ticks := states[0].active, time / 10000;
            && (TicksIn(ops, k) < ticks ==> t in states[k].sleep && t != states[k].active && t !in states[k].exe)
            && (TicksIn(ops, k) == ticks && ops[k - 1] == OpTick ==> t !in states[k].sleep && t in states[k].exe)
  {
    var t, ticks := states[0].active, time / 10000;
    OneStep(states, ops, 1);
    FallsAsleep(states[0], time);
    RestOfRun(states, ops);
    RunConserves(states, ops, 1);
    RunConserves(states, ops, k);
    ClockCounts(states, ops, 1);
    ClockCounts(states, ops, k);
    NotTwice(states[k], t);
    NotTwice(states[k], states[k].active);
    hide Conserved, Step, Proper;
    if TicksIn(ops, k) < ticks {
      SleepsUntil(states[1..], ops[1..], k - 1, t);
    } else if TicksIn(ops, k) == ticks && ops[k - 1] == OpTick {
      ClockCounts(states, ops, k - 1);
      FirstIsNoTick(ops);
      WakesOnTime(states[1..], ops[1..], k - 2, t);
    }
  }

  lemma FirstIsNoTick(ops: seq<Op>)
    requires ops != [] && ops[0].OpSleep?
    ensures TicksIn(ops, 1) == 0
  {
  }

  /** A time of less than a tick, of either sign, is no sleep at all. */
  lemma ShortSleepReturns(s: Sched, time: int)
    ensures Sleep(s, time) == Next(s) <==> -10000 < time < 10000
  {
    if -10000 < time < 10000 {
      assert Ticks(time) == 0;
    } else {
      assert Ticks(time) != 0;
      if s.exe != [] {
        assert |Sleep(s, time).s.exe| < |s.exe|;
      }
    }
  }

  // ----- new threads -----

  /** A new thread becomes active with the switch that follows those of all threads executable before it. */
  lemma CreatedRunsInTurn(states: seq<Sched>, ops: seq<Op>, j: nat)
    requires Run(states, ops, false) && Conserved(states[0]) && 0 < j < |states| && ops[0] == OpCreate
    ensures Run(states[1..], ops[1..], false)
    ensures var t, n := states[0].created + 1, SwitchesOf(states[1..], ops[1..], j - 1);
            && Places(states[0], t) == 0
            && (n <= |states[0].exe| ==> states[j].active != t)
            && (n == |states[0].exe| + 1 ==> states[j].active == t)
  {
    OneStep(states, ops, 1);
    RestOfRun(states, ops);
    RunConserves(states, ops, 1);
    OnePlace(states[0], states[0].created + 1);
    CreatedLast(states[0]);
    hide Conserved, Step, Proper, Places;
    RunsInTurn(states[1..], ops[1..], |states[0].exe|, j - 1);
  }

  lemma CreatedLast(s: Sched)
    ensures Step(s, OpCreate, false).Next?
    ensures var exe := Step(s, OpCreate, false).s.exe;
            |s.exe| < |exe| && exe[|s.exe|] == s.created + 1
  {
  }

  // ----- semaphores -----

  predicate IsSem(s: Sched, i: nat) {
    i < |s.syncs| && s.syncs[i].Semaphore?
  }

  /** What a call does to semaphore `i`. */
  function SemOpOf(s: Sched, op: Op, i: nat): seq<SemOp> {
    match op
    case OpWait(j) => if j == i then [SemOpWait(s.active)] else []
    case OpPost(j) => if j == i then [SemOpPost] else []
    case _ => []
  }

  function SemOpsOf(states: seq<Sched>, ops: seq<Op>, i: nat, k: nat): seq<SemOp>
    requires k <= |ops| <= |states|
  {
    if k == 0 then [] else SemOpsOf(states, ops, i, k - 1) + SemOpOf(states[k - 1], ops[k - 1], i)
  }

  lemma SemStep(s: Sched, op: Op, i: nat)
    requires Proper(s, op) && Step(s, op, false).Next? && IsSem(s, i)
    ensures var s', sem := Step(s, op, false).s, s.syncs[i].sem;
            && IsSem(s', i)
            && s'.syncs[i].sem == (match op
                                   case OpWait(j) => if j == i then SemWait(sem, s.active).0 else sem
                                   case OpPost(j) => if j == i then SemPost(sem).0 else sem
                                   case _ => sem)
  {
    hide Create, Yield, Tick, Exit, Join, Sleep, Lock, Unlock, MonitorWait, Signalled, SemWait, SemPost;
    if i !in Touched(s, op) {
      Untouched(s, op, i);
    }
  }

  lemma CrossMore(initial: nat, ops: seq<SemOp>, op: SemOp)
    ensures CrossAll(initial, ops + [op]) == Cross(CrossAll(initial, ops), op)
  {
    assert (ops + [op])[..|ops|] == ops;
  }

  lemma {:induction false} SemaphoreIsCrossed(states: seq<Sched>, ops: seq<Op>, i: nat, initial: nat, k: nat)
    requires Run(states, ops, false) && k < |states|
    requires IsSem(states[0], i) && states[0].syncs[i].sem == Sem(initial, [])
    ensures IsSem(states[k], i)
    ensures states[k].syncs[i].sem == CrossAll(initial, SemOpsOf(states, ops, i, k)).s
  {
    hide Step, Proper;
    if k > 0 {
      SemaphoreIsCrossed(states, ops, i, initial, k - 1);
      OneStep(states, ops, k);
      SemStep(states[k - 1], ops[k - 1], i);
      var before, more := SemOpsOf(states, ops, i, k - 1), SemOpOf(states[k - 1], ops[k - 1], i);
      if more == [] {
        assert before + more == before;
      } else {
        CrossMore(initial, before, more[0]);
      }
    }
  }

  /**
   * In every run a semaphore lets its callers pass in their order, as many as it had units: with
   * fewer callers than units the rest is counted, otherwise those beyond wait, in their order.
   */
  lemma SemaphoreInOrder(states: seq<Sched>, ops: seq<Op>, i: nat, initial: nat, k: nat)
    requires Run(states, ops, false) && k < |states|
    requires IsSem(states[0], i) && states[0].syncs[i].sem == Sem(initial, [])
    ensures IsSem(states[k], i)
    ensures var done := SemOpsOf(states, ops, i, k);
            var came, units := Comers(done), initial + SemPosts(done);
            states[k].syncs[i].sem == if |came| <= units then Sem(units - |came|, []) else Sem(0, came[units..])
  {
    SemaphoreIsCrossed(states, ops, i, initial, k);
    PassInOrder(initial, SemOpsOf(states, ops, i, k));
  }

  /** A caller of `sem_wait` goes on exactly if there is a unit, and otherwise does not run. */
  lemma WaitBlocksIff(s: Sched, i: nat)
    requires Conserved(s) && IsSem(s, i) && Wait(s, i).Next?
    ensures var s' := Wait(s, i).s;
            && IsSem(s', i)
            && (s'.active == s.active <==> s.syncs[i].sem.counter > 0)
            && (s'.active != s.active ==> s.active in s'.syncs[i].sem.queue && s.active !in s'.exe)
  {
    NotTwice(s, s.active);
    hide Conserved;
  }

  /**
   * A thread leaves the queue of a semaphore exactly when it is the first there and `sem_post` is
   * called, and then it can run.
   */
  lemma LeavesSemaphoreIff(s: Sched, op: Op, i: nat, t: nat)
    requires Conserved(s) && Proper(s, op) && Step(s, op, false).Next? && IsSem(s, i) && t in s.syncs[i].sem.queue
    ensures var s' := Step(s, op, false).s;
            && IsSem(s', i)
            && (t !in s'.syncs[i].sem.queue <==> op == OpPost(i) && s.syncs[i].sem.queue[0] == t)
            && (t !in s'.syncs[i].sem.queue ==> t in s'.exe)
  {
    SemStep(s, op, i);
    if op == OpPost(i) {
      OnceInQueue(s, i, t);
      PostRuns(s, i);
    }
    hide Conserved, Step;
  }

  lemma OnceInQueue(s: Sched, i: nat, t: nat)
    requires Conserved(s) && IsSem(s, i) && s.syncs[i].sem.queue != []
    ensures var q := s.syncs[i].sem.queue;
            (t in q ==> t in q[1..] || t == q[0]) && q[0] !in q[1..]
  {
    var q := s.syncs[i].sem.queue;
    OnePlace(s, q[0]);
    WaitingUpdate(s.syncs, i, Semaphore(Sem(0, [])), q[0]);
    TimesFirst(q, q[0]);
    TimesIn(q[1..], q[0]);
    hide Conserved;
  }

  lemma PostRuns(s: Sched, i: nat)
    requires IsSem(s, i) && s.syncs[i].sem.queue != []
    ensures Step(s, OpPost(i), false).Next? && s.syncs[i].sem.queue[0] in Step(s, OpPost(i), false).s.exe
  {
  }

  // ----- mutexes -----

  /** The call gives mutex `m` up, if its caller owns it. */
  predicate Releases(s: Sched, op: Op, m: nat)
    requires Proper(s, op)
  {
    op == OpUnlock(m) || (op.OpMonitorWait? && s.syncs[op.c].mutex == m)
  }

  /**
   * Who owns a mutex after a call: a free one, the caller of `lock`; one that its owner gives up,
   * the thread that waited longest, or nobody if none did; otherwise whoever owned it before.
   */
  lemma OwnerAfter(s: Sched, op: Op, m: nat)
    requires Proper(s, op) && Step(s, op, false).Next? && IsMutex(s, m)
    ensures IsMutex(Step(s, op, false).s, m)
    ensures Step(s, op, false).s.syncs[m].thr ==
            if s.syncs[m].thr == None then if op == OpLock(m) then Some(s.active) else None
            else if s.syncs[m].thr == Some(s.active) && Releases(s, op, m) then
              if s.syncs[m].queue == [] then None else Some(s.syncs[m].queue[0])
            else s.syncs[m].thr
  {
    hide Create, Yield, Tick, Exit, Join, Sleep, Wait, Post, Signalled;
    if m !in Touched(s, op) {
      Untouched(s, op, m);
    } else {
      match op
      case OpMonitorWait(c) => OwnerAfterWait(s, c);
      case OpSignal(c) => if s.syncs[c].queue != [] { SignalledQueue(s, c, 1, m); }
      case OpSignalAll(c) => SignalledQueue(s, c, |s.syncs[c].queue|, m);
      case _ =>
    }
  }

  lemma OwnerAfterWait(s: Sched, c: nat)
    requires IsMonitor(s, c) && MonitorWait(s, c).Next?
    ensures var s', m := MonitorWait(s, c).s, s.syncs[c].mutex;
            && IsMutex(s', m)
            && s'.syncs[m].thr == (if s.syncs[m].thr != Some(s.active) then s.syncs[m].thr
                                   else if s.syncs[m].queue == [] then None
                                   else Some(s.syncs[m].queue[0]))
  {
  }

  /** `unlock` and the calls of a monitor do nothing for a thread that does not own the mutex. */
  lemma OnlyTheOwner(s: Sched, op: Op)
    requires Proper(s, op)
    ensures op.OpUnlock? && s.syncs[op.m].thr != Some(s.active) ==> Step(s, op, false) == Next(s)
    ensures (op.OpMonitorWait? || op.OpSignal? || op.OpSignalAll?) &&
            s.syncs[s.syncs[op.c].mutex].thr != Some(s.active) ==>
              Step(s, op, false) == Next(s)
  {
  }

  // ----- monitors -----

  /** The owner's `monitor_wait` puts it at the end of the queue. */
  function EntersMonitor(s: Sched, op: Op, c: nat): seq<nat>
    requires Proper(s, op) && IsMonitor(s, c)
  {
    if op == OpMonitorWait(c) && s.syncs[s.syncs[c].mutex].thr == Some(s.active) then [s.active] else []
  }

  /** `signal` takes the first waiter, `signalall` all. */
  function LeavesMonitor(s: Sched, op: Op, c: nat): seq<nat>
    requires Proper(s, op) && IsMonitor(s, c)
  {
    var q := s.syncs[c].queue;
    if s.syncs[s.syncs[c].mutex].thr != Some(s.active) then []
    else if op == OpSignal(c) && q != [] then [q[0]]
    else if op == OpSignalAll(c) then q
    else []
  }

  lemma MonitorQueueStep(s: Sched, op: Op, c: nat)
    requires Proper(s, op) && Step(s, op, false).Next? && IsMonitor(s, c)
    ensures var s' := Step(s, op, false).s;
            && IsMonitor(s', c) && s'.syncs[c].mutex == s.syncs[c].mutex
            && s.syncs[c].queue + EntersMonitor(s, op, c) == LeavesMonitor(s, op, c) + s'.syncs[c].queue
  {
    hide Step;
    var q := s.syncs[c].queue;
    assert q + [] == q && [] + q == q && q[|q|..] == [];
    QueueStep(s, op, s.syncs[c].mutex);
    if c !in Touched(s, op) {
      Untouched(s, op, c);
    } else {
      MonitorTouched(s, op, c);
    }
  }

  lemma MonitorTouched(s: Sched, op: Op, c: nat)
    requires Proper(s, op) && Step(s, op, false).Next? && IsMonitor(s, c) && c in Touched(s, op)
    ensures var s' := Step(s, op, false).s;
            && c < |s'.syncs| && s'.syncs[c].Monitor? && s'.syncs[c].mutex == s.syncs[c].mutex
            && s.syncs[c].queue + EntersMonitor(s, op, c) == LeavesMonitor(s, op, c) + s'.syncs[c].queue
  {
    hide Create, Yield, Tick, Exit, Join, Sleep, Lock, Unlock, Wait, Post, Signalled, MonitorWait;
    var q := s.syncs[c].queue;
    assert q + [] == q && [] + q == q && q[|q|..] == [] && (q != [] ==> q == [q[0]] + q[1..]);
    match op
    case OpMonitorWait(d) => EnteredQueue(s, c);
    case OpSignal(d) =>
      assert d == c;
      if q != [] {
        SignalledQueue(s, c, 1, s.syncs[c].mutex);
      }
    case OpSignalAll(d) =>
      assert d == c;
      SignalledQueue(s, c, |q|, s.syncs[c].mutex);
    case _ =>
  }

  lemma EnteredQueue(s: Sched, c: nat)
    requires IsMonitor(s, c) && MonitorWait(s, c).Next?
    ensures var s' := MonitorWait(s, c).s;
            && c < |s'.syncs| && s'.syncs[c].Monitor? && s'.syncs[c].mutex == s.syncs[c].mutex
            && s'.syncs[c].queue == s.syncs[c].queue + EntersMonitor(s, OpMonitorWait(c), c)
  {
    hide Unlock;
    assert s.syncs[c].queue + [] == s.syncs[c].queue;
    UnlockElsewhere(Enter(s, c), s.syncs[c].mutex, c);
  }

  lemma {:induction false} StaysMonitor(states: seq<Sched>, ops: seq<Op>, c: nat, k: nat)
    requires Run(states, ops, false) && IsMonitor(states[0], c) && k < |states|
    ensures IsMonitor(states[k], c)
  {
    hide Step, IsMonitor, Proper;
    if k > 0 {
      StaysMonitor(states, ops, c, k - 1);
      OneStep(states, ops, k);
      MonitorQueueStep(states[k - 1], ops[k - 1], c);
    }
  }

  function EnteredBy(states: seq<Sched>, ops: seq<Op>, c: nat, k: nat): seq<nat>
    requires Run(states, ops, false) && k <= |ops| && forall i | 0 <= i < |states| :: IsMonitor(states[i], c)
  {
    if k == 0 then [] else EnteredBy(states, ops, c, k - 1) + EntersMonitor(states[k - 1], ops[k - 1], c)
  }

  function SignalledBy(states: seq<Sched>, ops: seq<Op>, c: nat, k: nat): seq<nat>
    requires Run(states, ops, false) && k <= |ops| && forall i | 0 <= i < |states| :: IsMonitor(states[i], c)
  {
    if k == 0 then [] else SignalledBy(states, ops, c, k - 1) + LeavesMonitor(states[k - 1], ops[k - 1], c)
  }

  /** Waiters of a monitor are signalled in the order in which they began to wait. */
  lemma {:induction false} MonitorInOrder(states: seq<Sched>, ops: seq<Op>, c: nat, k: nat)
    requires Run(states, ops, false) && IsMonitor(states[0], c) && k <= |ops|
    ensures forall i | 0 <= i < |states| :: IsMonitor(states[i], c)
    ensures states[0].syncs[c].queue + EnteredBy(states, ops, c, k) ==
            SignalledBy(states, ops, c, k) + states[k].syncs[c].queue
  {
    hide Step, Proper, EntersMonitor, LeavesMonitor;
    forall i | 0 <= i < |states| ensures IsMonitor(states[i], c) {
      StaysMonitor(states, ops, c, i);
    }
    if k > 0 {
      MonitorInOrder(states, ops, c, k - 1);
      OneStep(states, ops, k);
      MonitorQueueStep(states[k - 1], ops[k - 1], c);
      Chain(states[0].syncs[c].queue, EnteredBy(states, ops, c, k - 1), EntersMonitor(states[k - 1], ops[k - 1], c),
            SignalledBy(states, ops, c, k - 1), states[k - 1].syncs[c].queue,
            LeavesMonitor(states[k - 1], ops[k - 1], c), states[k].syncs[c].queue);
    }
  }

  // ----- threads that are let on together -----

  ghost predicate Before(q: seq<nat>, x: nat, y: nat) {
    exists i, j :: 0 <= i < j < |q| && q[i] == x && q[j] == y
  }

  lemma BeforeBehind(a: seq<nat>, q: seq<nat>, x: nat, y: nat)
    requires Before(q, x, y)
    ensures Before(a + q, x, y)
  {
    var i, j :| 0 <= i < j < |q| && q[i] == x && q[j] == y;
    assert (a + q)[|a| + i] == x && (a + q)[|a| + j] == y;
  }

  lemma {:induction false} SelectKeepsOrder(q: seq<nat>, who: set<nat>, x: nat, y: nat)
    requires Before(q, x, y) && x in who && y in who
    ensures Before(Select(q, who), x, y)
  {
    var rest := Select(q[1..], who);
    var i, j :| 0 <= i < j < |q| && q[i] == x && q[j] == y;
    if i > 0 {
      assert q[1..][i - 1] == x && q[1..][j - 1] == y;
      SelectKeepsOrder(q[1..], who, x, y);
      BeforeBehind(if q[0] in who then [q[0]] else [], rest, x, y);
    } else {
      assert q[1..][j - 1] == y;
      InSelect(q[1..], who, y);
      var k :| 0 <= k < |rest| && rest[k] == y;
      assert ([x] + rest)[0] == x && ([x] + rest)[k + 1] == y;
    }
  }

  /** Who goes to sleep or waits in `join` comes behind all who did so before. */
  lemma ComesLast(s: Sched, op: Op, x: nat)
    requires Proper(s, op) && Step(s, op, false).Next?
    ensures var s' := Step(s, op, false).s;
            && (op.OpSleep? && s'.sleep != s.sleep && x in s.sleep ==> Before(s'.sleep, x, s.active))
            && (op.OpJoin? && s'.joining != s.joining && x in s.joining ==> Before(s'.joining, x, s.active))
  {
    hide Select, Drop;
    if op.OpSleep? && x in s.sleep {
      AtEnd(s.sleep, x, s.active);
    } else if op.OpJoin? && x in s.joining {
      AtEnd(s.joining, x, s.active);
    }
  }

  lemma AtEnd(q: seq<nat>, x: nat, y: nat)
    requires x in q
    ensures Before(q + [y], x, y)
  {
    var i :| 0 <= i < |q| && q[i] == x;
    assert (q + [y])[i] == x && (q + [y])[|q|] == y;
  }

  /** Sleepers that one tick wakes, and joiners that one exit releases, run in the order in which they came. */
  lemma LetOnInOrder(s: Sched, op: Op, x: nat, y: nat)
    requires Proper(s, op) && Step(s, op, false).Next?
    ensures var s' := Step(s, op, false).s;
            && (op == OpTick && Before(s.sleep, x, y) && x in s.wake && y in s.wake &&
                s.wake[x] == s.wake[y] == s'.clock ==>
                  Before(s'.exe, x, y))
            && (op.OpExit? && Before(s.joining, x, y) && x in s.target && y in s.target &&
                s.target[x] == s.target[y] == s.active ==>
                  Before([s'.active] + s'.exe, x, y))
  {
    hide Step, Before;
    if op == OpTick && Before(s.sleep, x, y) {
      TickInOrder(s, x, y);
    } else if op.OpExit? && Before(s.joining, x, y) {
      ExitInOrder(s, op.ret, x, y);
    }
  }

  lemma TickInOrder(s: Sched, x: nat, y: nat)
    requires Before(s.sleep, x, y)
    ensures Step(s, OpTick, false).Next?
    ensures var s' := Step(s, OpTick, false).s;
            x in s.wake && y in s.wake && s.wake[x] == s.wake[y] == s'.clock ==> Before(s'.exe, x, y)
  {
    hide Select, Drop, Before;
    var due := Due(s.wake, s.clock + 1);
    if x in due && y in due {
      SelectKeepsOrder(s.sleep, due, x, y);
      BeforeBehind(s.exe, Select(s.sleep, due), x, y);
    }
  }

  lemma ExitExe(s: Sched, ret: int)
    requires Step(s, OpExit(ret), false).Next?
    ensures var s' := Step(s, OpExit(ret), false).s;
            [s'.active] + s'.exe == s.exe + Select(s.joining, Joiners(s.target, s.active))
  {
    hide Select, Drop, SetAll;
  }

  lemma ExitInOrder(s: Sched, ret: int, x: nat, y: nat)
    requires Before(s.joining, x, y) && Step(s, OpExit(ret), false).Next?
    ensures var s' := Step(s, OpExit(ret), false).s;
            x in s.target && y in s.target && s.target[x] == s.target[y] == s.active ==>
              Before([s'.active] + s'.exe, x, y)
  {
    hide Step, Select, Before;
    var who := Joiners(s.target, s.active);
    if x in who && y in who {
      ExitExe(s, ret);
      SelectKeepsOrder(s.joining, who, x, y);
      BeforeBehind(s.exe, Select(s.joining, who), x, y);
    }
  }
}
