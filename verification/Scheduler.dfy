/**
 * The scheduler and the blocking primitives of sthread_lib/sthread_user.c. Every call is made by
 * the active thread; where the source goes astray the call has two forms, as coded and as meant.
 */
module Scheduler {
  import opened Base
  import opened Semaphores

  const CLOCK_TICK := 10000

  /** A synchronisation object with the queue of the threads blocked on it. */
  datatype Sync =
    | Mutex(thr: Option<nat>, queue: seq<nat>)
    | Semaphore(sem: Sem)
    | Monitor(mutex: nat, queue: seq<nat>)

  function QueueOf(y: Sync): seq<nat> {
    match y
    case Mutex(_, queue) => queue
    case Semaphore(sem) => sem.queue
    case Monitor(_, queue) => queue
  }

  /** The thread lists, and of the threads their wake time, the thread they join and `join_ret`. */
  datatype Sched = Sched(
    clock: int,
    created: nat,
    active: nat,
    exe: seq<nat>,
    sleep: seq<nat>,
    joining: seq<nat>,
    zombie: seq<nat>,
    dead: seq<nat>,
    syncs: seq<Sync>,
    wake: map<nat, int>,
    target: map<nat, nat>,
    ret: map<nat, int>)

  /**
   * A call goes on with the next thread, ends the program when nobody is left to run, or follows
   * the null pointer at the end of an empty list.
   */
  datatype Result = Next(s: Sched) | Exited | Crashed

  /** `sthread_user_init`, with some synchronisation objects nobody waits for. */
  function Init(syncs: seq<Sync>): Sched {
    Sched(1, 1, 1, [], [], [], [], [], syncs, map[], map[], map[])
  }

  /** The threads of `q` that are in `who`, and those that are not. */
  function Select(q: seq<nat>, who: set<nat>): (r: seq<nat>)
    ensures forall t | t in r :: t in q && t in who
  {
    if q == [] then [] else (if q[0] in who then [q[0]] else []) + Select(q[1..], who)
  }

  function Drop(q: seq<nat>, who: set<nat>): (r: seq<nat>)
    ensures forall t | t in r :: t in q && t !in who
  {
    if q == [] then [] else (if q[0] in who then [] else [q[0]]) + Drop(q[1..], who)
  }

  /** The first executable thread becomes active. */
  function Switch(s: Sched): Result {
    if s.exe == [] then Crashed else Next(s.(active := s.exe[0], exe := s.exe[1..]))
  }

  // ----- creating and scheduling -----

  function Create(s: Sched): Sched {
    s.(created := s.created + 1, exe := s.exe + [s.created + 1])
  }

  /** The `qsort` of the source sorts no element. */
  function Yield(s: Sched): Result {
    Switch(s.(exe := s.exe + [s.active]))
  }

  /** The threads whose wake time is `now`. */
  function Due(wake: map<nat, int>, now: int): set<nat> {
    set t | t in wake && wake[t] == now
  }

  /** One clock tick of the dispatcher. */
  function Tick(s: Sched): Sched {
    var due := Due(s.wake, s.clock + 1);
    s.(clock := s.clock + 1, exe := s.exe + Select(s.sleep, due), sleep := Drop(s.sleep, due))
  }

  /** The threads that wait for `t`. */
  function Joiners(target: map<nat, nat>, t: nat): set<nat> {
    set j | j in target && target[j] == t
  }

  function SetAll(m: map<nat, int>, q: seq<nat>, v: int): map<nat, int>
    decreases |q|
  {
    if q == [] then m else SetAll(m[q[0] := v], q[1..], v)
  }

  /** `exit` up to the switch: the threads that join the active one go on. */
  function Leave(s: Sched, ret: int): Sched {
    var joiners := Select(s.joining, Joiners(s.target, s.active));
    s.(joining := Drop(s.joining, Joiners(s.target, s.active)),
       exe := s.exe + joiners,
       ret := SetAll(s.ret, joiners, ret),
       zombie := if joiners == [] then s.zombie + [s.active] else s.zombie,
       dead := if joiners == [] then s.dead else s.dead + [s.active])
  }

  function Exit(s: Sched, ret: int): Result {
    if Leave(s, ret).exe == [] then Exited else Switch(Leave(s, ret))
  }

  // ----- join and sleep -----

  /** The target is among the threads that `join` looks at. */
  predicate Findable(s: Sched, t: nat) {
    t == s.active || t in s.exe || t in s.sleep || t in s.joining
  }

  /**
   * `sthread_user_join`. The loop over the zombies is meant to put each of them back, but puts
   * `t` in the place of every one.
   */
  function Join(s: Sched, t: nat, asCoded: bool): Result {
    var found := Select(s.zombie, {t});
    var others := Drop(s.zombie, {t});
    var s' := s.(dead := s.dead + found, zombie := if asCoded then seq(|others|, _ => t) else others);
    if found != [] then Next(s')
    else if !Findable(s, t) then Next(s')
    else Switch(s'.(target := s.target[s.active := t], joining := s.joining + [s.active]))
  }

  /** What `join` returns if it returns at once. */
  function JoinRc(s: Sched, t: nat): Option<int> {
    if t in s.zombie then Some(0) else if !Findable(s, t) then Some(-1) else None
  }

  /** Division truncates towards zero. */
  function Ticks(time: int): int {
    if time >= 0 then time / CLOCK_TICK else -(-time / CLOCK_TICK)
  }

  function Sleep(s: Sched, time: int): Result {
    if Ticks(time) == 0 then Next(s)
    else
      var s' := s.(wake := s.wake[s.active := s.clock + Ticks(time)], sleep := s.sleep + [s.active]);
      if s.exe == [] then Exited else Switch(s')
  }

  // ----- mutexes, semaphores and monitors -----

  predicate IsMutex(s: Sched, m: nat) {
    m < |s.syncs| && s.syncs[m].Mutex?
  }

  predicate IsMonitor(s: Sched, c: nat) {
    c < |s.syncs| && s.syncs[c].Monitor? && IsMutex(s, s.syncs[c].mutex)
  }

  /** `mutex_lock`; as coded a blocked thread stays executable. */
  function Lock(s: Sched, m: nat, asCoded: bool): Result
    requires IsMutex(s, m)
  {
    var x := s.syncs[m];
    if x.thr == None then Next(s.(syncs := s.syncs[m := Mutex(Some(s.active), x.queue)]))
    else
      Switch(s.(syncs := s.syncs[m := Mutex(x.thr, x.queue + [s.active])],
                exe := if asCoded then s.exe + [s.active] else s.exe))
  }

  /** `mutex_unlock`, by the owner only, hands the mutex to the thread that waited longest. */
  function Unlock(s: Sched, m: nat): Sched
    requires IsMutex(s, m)
  {
    var x := s.syncs[m];
    if x.thr != Some(s.active) then s
    else if x.queue == [] then s.(syncs := s.syncs[m := Mutex(None, x.queue)])
    else s.(syncs := s.syncs[m := Mutex(Some(x.queue[0]), x.queue[1..])], exe := s.exe + [x.queue[0]])
  }

  function Wait(s: Sched, i: nat): Result
    requires i < |s.syncs| && s.syncs[i].Semaphore?
  {
    var (sem, blocked) := SemWait(s.syncs[i].sem, s.active);
    var s' := s.(syncs := s.syncs[i := Semaphore(sem)]);
    if blocked then Switch(s') else Next(s')
  }

  function Post(s: Sched, i: nat): Sched
    requires i < |s.syncs| && s.syncs[i].Semaphore?
  {
    var (sem, woken) := SemPost(s.syncs[i].sem);
    s.(syncs := s.syncs[i := Semaphore(sem)], exe := if woken.Some? then s.exe + [woken.value] else s.exe)
  }

  function MonitorWait(s: Sched, c: nat): Result
    requires IsMonitor(s, c)
  {
    var y := s.syncs[c];
    if s.syncs[y.mutex].thr != Some(s.active) then Next(s)
    else Switch(Unlock(s.(syncs := s.syncs[c := Monitor(y.mutex, y.queue + [s.active])]), y.mutex))
  }

  /** The first `k` waiters of the monitor move to the queue of its mutex. */
  function Signalled(s: Sched, c: nat, k: nat): Sched
    requires IsMonitor(s, c) && k <= |s.syncs[c].queue|
  {
    var y := s.syncs[c];
    var x := s.syncs[y.mutex];
    s.(syncs := s.syncs[c := Monitor(y.mutex, y.queue[k..])][y.mutex := Mutex(x.thr, x.queue + y.queue[..k])])
  }

  function Signal(s: Sched, c: nat): Sched
    requires IsMonitor(s, c)
  {
    var y := s.syncs[c];
    if s.syncs[y.mutex].thr != Some(s.active) || y.queue == [] then s else Signalled(s, c, 1)
  }

  function SignalAll(s: Sched, c: nat): Sched
    requires IsMonitor(s, c)
  {
    var y := s.syncs[c];
    if s.syncs[y.mutex].thr != Some(s.active) then s else Signalled(s, c, |y.queue|)
  }

  // ----- runs -----

  datatype Op =
    | OpCreate
    | OpYield
    | OpTick
    | OpExit(ret: int)
    | OpJoin(t: nat)
    | OpSleep(time: int)
    | OpLock(m: nat)
    | OpUnlock(m: nat)
    | OpWait(i: nat)
    | OpPost(i: nat)
    | OpMonitorWait(c: nat)
    | OpSignal(c: nat)
    | OpSignalAll(c: nat)

  /** The call names an object of its kind. */
  predicate Proper(s: Sched, op: Op) {
    match op
    case OpLock(m) => IsMutex(s, m)
    case OpUnlock(m) => IsMutex(s, m)
    case OpWait(i) => i < |s.syncs| && s.syncs[i].Semaphore?
    case OpPost(i) => i < |s.syncs| && s.syncs[i].Semaphore?
    case OpMonitorWait(c) => IsMonitor(s, c)
    case OpSignal(c) => IsMonitor(s, c)
    case OpSignalAll(c) => IsMonitor(s, c)
    case _ => true
  }

  /** One call of the active thread. */
  function Step(s: Sched, op: Op, asCoded: bool): Result
    requires Proper(s, op)
  {
    match op
    case OpCreate => Next(Create(s))
    case OpYield => Yield(s)
    case OpTick => Next(Tick(s))
    case OpExit(ret) => Exit(s, ret)
    case OpJoin(t) => Join(s, t, asCoded)
    case OpSleep(time) => Sleep(s, time)
    case OpLock(m) => Lock(s, m, asCoded)
    case OpUnlock(m) => Next(Unlock(s, m))
    case OpWait(i) => Wait(s, i)
    case OpPost(i) => Next(Post(s, i))
    case OpMonitorWait(c) => MonitorWait(s, c)
    case OpSignal(c) => Next(Signal(s, c))
    case OpSignalAll(c) => Next(SignalAll(s, c))
  }

  /** The states that a run of calls goes through, the first one included. */
  predicate Run(states: seq<Sched>, ops: seq<Op>, asCoded: bool) {
    && |states| == |ops| + 1
    && forall k | 0 <= k < |ops| :: Proper(states[k], ops[k]) && Step(states[k], ops[k], asCoded) == Next(states[k + 1])
  }

  // ----- conservation -----

  function Times(q: seq<nat>, t: nat): nat {
    multiset(q)[t]
  }

  function Waiting(syncs: seq<Sync>, t: nat): nat {
    if syncs == [] then 0 else Waiting(syncs[..|syncs| - 1], t) + Times(QueueOf(syncs[|syncs| - 1]), t)
  }

  function IsActive(s: Sched, t: nat): nat {
    if s.active == t then 1 else 0
  }

  /** In how many places thread `t` is. */
  function Places(s: Sched, t: nat): nat {
    IsActive(s, t) + Times(s.exe, t) + Times(s.sleep, t) + Times(s.joining, t) + Times(s.zombie, t) + Times(s.dead, t) +
    Waiting(s.syncs, t)
  }

  /** Each created thread is in exactly one place, and there is no other thread. */
  ghost predicate Conserved(s: Sched) {
    forall t: nat :: Places(s, t) == if 1 <= t <= s.created then 1 else 0
  }

  lemma TimesIn(q: seq<nat>, t: nat)
    ensures Times(q, t) > 0 <==> t in q
  {
    assert t in multiset(q) <==> t in q;
  }

  lemma TimesAppend(a: seq<nat>, b: seq<nat>, t: nat)
    ensures Times(a + b, t) == Times(a, t) + Times(b, t)
  {
  }

  lemma TimesOne(x: nat, t: nat)
    ensures Times([x], t) == if x == t then 1 else 0
  {
  }

  lemma TimesFirst(q: seq<nat>, t: nat)
    requires q != []
    ensures Times(q, t) == Times(q[1..], t) + (if q[0] == t then 1 else 0)
  {
    assert q == [q[0]] + q[1..];
    TimesAppend([q[0]], q[1..], t);
    TimesOne(q[0], t);
  }

  lemma TimesSplit(q: seq<nat>, k: nat, t: nat)
    requires k <= |q|
    ensures Times(q, t) == Times(q[..k], t) + Times(q[k..], t)
  {
    assert q == q[..k] + q[k..];
    TimesAppend(q[..k], q[k..], t);
  }

  lemma TimesAdded(q: seq<nat>, x: nat, t: nat)
    ensures Times(q + [x], t) == Times(q, t) + (if x == t then 1 else 0)
  {
    TimesAppend(q, [x], t);
    TimesOne(x, t);
  }

  lemma {:induction false} TimesSelect(q: seq<nat>, who: set<nat>, t: nat)
    ensures Times(Select(q, who), t) == (if t in who then Times(q, t) else 0)
    ensures Times(Drop(q, who), t) == (if t in who then 0 else Times(q, t))
  {
    if q != [] {
      TimesSelect(q[1..], who, t);
      TimesFirst(q, t);
      TimesAppend(if q[0] in who then [q[0]] else [], Select(q[1..], who), t);
      TimesAppend(if q[0] in who then [] else [q[0]], Drop(q[1..], who), t);
      TimesOne(q[0], t);
    }
  }

  lemma {:induction false} WaitingUpdate(syncs: seq<Sync>, i: nat, y: Sync, t: nat)
    requires i < |syncs|
    ensures Waiting(syncs[i := y], t) == Waiting(syncs, t) - Times(QueueOf(syncs[i]), t) + Times(QueueOf(y), t)
    ensures Waiting(syncs, t) >= Times(QueueOf(syncs[i]), t)
  {
    hide Times, QueueOf;
    var k := |syncs| - 1;
    if i < k {
      assert syncs[i := y][..k] == syncs[..k][i := y];
      WaitingUpdate(syncs[..k], i, y, t);
    } else {
      assert syncs[i := y][..k] == syncs[..k];
    }
  }

  /** The switch takes the active thread out of all places but the one it was put in before. */
  lemma SwitchPlaces(s: Sched, t: nat)
    requires s.exe != []
    ensures Places(Switch(s).s, t) == Places(s, t) - IsActive(s, t)
  {
    hide Times;
    TimesFirst(s.exe, t);
  }

  lemma LeavePlaces(s: Sched, ret: int, t: nat)
    ensures Places(Leave(s, ret), t) == Places(s, t) + IsActive(s, t)
  {
    hide Times;
    var who := Joiners(s.target, s.active);
    TimesSelect(s.joining, who, t);
    TimesAppend(s.exe, Select(s.joining, who), t);
    TimesAdded(s.zombie, s.active, t);
    TimesAdded(s.dead, s.active, t);
  }

  lemma TickPlaces(s: Sched, t: nat)
    ensures Places(Tick(s), t) == Places(s, t)
  {
    hide Times;
    var due := Due(s.wake, s.clock + 1);
    TimesSelect(s.sleep, due, t);
    TimesAppend(s.exe, Select(s.sleep, due), t);
  }

  lemma JoinPlaces(s: Sched, target: nat, t: nat)
    ensures Join(s, target, false).Next? ==> Places(Join(s, target, false).s, t) == Places(s, t)
  {
    hide Times;
    TimesSelect(s.zombie, {target}, t);
    TimesAppend(s.dead, Select(s.zombie, {target}), t);
    TimesAdded(s.joining, s.active, t);
    if s.exe != [] {
      TimesFirst(s.exe, t);
    }
  }

  lemma LockPlaces(s: Sched, m: nat, t: nat)
    requires IsMutex(s, m)
    ensures Lock(s, m, false).Next? ==> Places(Lock(s, m, false).s, t) == Places(s, t)
  {
    hide Times;
    var x := s.syncs[m];
    TimesAdded(x.queue, s.active, t);
    WaitingUpdate(s.syncs, m, Mutex(Some(s.active), x.queue), t);
    WaitingUpdate(s.syncs, m, Mutex(x.thr, x.queue + [s.active]), t);
    if s.exe != [] {
      TimesFirst(s.exe, t);
    }
  }

  lemma UnlockPlaces(s: Sched, m: nat, t: nat)
    requires IsMutex(s, m)
    ensures Places(Unlock(s, m), t) == Places(s, t)
  {
    hide Times;
    var x := s.syncs[m];
    if x.queue == [] {
      WaitingUpdate(s.syncs, m, Mutex(None, x.queue), t);
    } else {
      TimesFirst(x.queue, t);
      TimesAdded(s.exe, x.queue[0], t);
      WaitingUpdate(s.syncs, m, Mutex(Some(x.queue[0]), x.queue[1..]), t);
    }
  }

  lemma WaitPlaces(s: Sched, i: nat, t: nat)
    requires i < |s.syncs| && s.syncs[i].Semaphore?
    ensures Wait(s, i).Next? ==> Places(Wait(s, i).s, t) == Places(s, t)
  {
    hide Times;
    TimesAdded(s.syncs[i].sem.queue, s.active, t);
    WaitingUpdate(s.syncs, i, Semaphore(SemWait(s.syncs[i].sem, s.active).0), t);
    if s.exe != [] {
      TimesFirst(s.exe, t);
    }
  }

  lemma PostPlaces(s: Sched, i: nat, t: nat)
    requires i < |s.syncs| && s.syncs[i].Semaphore?
    ensures Places(Post(s, i), t) == Places(s, t)
  {
    hide Times;
    var sem := s.syncs[i].sem;
    WaitingUpdate(s.syncs, i, Semaphore(SemPost(sem).0), t);
    if sem.queue != [] {
      TimesFirst(sem.queue, t);
      TimesAdded(s.exe, sem.queue[0], t);
    }
  }

  /** `monitor_wait` by the owner, up to the switch. */
  function Enter(s: Sched, c: nat): Sched
    requires IsMonitor(s, c)
  {
    s.(syncs := s.syncs[c := Monitor(s.syncs[c].mutex, s.syncs[c].queue + [s.active])])
  }

  lemma MonitorWaitPlaces(s: Sched, c: nat, t: nat)
    requires IsMonitor(s, c)
    ensures MonitorWait(s, c).Next? ==> Places(MonitorWait(s, c).s, t) == Places(s, t)
  {
    hide Times, Places, Unlock;
    if s.syncs[s.syncs[c].mutex].thr == Some(s.active) {
      EnterPlaces(s, c, t);
      UnlockPlaces(Enter(s, c), s.syncs[c].mutex, t);
      UnlockKeeps(Enter(s, c), s.syncs[c].mutex);
      if Unlock(Enter(s, c), s.syncs[c].mutex).exe != [] {
        SwitchPlaces(Unlock(Enter(s, c), s.syncs[c].mutex), t);
      }
    }
  }

  lemma EnterPlaces(s: Sched, c: nat, t: nat)
    requires IsMonitor(s, c)
    ensures Places(Enter(s, c), t) == Places(s, t) + IsActive(s, t)
  {
    hide Times;
    var y := s.syncs[c];
    TimesAdded(y.queue, s.active, t);
    WaitingUpdate(s.syncs, c, Monitor(y.mutex, y.queue + [s.active]), t);
  }

  lemma UnlockKeeps(s: Sched, m: nat)
    requires IsMutex(s, m)
    ensures Unlock(s, m).active == s.active && Unlock(s, m).created == s.created && |Unlock(s, m).syncs| == |s.syncs|
  {
  }

  lemma SignalledPlaces(s: Sched, c: nat, k: nat, t: nat)
    requires IsMonitor(s, c) && k <= |s.syncs[c].queue|
    ensures Places(Signalled(s, c, k), t) == Places(s, t)
  {
    hide Times;
    var y := s.syncs[c];
    var x := s.syncs[y.mutex];
    TimesSplit(y.queue, k, t);
    TimesAppend(x.queue, y.queue[..k], t);
    WaitingUpdate(s.syncs, c, Monitor(y.mutex, y.queue[k..]), t);
    WaitingUpdate(s.syncs[c := Monitor(y.mutex, y.queue[k..])], y.mutex, Mutex(x.thr, x.queue + y.queue[..k]), t);
  }

  lemma CreatePlaces(s: Sched, t: nat)
    ensures Places(Create(s), t) == Places(s, t) + (if t == s.created + 1 then 1 else 0)
  {
    hide Times;
    TimesAdded(s.exe, s.created + 1, t);
  }

  lemma YieldPlaces(s: Sched, t: nat)
    ensures Yield(s).Next? && Places(Yield(s).s, t) == Places(s, t)
  {
    hide Times;
    TimesAdded(s.exe, s.active, t);
    SwitchPlaces(s.(exe := s.exe + [s.active]), t);
  }

  lemma ExitPlaces(s: Sched, ret: int, t: nat)
    ensures Exit(s, ret) != Crashed
    ensures Exit(s, ret).Next? ==> Places(Exit(s, ret).s, t) == Places(s, t)
  {
    hide Times, Places;
    LeavePlaces(s, ret, t);
    if Leave(s, ret).exe != [] {
      SwitchPlaces(Leave(s, ret), t);
    }
  }

  lemma SleepPlaces(s: Sched, time: int, t: nat)
    ensures Sleep(s, time) != Crashed
    ensures Sleep(s, time).Next? ==> Places(Sleep(s, time).s, t) == Places(s, t)
  {
    hide Times;
    TimesAdded(s.sleep, s.active, t);
    if s.exe != [] {
      TimesFirst(s.exe, t);
    }
  }

  lemma StepPlaces(s: Sched, op: Op, t: nat)
    requires Proper(s, op) && Step(s, op, false).Next?
    ensures var s' := Step(s, op, false).s;
            Places(s', t) == Places(s, t) + (if op == OpCreate && t == s.created + 1 then 1 else 0)
  {
    hide Places, Create, Yield, Tick, Exit, Join, Sleep, Lock, Unlock, Wait, Post, MonitorWait, Signalled;
    match op
    case OpCreate => CreatePlaces(s, t);
    case OpYield => YieldPlaces(s, t);
    case OpTick => TickPlaces(s, t);
    case OpExit(ret) => ExitPlaces(s, ret, t);
    case OpJoin(target) => JoinPlaces(s, target, t);
    case OpSleep(time) => SleepPlaces(s, time, t);
    case OpLock(m) => LockPlaces(s, m, t);
    case OpUnlock(m) => UnlockPlaces(s, m, t);
    case OpWait(i) => WaitPlaces(s, i, t);
    case OpPost(i) => PostPlaces(s, i, t);
    case OpMonitorWait(c) => MonitorWaitPlaces(s, c, t);
    case OpSignal(c) => if s.syncs[c].queue != [] { SignalledPlaces(s, c, 1, t); }
    case OpSignalAll(c) => SignalledPlaces(s, c, |s.syncs[c].queue|, t);
  }

  lemma StepCreates(s: Sched, op: Op)
    requires Proper(s, op) && Step(s, op, false).Next?
    ensures Step(s, op, false).s.created == s.created + (if op == OpCreate then 1 else 0)
  {
  }

  /** Every call as it is meant leaves each thread in exactly one place. */
  lemma StepConserves(s: Sched, op: Op)
    requires Conserved(s) && Proper(s, op) && Step(s, op, false).Next?
    ensures Conserved(Step(s, op, false).s)
  {
    hide Places, Step;
    StepCreates(s, op);
    forall t: nat
      ensures Places(Step(s, op, false).s, t) == if 1 <= t <= Step(s, op, false).s.created then 1 else 0
    {
      StepPlaces(s, op, t);
    }
  }

  lemma {:induction false} NobodyWaits(syncs: seq<Sync>, t: nat)
    requires forall i | 0 <= i < |syncs| :: QueueOf(syncs[i]) == []
    ensures Waiting(syncs, t) == 0
  {
    if syncs != [] {
      NobodyWaits(syncs[..|syncs| - 1], t);
    }
  }

  lemma InitConserves(syncs: seq<Sync>)
    requires forall i | 0 <= i < |syncs| :: QueueOf(syncs[i]) == []
    ensures Conserved(Init(syncs))
  {
    forall t: nat ensures Places(Init(syncs), t) == if 1 <= t <= 1 then 1 else 0 {
      NobodyWaits(syncs, t);
    }
  }
}
