/**
 * What runs of the scheduler keep: no thread is lost, joins and sleeps end when they should, mutexes
 * go from hand to hand.
 */
module ThreadTheorems {
  import opened Base
  import opened Semaphores
  import opened Scheduler

  // ----- conservation -----

  /** In every state of every run, as the calls are meant, each created thread is in exactly one place. */
  lemma {:induction false} RunConserves(states: seq<Sched>, ops: seq<Op>, k: nat)
    requires Run(states, ops, false) && k < |states| && Conserved(states[0])
    ensures Conserved(states[k])
  {
    hide Conserved, Step, Proper;
    if k > 0 {
      RunConserves(states, ops, k - 1);
      assert Step(states[k - 1], ops[k - 1], false) == Next(states[k - 1 + 1]);
      StepConserves(states[k - 1], ops[k - 1]);
    }
  }

  lemma OnePlace(s: Sched, t: nat)
    requires Conserved(s)
    ensures Places(s, t) == if 1 <= t <= s.created then 1 else 0
  {
  }

  /** `join` as coded keeps every thread exactly if no other thread is a zombie. */
  lemma JoinAsCodedIff(s: Sched, t: nat)
    requires Conserved(s) && Join(s, t, true).Next?
    ensures Conserved(Join(s, t, true).s) <==> forall z | z in s.zombie :: z == t
  {
    hide Conserved, Places, Times;
    if z :| z in s.zombie && z != t {
      ZombieLost(s, t, z);
    } else {
      NoOthers(s.zombie, t);
      assert Join(s, t, true) == Join(s, t, false);
      StepConserves(s, OpJoin(t));
    }
  }

  lemma {:induction false} NoOthers(q: seq<nat>, t: nat)
    requires forall z | z in q :: z == t
    ensures Drop(q, {t}) == []
  {
    if q != [] {
      assert q[0] in q && forall z | z in q[1..] :: z in q;
      NoOthers(q[1..], t);
    }
  }

  /** Any other zombie is in no place afterwards. */
  lemma ZombieLost(s: Sched, t: nat, z: nat)
    requires Conserved(s) && Join(s, t, true).Next? && z in s.zombie && z != t
    ensures !Conserved(Join(s, t, true).s)
  {
    var s' := Join(s, t, true).s;
    var others := Drop(s.zombie, {t});
    JoinAsCodedPlaces(s, t, z);
    TimesIn(s.zombie, z);
    PlacesBound(s, z);
    OnePlace(s, z);
    hide Places, Times, Join;
    JoinCreated(s, t);
    assert Places(s', z) == 0;
  }

  lemma JoinCreated(s: Sched, t: nat)
    requires Join(s, t, true).Next?
    ensures Join(s, t, true).s.created == s.created
  {
  }

  lemma PlacesBound(s: Sched, z: nat)
    ensures Places(s, z) >= Times(s.zombie, z)
    ensures Places(s, z) >= Times(s.exe, z) + IsActive(s, z)
  {
  }

  lemma JoinAsCodedPlaces(s: Sched, target: nat, t: nat)
    requires Join(s, target, true).Next? && t != target
    ensures Places(Join(s, target, true).s, t) == Places(s, t) - Times(s.zombie, t)
  {
    hide Times;
    var others := Drop(s.zombie, {target});
    TimesSelect(s.zombie, {target}, t);
    TimesAppend(s.dead, Select(s.zombie, {target}), t);
    TimesAdded(s.joining, s.active, t);
    TimesIn(seq(|others|, _ => target), t);
    if s.exe != [] {
      TimesFirst(s.exe, t);
    }
  }

  /** `mutex_lock` as coded keeps the caller in one place exactly if the mutex is free. */
  lemma LockAsCodedIff(s: Sched, m: nat)
    requires Conserved(s) && IsMutex(s, m)
    ensures Lock(s, m, true).Next?
    ensures Conserved(Lock(s, m, true).s) <==> s.syncs[m].thr == None
  {
    if s.syncs[m].thr == None {
      assert Lock(s, m, true) == Lock(s, m, false);
      StepConserves(s, OpLock(m));
    } else {
      var s' := Lock(s, m, true).s;
      BlockedTwice(s, m);
      OnePlace(s, s.active);
      PlacesBound(s, s.active);
      hide Places;
      assert Places(s', s.active) != 1;
    }
  }

  lemma BlockedTwice(s: Sched, m: nat)
    requires IsMutex(s, m) && s.syncs[m].thr != None
    ensures Lock(s, m, true).Next? && Places(Lock(s, m, true).s, s.active) == Places(s, s.active) + 1
  {
    hide Times;
    var x, t := s.syncs[m], s.active;
    TimesAdded(x.queue, t, t);
    TimesAdded(s.exe, t, t);
    WaitingUpdate(s.syncs, m, Mutex(x.thr, x.queue + [t]), t);
    TimesFirst(s.exe + [t], t);
  }

  /** Thread 1 makes thread 2 and takes the mutex; then both try their luck. */
  function TwoThreads(k: nat): Sched
    requires k <= 5
  {
    var s := Init([Mutex(None, [])]);
    var s2 := s.(created := 2, exe := [2], syncs := [Mutex(Some(1), [])]);
    match k
    case 0 => s
    case 1 => s.(created := 2, exe := [2])
    case 2 => s2
    case 3 => s2.(active := 2, exe := [1])
    case 4 => s2.(syncs := [Mutex(Some(1), [2])])
    case _ => s2.(syncs := [Mutex(Some(1), [2])], active := 2, exe := [1])
  }

  /** So, as coded, a thread returns from `mutex_lock` while another one holds the mutex. */
  lemma CodedLockLetsTwoIn()
    ensures var ops := [OpCreate, OpLock(0), OpYield, OpLock(0), OpYield];
            Run([TwoThreads(0), TwoThreads(1), TwoThreads(2), TwoThreads(3), TwoThreads(4), TwoThreads(5)], ops, true)
    ensures TwoThreads(2).active == 1 && TwoThreads(2).syncs == [Mutex(Some(1), [])]
    ensures TwoThreads(5).active == 2 && TwoThreads(5).syncs == [Mutex(Some(1), [2])]
  {
    TwoThreadsStep(0);
    TwoThreadsStep(1);
    TwoThreadsStep(2);
    TwoThreadsStep(3);
    TwoThreadsStep(4);
    hide Step, Proper, TwoThreads;
  }

  function TwoThreadsOp(k: nat): Op {
    match k
    case 0 => OpCreate
    case 1 => OpLock(0)
    case 3 => OpLock(0)
    case _ => OpYield
  }

  lemma TwoThreadsStep(k: nat)
    requires k < 5
    ensures Proper(TwoThreads(k), TwoThreadsOp(k))
    ensures Step(TwoThreads(k), TwoThreadsOp(k), true) == Next(TwoThreads(k + 1))
  {
    assert forall y: Sync, z: Sync :: [y][0 := z] == [z];
    assert forall a: nat, b: nat :: [a] + [b] == [a, b] && [a, b][1..] == [b];
    assert forall a: nat :: [] + [a] == [a];
  }

  // ----- join -----

  predicate Gone(s: Sched, t: nat) {
    t in s.zombie || t in s.dead
  }

  /** Who is in one place is not in another. */
  lemma NotTwice(s: Sched, t: nat)
    requires Conserved(s)
    ensures Findable(s, t) ==> !Gone(s, t)
    ensures t == s.active ==> t !in s.exe && t !in s.sleep && t !in s.joining
    ensures t in s.sleep ==> t !in s.exe && t !in s.joining
    ensures Gone(s, t) || Findable(s, t) ==> 1 <= t <= s.created
  {
    OnePlace(s, t);
    TimesIn(s.exe, t);
    TimesIn(s.sleep, t);
    TimesIn(s.joining, t);
    TimesIn(s.zombie, t);
    TimesIn(s.dead, t);
    hide Times;
  }

  /** Every thread on the join list waits for a thread that has not exited. */
  ghost predicate JoinsLiving(s: Sched) {
    forall j | j in s.joining :: j in s.target && !Gone(s, s.target[j])
  }

  lemma {:induction false} InSelect(q: seq<nat>, who: set<nat>, t: nat)
    ensures t in Select(q, who) <==> t in q && t in who
    ensures t in Drop(q, who) <==> t in q && t !in who
  {
    if q != [] {
      InSelect(q[1..], who, t);
      assert t in q <==> t == q[0] || t in q[1..];
    }
  }

  /** Only `exit` makes a thread a zombie or dead, and only the active one. */
  lemma GoneBy(s: Sched, op: Op, t: nat)
    requires Proper(s, op) && Step(s, op, false).Next?
    ensures Gone(Step(s, op, false).s, t) <==> Gone(s, t) || (op.OpExit? && t == s.active)
  {
    if op.OpJoin? {
      InSelect(s.zombie, {op.t}, t);
    }
  }

  /** A thread leaves the join list exactly when the thread it waits for exits, and can run then. */
  lemma LeavesJoinIff(s: Sched, op: Op, j: nat)
    requires Conserved(s) && JoinsLiving(s) && Proper(s, op) && Step(s, op, false).Next? && j in s.joining
    ensures var s' := Step(s, op, false).s;
            && (j !in s'.joining <==> op.OpExit? && s.target[j] == s.active)
            && (j in s'.joining ==> j in s'.target && s'.target[j] == s.target[j])
            && (j !in s'.joining ==> j in s'.exe || j == s'.active)
  {
    hide Conserved, Exit, Drop, Select, SemWait, SemPost;
    NotTwice(s, j);
    if op.OpExit? {
      ExitReleases(s, op.ret, j);
    }
  }

  lemma ExitReleases(s: Sched, ret: int, j: nat)
    requires j in s.joining && j in s.target && Exit(s, ret).Next?
    ensures var s' := Exit(s, ret).s;
            && (j !in s'.joining <==> s.target[j] == s.active) && s'.target == s.target
            && (j !in s'.joining ==> j in s'.exe || j == s'.active)
  {
    hide Drop, Select, SetAll;
    InSelect(s.joining, Joiners(s.target, s.active), j);
    var joiners := Select(s.joining, Joiners(s.target, s.active));
    if j in joiners {
      assert s.exe + joiners == [(s.exe + joiners)[0]] + (s.exe + joiners)[1..];
      assert j in s.exe + joiners;
    }
  }

  lemma EntersJoin(s: Sched, op: Op, j: nat)
    requires Proper(s, op) && Step(s, op, false).Next? && j !in s.joining
    ensures var s' := Step(s, op, false).s;
            j in s'.joining ==>
              op.OpJoin? && j == s.active && op.t !in s.zombie && Findable(s, op.t) && j in s'.target &&
              s'.target[j] == op.t
  {
    if op.OpExit? {
      InSelect(s.joining, Joiners(s.target, s.active), j);
    }
    if op.OpJoin? {
      InSelect(s.zombie, {op.t}, op.t);
      assert op.t in s.zombie ==> Select(s.zombie, {op.t}) != [];
    }
  }

  lemma StepJoinsLiving(s: Sched, op: Op)
    requires Conserved(s) && JoinsLiving(s) && Proper(s, op) && Step(s, op, false).Next?
    ensures JoinsLiving(Step(s, op, false).s)
  {
    hide Step, Conserved, Gone, Findable;
    var s' := Step(s, op, false).s;
    forall j | j in s'.joining ensures j in s'.target && !Gone(s', s'.target[j]) {
      if j in s.joining {
        LeavesJoinIff(s, op, j);
        GoneBy(s, op, s.target[j]);
      } else {
        EntersJoin(s, op, j);
        NotTwice(s, op.t);
        GoneBy(s, op, op.t);
      }
    }
  }

  lemma {:induction false} RunJoinsLiving(states: seq<Sched>, ops: seq<Op>, k: nat)
    requires Run(states, ops, false) && k < |states| && Conserved(states[0]) && JoinsLiving(states[0])
    ensures JoinsLiving(states[k])
  {
    hide Conserved, Step, Proper, JoinsLiving;
    if k > 0 {
      RunJoinsLiving(states, ops, k - 1);
      RunConserves(states, ops, k - 1);
      assert Step(states[k - 1], ops[k - 1], false) == Next(states[k - 1 + 1]);
      StepJoinsLiving(states[k - 1], ops[k - 1]);
    }
  }

  /**
   * `join` suspends its caller exactly if the target has not exited and is not blocked on a mutex,
   * semaphore or monitor: such a target is not found, and `join` returns -1 though it lives.
   */
  lemma JoinSuspendsIff(s: Sched, t: nat)
    requires Conserved(s) && 1 <= t <= s.created
    ensures JoinRc(s, t) == None <==> !Gone(s, t) && Waiting(s.syncs, t) == 0
    ensures JoinRc(s, t) == Some(0) <==> t in s.zombie
  {
    OnePlace(s, t);
    TimesIn(s.exe, t);
    TimesIn(s.sleep, t);
    TimesIn(s.joining, t);
    TimesIn(s.zombie, t);
    TimesIn(s.dead, t);
    hide Times;
  }

  lemma {:induction false} SetAllSets(m: map<nat, int>, q: seq<nat>, v: int, t: nat)
    ensures var r := SetAll(m, q, v);
            if t in q then t in r && r[t] == v else (t in r <==> t in m) && (t in m ==> r[t] == m[t])
    decreases |q|
  {
    if q != [] {
      SetAllSets(m[q[0] := v], q[1..], v, t);
    }
  }

  function JoinRet(s: Sched, t: nat): int {
    if t in s.ret then s.ret[t] else 0
  }

  /** `exit` stores its value with the threads that wait for the caller, and leaves the caller's own alone. */
  lemma ExitStoresWithJoiners(s: Sched, ret: int, j: nat)
    requires Conserved(s) && Exit(s, ret).Next?
    ensures var s' := Exit(s, ret).s;
            && JoinRet(s', j) == (if j in s.joining && j in s.target && s.target[j] == s.active then ret
                                  else JoinRet(s, j))
            && JoinRet(s', s.active) == JoinRet(s, s.active)
  {
    NotTwice(s, s.active);
    hide Conserved;
    var joiners := Select(s.joining, Joiners(s.target, s.active));
    InSelect(s.joining, Joiners(s.target, s.active), j);
    InSelect(s.joining, Joiners(s.target, s.active), s.active);
    SetAllSets(s.ret, joiners, ret, j);
    SetAllSets(s.ret, joiners, ret, s.active);
  }

  /** Nothing is stored with a thread that has exited. */
  lemma GoneKeepsRet(s: Sched, op: Op, t: nat)
    requires Conserved(s) && Proper(s, op) && Step(s, op, false).Next? && (Gone(s, t) || t == s.active)
    ensures JoinRet(Step(s, op, false).s, t) == JoinRet(s, t)
  {
    hide Conserved, Exit, SetAll, Select, Drop;
    NotTwice(s, t);
    if op.OpExit? {
      ExitStoresWithJoiners(s, op.ret, t);
    }
  }

  lemma OnlyExitStores(s: Sched, op: Op)
    requires Proper(s, op) && Step(s, op, false).Next? && !op.OpExit?
    ensures Step(s, op, false).s.ret == s.ret
  {
  }

  /** The step is the exit of the thread that `t` waits for. */
  predicate JoinedBy(s: Sched, op: Op, t: nat) {
    op.OpExit? && t in s.joining && t in s.target && s.target[t] == s.active
  }

  /** The value of the last thread that `t` was waiting for when it exited, in the first `k` calls of a run. */
  function LastJoined(states: seq<Sched>, ops: seq<Op>, t: nat, k: nat): int
    requires Run(states, ops, false) && k < |states|
  {
    if k == 0 then JoinRet(states[0], t)
    else if JoinedBy(states[k - 1], ops[k - 1], t) then ops[k - 1].ret
    else LastJoined(states, ops, t, k - 1)
  }

  lemma {:induction false} RetIsLastJoined(states: seq<Sched>, ops: seq<Op>, t: nat, k: nat)
    requires Run(states, ops, false) && Conserved(states[0]) && k < |states|
    ensures JoinRet(states[k], t) == LastJoined(states, ops, t, k)
  {
    hide Conserved, Step, Proper, JoinRet;
    if k > 0 {
      RetIsLastJoined(states, ops, t, k - 1);
      RunConserves(states, ops, k - 1);
      assert Step(states[k - 1], ops[k - 1], false) == Next(states[k - 1 + 1]);
      RetStep(states[k - 1], ops[k - 1], t);
    }
  }

  lemma RetStep(s: Sched, op: Op, t: nat)
    requires Conserved(s) && Proper(s, op) && Step(s, op, false).Next?
    ensures JoinRet(Step(s, op, false).s, t) == if JoinedBy(s, op, t) then op.ret else JoinRet(s, t)
  {
    hide Conserved, Exit;
    if op.OpExit? {
      ExitStoresWithJoiners(s, op.ret, t);
    } else {
      OnlyExitStores(s, op);
    }
  }

  /**
   * `join` reads `join_ret` of its target, whether it finds the target among the zombies or was
   * waiting when it exited. In any later state of any run it reads the value of the last thread
   * that the target itself had joined before it exited, or 0 if there was none; the caller gets the
   * value of `exit` exactly if the two are equal.
   */
  lemma {:induction false} JoinDeliversIff(states: seq<Sched>, ops: seq<Op>, e: nat, k: nat, value: int)
    requires Run(states, ops, false) && Conserved(states[0]) && e < k < |states| && ops[e] == OpExit(value)
    ensures var t := states[e].active;
            && Gone(states[k], t) && (t in states[k].zombie ==> JoinRc(states[k], t) == Some(0))
            && JoinRet(states[k], t) == LastJoined(states, ops, t, e)
            && (JoinRet(states[k], t) == value <==> LastJoined(states, ops, t, e) == value)
            && (states[0].ret == map[] && (forall i | 0 <= i < e :: !JoinedBy(states[i], ops[i], t)) ==>
                  JoinRet(states[k], t) == 0)
  {
    hide Conserved, Step, Proper, Gone, JoinRet;
    var t := states[e].active;
    if e < k - 1 {
      JoinDeliversIff(states, ops, e, k - 1, value);
    } else {
      RetIsLastJoined(states, ops, t, e);
    }
    NeverJoined(states, ops, t, e);
    RunConserves(states, ops, k - 1);
    assert Step(states[k - 1], ops[k - 1], false) == Next(states[k - 1 + 1]);
    GoneBy(states[k - 1], ops[k - 1], t);
    GoneKeepsRet(states[k - 1], ops[k - 1], t);
  }

  lemma {:induction false} NeverJoined(states: seq<Sched>, ops: seq<Op>, t: nat, k: nat)
    requires Run(states, ops, false) && k < |states|
    ensures states[0].ret == map[] && (forall i | 0 <= i < k :: !JoinedBy(states[i], ops[i], t)) ==>
              LastJoined(states, ops, t, k) == 0
  {
    hide Step, Proper, JoinedBy;
    if k > 0 {
      NeverJoined(states, ops, t, k - 1);
    }
  }

  /** So a joiner that waited reads 0 when its target exits with 7. */
  lemma ExitValueIsLost()
    ensures var s := Init([]).(created := 2, exe := [2]);
            && Create(Init([])) == s
            && Join(s, 2, false).Next? && Exit(Join(s, 2, false).s, 7).Next?
            && var r := Exit(Join(s, 2, false).s, 7).s;
            r.active == 1 && r.dead == [2] && JoinRet(r, 2) == 0
  {
    var s := Init([]).(created := 2, exe := [2]);
    var waiting := s.(active := 2, exe := [], joining := [1], target := map[1 := 2]);
    assert [] + [2] == [2] && [2][1..] == [] && [] + [1] == [1] && [1][1..] == [];
    assert Join(s, 2, false) == Next(waiting);
    FirstSelect(1, [], Joiners(waiting.target, 2));
    assert Leave(waiting, 7).exe == [1] && Leave(waiting, 7).dead == [2];
    ExitStoresOne(waiting);
  }

  lemma FirstSelect(t: nat, q: seq<nat>, who: set<nat>)
    ensures Select([t] + q, who) == (if t in who then [t] else []) + Select(q, who)
  {
    assert ([t] + q)[1..] == q;
  }

  lemma ExitStoresOne(s: Sched)
    requires s.joining == [1] && s.active == 2 && s.target == map[1 := 2] && s.ret == map[]
    ensures JoinRet(Leave(s, 7), 2) == 0
  {
    SetAllSets(s.ret, Select(s.joining, Joiners(s.target, s.active)), 7, 2);
  }

  // ----- sleep -----

  /** A sleeping thread is woken by the tick at its wake time and by nothing else. */
  lemma SleeperStep(s: Sched, op: Op, t: nat)
    requires Conserved(s) && Proper(s, op) && Step(s, op, false).Next? && t in s.sleep && t in s.wake
    ensures var s' := Step(s, op, false).s;
            && s'.clock == s.clock + (if op == OpTick then 1 else 0)
            && (t in s'.sleep <==> !(op == OpTick && s'.clock == s.wake[t]))
            && (t !in s'.sleep ==> t in s'.exe)
            && t in s'.wake && s'.wake[t] == s.wake[t]
  {
    NotTwice(s, t);
    hide Conserved;
    if op == OpTick {
      InSelect(s.sleep, Due(s.wake, s.clock + 1), t);
    }
  }

  /** Until its wake time comes a sleeping thread sleeps; if that time has passed already, for ever. */
  lemma {:induction false} SleepsUntil(states: seq<Sched>, ops: seq<Op>, k: nat, t: nat)
    requires Run(states, ops, false) && k < |states| && Conserved(states[0])
    requires t in states[0].sleep && t in states[0].wake
    requires states[k].clock < states[0].wake[t] || states[0].wake[t] <= states[0].clock
    ensures t in states[k].sleep && t in states[k].wake && states[k].wake[t] == states[0].wake[t]
    ensures states[k].clock >= states[0].clock
  {
    hide Conserved, Step, Proper;
    if k > 0 {
      assert Step(states[k - 1], ops[k - 1], false) == Next(states[k - 1 + 1]);
      ClockGrows(states[k - 1], ops[k - 1]);
      SleepsUntil(states, ops, k - 1, t);
      RunConserves(states, ops, k - 1);
      SleeperStep(states[k - 1], ops[k - 1], t);
    }
  }

  lemma ClockGrows(s: Sched, op: Op)
    requires Proper(s, op) && Step(s, op, false).Next?
    ensures s.clock <= Step(s, op, false).s.clock
  {
  }

  /** The tick at which the wake time is reached makes it executable. */
  lemma WakesOnTime(states: seq<Sched>, ops: seq<Op>, k: nat, t: nat)
    requires Run(states, ops, false) && k < |ops| && Conserved(states[0])
    requires t in states[0].sleep && t in states[0].wake
    requires states[k].clock < states[0].wake[t] == states[k + 1].clock
    ensures t !in states[k + 1].sleep && t in states[k + 1].exe
  {
    hide Conserved, Step, Proper;
    SleepsUntil(states, ops, k, t);
    RunConserves(states, ops, k);
    assert Step(states[k], ops[k], false) == Next(states[k + 1]);
    SleeperStep(states[k], ops[k], t);
  }

  /** A thread that sleeps for a negative time of a tick or more never runs again. */
  lemma NegativeSleepIsForever(states: seq<Sched>, ops: seq<Op>, time: int, k: nat)
    requires Run(states, ops, false) && 0 < k < |states| && Conserved(states[0])
    requires ops[0] == OpSleep(time) && time <= -CLOCK_TICK
    ensures states[0].active in states[k].sleep
  {
    var s, t := states[0], states[0].active;
    assert Ticks(time) < 0;
    assert Step(s, ops[0], false) == Next(states[0 + 1]);
    assert t in states[1].sleep && t in states[1].wake && states[1].wake[t] < states[1].clock;
    StepConserves(s, ops[0]);
    forall i | 0 <= i < |ops[1..]|
      ensures Proper(states[1..][i], ops[1..][i]) &&
              Step(states[1..][i], ops[1..][i], false) == Next(states[1..][i + 1])
    {
      assert Step(states[i + 1], ops[i + 1], false) == Next(states[i + 1 + 1]);
    }
    SleepsUntil(states[1..], ops[1..], k - 1, t);
  }

  // ----- mutexes and monitors -----

  /** What `op` adds to the queue of mutex `m`, in order. */
  function Queued(s: Sched, op: Op, m: nat): seq<nat>
    requires Proper(s, op) && IsMutex(s, m)
  {
    match op
    case OpLock(l) => if l == m && s.syncs[m].thr != None then [s.active] else []
    case OpSignal(c) =>
      if s.syncs[c].mutex == m && s.syncs[m].thr == Some(s.active) && s.syncs[c].queue != [] then
        [s.syncs[c].queue[0]]
      else []
    case OpSignalAll(c) =>
      if s.syncs[c].mutex == m && s.syncs[m].thr == Some(s.active) then s.syncs[c].queue else []
    case _ => []
  }

  /** To whom `op` hands mutex `m`. */
  function Handed(s: Sched, op: Op, m: nat): seq<nat>
    requires Proper(s, op) && IsMutex(s, m)
  {
    match op
    case OpUnlock(l) =>
      if l == m && s.syncs[m].thr == Some(s.active) && s.syncs[m].queue != [] then [s.syncs[m].queue[0]] else []
    case OpMonitorWait(c) =>
      if s.syncs[c].mutex == m && s.syncs[m].thr == Some(s.active) && s.syncs[m].queue != [] then
        [s.syncs[m].queue[0]]
      else []
    case _ => []
  }

  /** Threads join the queue of a mutex at its end and leave it, as its owner, at its front. */
  lemma QueueStep(s: Sched, op: Op, m: nat)
    requires Proper(s, op) && Step(s, op, false).Next? && IsMutex(s, m)
    ensures var s' := Step(s, op, false).s;
            && IsMutex(s', m)
            && s.syncs[m].queue + Queued(s, op, m) == Handed(s, op, m) + s'.syncs[m].queue
            && (Handed(s, op, m) != [] ==> s'.syncs[m].thr == Some(Handed(s, op, m)[0]))
  {
    hide Step;
    var q := s.syncs[m].queue;
    assert q + [] == q && [] + q == q;
    if m !in Touched(s, op) {
      Untouched(s, op, m);
    } else {
      TouchedQueue(s, op, m);
    }
  }

  lemma TouchedQueue(s: Sched, op: Op, m: nat)
    requires Proper(s, op) && Step(s, op, false).Next? && IsMutex(s, m) && m in Touched(s, op)
    ensures var s' := Step(s, op, false).s;
            && IsMutex(s', m)
            && s.syncs[m].queue + Queued(s, op, m) == Handed(s, op, m) + s'.syncs[m].queue
            && (Handed(s, op, m) != [] ==> s'.syncs[m].thr == Some(Handed(s, op, m)[0]))
  {
    hide Create, Yield, Tick, Exit, Join, Sleep, Lock, Unlock, Wait, Post, MonitorWait, Signalled;
    var q := s.syncs[m].queue;
    assert q + [] == q && [] + q == q;
    match op
    case OpLock(l) => LockQueue(s, l);
    case OpUnlock(l) => UnlockQueue(s, l, m);
    case OpMonitorWait(c) => MonitorWaitQueue(s, c, m);
    case OpSignal(c) =>
      if s.syncs[s.syncs[c].mutex].thr == Some(s.active) && s.syncs[c].queue != [] {
        SignalledQueue(s, c, 1, m);
      }
    case OpSignalAll(c) =>
      SignalledQueue(s, c, |s.syncs[c].queue|, m);
    case _ =>
  }

  /** The objects a call may change. */
  function Touched(s: Sched, op: Op): set<nat>
    requires Proper(s, op)
  {
    match op
    case OpLock(m) => {m}
    case OpUnlock(m) => {m}
    case OpWait(i) => {i}
    case OpPost(i) => {i}
    case OpMonitorWait(c) => {c, s.syncs[c].mutex}
    case OpSignal(c) => {c, s.syncs[c].mutex}
    case OpSignalAll(c) => {c, s.syncs[c].mutex}
    case _ => {}
  }

  lemma Untouched(s: Sched, op: Op, i: nat)
    requires Proper(s, op) && Step(s, op, false).Next? && i < |s.syncs| && i !in Touched(s, op)
    ensures i < |Step(s, op, false).s.syncs| && Step(s, op, false).s.syncs[i] == s.syncs[i]
  {
    hide Select, Drop, SetAll, SemWait, SemPost, Unlock, Signalled, Due, Joiners;
    match op
    case OpUnlock(m) => UnlockElsewhere(s, m, i);
    case OpMonitorWait(c) => UnlockElsewhere(Enter(s, c), s.syncs[c].mutex, i);
    case OpSignal(c) => if s.syncs[c].queue != [] { SignalledElsewhere(s, c, 1, i); }
    case OpSignalAll(c) => SignalledElsewhere(s, c, |s.syncs[c].queue|, i);
    case _ =>
  }

  lemma UnlockElsewhere(s: Sched, m: nat, i: nat)
    requires IsMutex(s, m) && i < |s.syncs| && i != m
    ensures i < |Unlock(s, m).syncs| && Unlock(s, m).syncs[i] == s.syncs[i]
  {
  }

  lemma SignalledElsewhere(s: Sched, c: nat, k: nat, i: nat)
    requires IsMonitor(s, c) && k <= |s.syncs[c].queue| && i < |s.syncs| && i != c && i != s.syncs[c].mutex
    ensures i < |Signalled(s, c, k).syncs| && Signalled(s, c, k).syncs[i] == s.syncs[i]
  {
  }

  lemma LockQueue(s: Sched, m: nat)
    requires IsMutex(s, m) && Lock(s, m, false).Next?
    ensures var s', x := Lock(s, m, false).s, s.syncs[m];
            && IsMutex(s', m)
            && s'.syncs[m].queue == if x.thr == None then x.queue else x.queue + [s.active]
  {
  }

  lemma UnlockQueue(s: Sched, l: nat, m: nat)
    requires IsMutex(s, l) && IsMutex(s, m)
    ensures var s', q := Unlock(s, l), s.syncs[m].queue;
            && IsMutex(s', m)
            && (if l == m && s.syncs[m].thr == Some(s.active) && q != [] then
                  q == [q[0]] + s'.syncs[m].queue && s'.syncs[m].thr == Some(q[0])
                else q == s'.syncs[m].queue)
  {
  }

  lemma MonitorWaitQueue(s: Sched, c: nat, m: nat)
    requires IsMonitor(s, c) && IsMutex(s, m) && MonitorWait(s, c).Next?
    ensures var s', q := MonitorWait(s, c).s, s.syncs[m].queue;
            && IsMutex(s', m)
            && (if s.syncs[c].mutex == m && s.syncs[m].thr == Some(s.active) && q != [] then
                  q == [q[0]] + s'.syncs[m].queue && s'.syncs[m].thr == Some(q[0])
                else q == s'.syncs[m].queue)
  {
    hide Unlock;
    if s.syncs[s.syncs[c].mutex].thr == Some(s.active) {
      UnlockQueue(Enter(s, c), s.syncs[c].mutex, m);
    }
  }

  lemma SignalledQueue(s: Sched, c: nat, k: nat, m: nat)
    requires IsMonitor(s, c) && k <= |s.syncs[c].queue| && IsMutex(s, m)
    ensures var s', y := Signalled(s, c, k), s.syncs[c];
            && |s'.syncs| == |s.syncs| && IsMutex(s', m) && s'.syncs[m].thr == s.syncs[m].thr
            && s'.syncs[m].queue == s.syncs[m].queue + (if y.mutex == m then y.queue[..k] else [])
            && s'.syncs[c] == Monitor(y.mutex, y.queue[k..])
  {
  }

  function QueuedBy(states: seq<Sched>, ops: seq<Op>, m: nat, k: nat): seq<nat>
    requires Run(states, ops, false) && k <= |ops| && forall i | 0 <= i < |states| :: IsMutex(states[i], m)
  {
    if k == 0 then [] else QueuedBy(states, ops, m, k - 1) + Queued(states[k - 1], ops[k - 1], m)
  }

  function HandedBy(states: seq<Sched>, ops: seq<Op>, m: nat, k: nat): seq<nat>
    requires Run(states, ops, false) && k <= |ops| && forall i | 0 <= i < |states| :: IsMutex(states[i], m)
  {
    if k == 0 then [] else HandedBy(states, ops, m, k - 1) + Handed(states[k - 1], ops[k - 1], m)
  }

  lemma {:induction false} StaysMutex(states: seq<Sched>, ops: seq<Op>, m: nat, k: nat)
    requires Run(states, ops, false) && IsMutex(states[0], m) && k < |states|
    ensures IsMutex(states[k], m)
  {
    hide Step, IsMutex, Proper;
    if k > 0 {
      StaysMutex(states, ops, m, k - 1);
      assert Step(states[k - 1], ops[k - 1], false) == Next(states[k - 1 + 1]);
      QueueStep(states[k - 1], ops[k - 1], m);
    }
  }

  /**
   * First come, first served: those who were handed the mutex and those who still wait are, in this
   * order, those who waited at the start and those who came since, whether through `lock` or through
   * `signal`.
   */
  lemma {:induction false} FirstComeFirstServed(states: seq<Sched>, ops: seq<Op>, m: nat, k: nat)
    requires Run(states, ops, false) && IsMutex(states[0], m) && k <= |ops|
    ensures forall i | 0 <= i < |states| :: IsMutex(states[i], m)
    ensures states[0].syncs[m].queue + QueuedBy(states, ops, m, k) ==
            HandedBy(states, ops, m, k) + states[k].syncs[m].queue
  {
    hide Step, Proper, Queued, Handed;
    forall i | 0 <= i < |states| ensures IsMutex(states[i], m) {
      StaysMutex(states, ops, m, i);
    }
    if k > 0 {
      FirstComeFirstServed(states, ops, m, k - 1);
      assert Step(states[k - 1], ops[k - 1], false) == Next(states[k - 1 + 1]);
      QueueStep(states[k - 1], ops[k - 1], m);
      Chain(states[0].syncs[m].queue, QueuedBy(states, ops, m, k - 1), Queued(states[k - 1], ops[k - 1], m),
            HandedBy(states, ops, m, k - 1), states[k - 1].syncs[m].queue,
            Handed(states[k - 1], ops[k - 1], m), states[k].syncs[m].queue);
    }
  }

  lemma Chain(q0: seq<nat>, a: seq<nat>, x: seq<nat>, b: seq<nat>, q: seq<nat>, y: seq<nat>, q': seq<nat>)
    requires q0 + a == b + q && q + x == y + q'
    ensures q0 + (a + x) == (b + y) + q'
  {
    calc {
      q0 + (a + x);
      (q0 + a) + x;
      b + (q + x);
      (b + y) + q';
    }
  }

  /** Thread `t` waits for mutex `m`, or for its monitor, or was handed the mutex and has not run since. */
  ghost predicate WaitsFor(s: Sched, t: nat, m: nat) {
    IsMutex(s, m) &&
    (t in s.syncs[m].queue
     || (exists c: nat :: IsMonitor(s, c) && s.syncs[c].mutex == m && t in s.syncs[c].queue)
     || (s.syncs[m].thr == Some(t) && t in s.exe))
  }

  /** Only its owner takes a mutex away from itself. */
  lemma OwnerStays(s: Sched, op: Op, m: nat)
    requires Proper(s, op) && Step(s, op, false).Next? && IsMutex(s, m)
    ensures IsMutex(Step(s, op, false).s, m)
    ensures s.syncs[m].thr.Some? && s.syncs[m].thr != Some(s.active) ==>
              Step(s, op, false).s.syncs[m].thr == s.syncs[m].thr
  {
    QueueStep(s, op, m);
    hide Select, Drop, SetAll, SemWait, SemPost;
  }

  /** Who can run still can, or runs. */
  lemma ExeStep(s: Sched, op: Op, t: nat)
    requires Proper(s, op) && Step(s, op, false).Next? && t in s.exe
    ensures t in Step(s, op, false).s.exe || t == Step(s, op, false).s.active
  {
    hide Select, Drop, SetAll, SemWait, SemPost;
    assert s.exe == [s.exe[0]] + s.exe[1..];
    match op
    case OpYield => BehindFirst(s.exe, [s.active], t);
    case OpExit(ret) => BehindFirst(s.exe, Select(s.joining, Joiners(s.target, s.active)), t);
    case OpMonitorWait(c) =>
      if s.syncs[s.syncs[c].mutex].queue != [] {
        BehindFirst(s.exe, [s.syncs[s.syncs[c].mutex].queue[0]], t);
      }
    case _ =>
  }

  lemma BehindFirst(a: seq<nat>, b: seq<nat>, t: nat)
    requires t in a
    ensures t == (a + b)[0] || t in (a + b)[1..]
  {
    assert a + b == [(a + b)[0]] + (a + b)[1..];
    assert t in a + b;
  }

  lemma HandedRuns(s: Sched, op: Op, m: nat)
    requires Proper(s, op) && Step(s, op, false).Next? && IsMutex(s, m) && Handed(s, op, m) != []
    ensures Handed(s, op, m)[0] in Step(s, op, false).s.exe || Handed(s, op, m)[0] == Step(s, op, false).s.active
  {
    var t := Handed(s, op, m)[0];
    if op.OpMonitorWait? {
      var exe := s.exe + [t];
      assert exe == [exe[0]] + exe[1..] && t in exe;
    }
  }

  /** A waiter of a monitor stays, or moves to the queue of its mutex. */
  lemma MonitorStep(s: Sched, op: Op, c: nat, t: nat)
    requires Proper(s, op) && Step(s, op, false).Next? && IsMonitor(s, c) && t in s.syncs[c].queue
    ensures var s', m := Step(s, op, false).s, s.syncs[c].mutex;
            && IsMonitor(s', c) && s'.syncs[c].mutex == m
            && (t in s'.syncs[c].queue || t in s'.syncs[m].queue)
  {
    var q, m := s.syncs[c].queue, s.syncs[c].mutex;
    QueueStep(s, op, m);
    if op.OpSignal? && op.c == c && s.syncs[m].thr == Some(s.active) {
      SignalledQueue(s, c, 1, m);
      assert q == q[..1] + q[1..];
    } else if op.OpSignalAll? && op.c == c && s.syncs[m].thr == Some(s.active) {
      SignalledQueue(s, c, |q|, m);
      assert q == q[..|q|] + q[|q|..];
    } else {
      MonitorStays(s, op, c, t);
    }
  }

  lemma MonitorStays(s: Sched, op: Op, c: nat, t: nat)
    requires Proper(s, op) && Step(s, op, false).Next? && IsMonitor(s, c) && t in s.syncs[c].queue
    requires op == OpSignal(c) || op == OpSignalAll(c) ==> s.syncs[s.syncs[c].mutex].thr != Some(s.active)
    ensures var s' := Step(s, op, false).s;
            c < |s'.syncs| && s'.syncs[c].Monitor? && s'.syncs[c].mutex == s.syncs[c].mutex && t in s'.syncs[c].queue
  {
    hide Create, Yield, Tick, Exit, Join, Sleep, Lock, Unlock, Wait, Post, MonitorWait, Signalled;
    if c !in Touched(s, op) {
      Untouched(s, op, c);
    } else if op.OpMonitorWait? {
      WaitsBehind(s, c, t);
    }
  }

  lemma WaitsBehind(s: Sched, c: nat, t: nat)
    requires IsMonitor(s, c) && MonitorWait(s, c).Next? && t in s.syncs[c].queue
    ensures var s' := MonitorWait(s, c).s;
            c < |s'.syncs| && s'.syncs[c].Monitor? && s'.syncs[c].mutex == s.syncs[c].mutex && t in s'.syncs[c].queue
  {
    hide Unlock;
    UnlockElsewhere(Enter(s, c), s.syncs[c].mutex, c);
  }

  lemma {:induction false} WaitingAt(syncs: seq<Sync>, i: nat, t: nat)
    requires i < |syncs| && t in QueueOf(syncs[i])
    ensures Waiting(syncs, t) > 0
  {
    var k := |syncs| - 1;
    if i == k {
      TimesIn(QueueOf(syncs[k]), t);
    } else {
      WaitingAt(syncs[..k], i, t);
    }
  }

  lemma WaiterIsNotActive(s: Sched, t: nat, m: nat)
    requires Conserved(s) && WaitsFor(s, t, m)
    ensures t != s.active
  {
    OnePlace(s, t);
    TimesIn(s.exe, t);
    if t in s.syncs[m].queue {
      WaitingAt(s.syncs, m, t);
    } else if c: nat :| IsMonitor(s, c) && s.syncs[c].mutex == m && t in s.syncs[c].queue {
      WaitingAt(s.syncs, c, t);
    }
    hide Times, Waiting;
  }

  /** A waiter goes on waiting, or runs as the owner of the mutex. */
  lemma WaitsStep(s: Sched, op: Op, t: nat, m: nat)
    requires Conserved(s) && Proper(s, op) && Step(s, op, false).Next? && WaitsFor(s, t, m)
    ensures var s' := Step(s, op, false).s;
            IsMutex(s', m) && (if s'.active == t then s'.syncs[m].thr == Some(t) else WaitsFor(s', t, m))
  {
    hide Step, Conserved, Proper;
    var s' := Step(s, op, false).s;
    WaiterIsNotActive(s, t, m);
    StepConserves(s, op);
    QueueStep(s, op, m);
    OwnerStays(s, op, m);
    if t in s.syncs[m].queue {
      assert t in s.syncs[m].queue + Queued(s, op, m);
      HandedOne(s, op, m);
      if t !in s'.syncs[m].queue {
        HandedRuns(s, op, m);
      } else {
        WaiterIsNotActive(s', t, m);
      }
    } else if c: nat :| IsMonitor(s, c) && s.syncs[c].mutex == m && t in s.syncs[c].queue {
      MonitorStep(s, op, c, t);
      assert WaitsFor(s', t, m);
      WaiterIsNotActive(s', t, m);
    } else {
      ExeStep(s, op, t);
    }
  }

  lemma HandedOne(s: Sched, op: Op, m: nat)
    requires Proper(s, op) && IsMutex(s, m)
    ensures |Handed(s, op, m)| <= 1
    ensures forall t | t in Handed(s, op, m) :: t == Handed(s, op, m)[0]
  {
  }

  /**
   * Direct hand-off: a thread that blocked in `mutex_lock` or `monitor_wait` owns the mutex when it
   * runs again, whatever the other threads did meanwhile.
   */
  lemma {:induction false} ReturnsAsOwner(states: seq<Sched>, ops: seq<Op>, t: nat, m: nat, k: nat)
    requires Run(states, ops, false) && 0 < k < |states| && Conserved(states[0]) && WaitsFor(states[0], t, m)
    requires forall i | 0 <= i < k :: states[i].active != t
    ensures IsMutex(states[k], m)
    ensures if states[k].active == t then states[k].syncs[m].thr == Some(t) else WaitsFor(states[k], t, m)
  {
    hide Conserved, Step, Proper, WaitsFor;
    if k > 1 {
      ReturnsAsOwner(states, ops, t, m, k - 1);
    }
    RunConserves(states, ops, k - 1);
    assert Step(states[k - 1], ops[k - 1], false) == Next(states[k - 1 + 1]);
    WaitsStep(states[k - 1], ops[k - 1], t, m);
  }

  /** Whoever calls `mutex_lock` or, as the owner, `monitor_wait`, owns the mutex at once or waits for it. */
  lemma BlocksOrOwns(s: Sched, op: Op)
    requires Conserved(s) && Proper(s, op) && Step(s, op, false).Next?
    requires op.OpLock? || (op.OpMonitorWait? && s.syncs[s.syncs[op.c].mutex].thr == Some(s.active))
    ensures var s', m := Step(s, op, false).s, if op.OpLock? then op.m else s.syncs[op.c].mutex;
            IsMutex(s', m) &&
            if s'.active == s.active then s'.syncs[m].thr == Some(s.active) else WaitsFor(s', s.active, m)
  {
    var s' := Step(s, op, false).s;
    NotTwice(s, s.active);
    if op.OpLock? {
      QueueStep(s, op, op.m);
    } else {
      BlocksInMonitor(s, op.c);
    }
    hide Conserved;
  }

  lemma BlocksInMonitor(s: Sched, c: nat)
    requires Conserved(s) && IsMonitor(s, c) && MonitorWait(s, c).Next?
    requires s.syncs[s.syncs[c].mutex].thr == Some(s.active)
    ensures var s', m := MonitorWait(s, c).s, s.syncs[c].mutex;
            && IsMonitor(s', c) && s'.syncs[c].mutex == m && s.active in s'.syncs[c].queue
            && s'.active != s.active
  {
    var s' := MonitorWait(s, c).s;
    assert IsMonitor(s', c) && s.active in s'.syncs[c].queue;
    StepConserves(s, OpMonitorWait(c));
    hide Conserved, MonitorWait;
    WaiterIsNotActive(s', s.active, s.syncs[c].mutex);
  }

  // ----- order of execution -----

  /** The state after `k` calls of `yield`. */
  function Yields(s: Sched, k: nat): Sched {
    if k == 0 then s else if Yield(Yields(s, k - 1)).Next? then Yield(Yields(s, k - 1)).s else s
  }

  lemma {:induction false} YieldsRotate(s: Sched, k: nat)
    requires 0 < k <= |s.exe|
    ensures Yields(s, k) == s.(active := s.exe[k - 1], exe := s.exe[k..] + [s.active] + s.exe[..k - 1])
  {
    if k > 1 {
      YieldsRotate(s, k - 1);
      var exe := s.exe[k - 1..] + [s.active] + s.exe[..k - 2];
      assert (exe + [s.exe[k - 2]])[1..] == s.exe[k..] + [s.active] + s.exe[..k - 1];
    } else {
      assert (s.exe + [s.active])[1..] == s.exe[1..] + [s.active] + s.exe[..0];
    }
  }

  /** Whether the call ends in a switch. */
  function Switches(s: Sched, op: Op): nat
    requires Proper(s, op)
  {
    var switches :=
      match op
      case OpYield => true
      case OpExit(_) => true
      case OpJoin(t) => JoinRc(s, t) == None
      case OpSleep(time) => Ticks(time) != 0
      case OpLock(m) => s.syncs[m].thr != None
      case OpWait(i) => s.syncs[i].sem.counter <= 0
      case OpMonitorWait(c) => s.syncs[s.syncs[c].mutex].thr == Some(s.active)
      case _ => false;
    if switches then 1 else 0
  }

  /**
   * A call either leaves the active thread and the executable ones in their places, or makes the
   * first executable thread active and moves the others up; new ones come to the end.
   */
  lemma ExeMoves(s: Sched, op: Op)
    requires Proper(s, op) && Step(s, op, false).Next?
    ensures var s' := Step(s, op, false).s;
            if Switches(s, op) == 0 then s'.active == s.active && s.exe <= s'.exe
            else s.exe != [] ==> s'.active == s.exe[0] && s.exe[1..] <= s'.exe
  {
    hide Select, Drop, SetAll, Due, Joiners;
    match op
    case OpYield => MovesUp(s.exe, [s.active]);
    case OpExit(ret) => MovesUp(s.exe, Select(s.joining, Joiners(s.target, s.active)));
    case OpJoin(t) => InZombies(s, t);
    case OpMonitorWait(c) =>
      if s.syncs[s.syncs[c].mutex].queue != [] {
        MovesUp(s.exe, [s.syncs[s.syncs[c].mutex].queue[0]]);
      }
    case _ =>
  }

  lemma MovesUp(a: seq<nat>, b: seq<nat>)
    ensures a != [] ==> (a + b)[0] == a[0] && a[1..] <= (a + b)[1..]
  {
    if a != [] {
      assert (a + b)[1..] == a[1..] + b;
    }
  }

  lemma InZombies(s: Sched, t: nat)
    ensures Select(s.zombie, {t}) != [] <==> t in s.zombie
  {
    InSelect(s.zombie, {t}, t);
    assert forall z | z in Select(s.zombie, {t}) :: z == t;
    if Select(s.zombie, {t}) != [] {
      assert Select(s.zombie, {t})[0] in Select(s.zombie, {t});
    }
  }

  /** The switches in the first `k` calls of a run. */
  function SwitchesOf(states: seq<Sched>, ops: seq<Op>, k: nat): nat
    requires Run(states, ops, false) && k <= |ops|
  {
    if k == 0 then 0 else SwitchesOf(states, ops, k - 1) + Switches(states[k - 1], ops[k - 1])
  }

  /**
   * Whatever calls are made, the thread at place `k` of the executable list moves up by one place
   * with each switch and becomes active with switch `k + 1`, at no earlier one.
   */
  lemma {:induction false} RunsInTurn(states: seq<Sched>, ops: seq<Op>, k: nat, j: nat)
    requires Run(states, ops, false) && Conserved(states[0]) && k < |states[0].exe| && j <= |ops|
    ensures var n := SwitchesOf(states, ops, j);
            && (n <= k ==>
                  k - n < |states[j].exe| && states[j].exe[k - n] == states[0].exe[k] &&
                  states[j].active != states[0].exe[k])
            && (n == k + 1 ==> states[j].active == states[0].exe[k])
  {
    hide Conserved, Step, Proper, Switches;
    if j > 0 {
      RunsInTurn(states, ops, k, j - 1);
      assert Step(states[j - 1], ops[j - 1], false) == Next(states[j - 1 + 1]);
      ExeMoves(states[j - 1], ops[j - 1]);
      SwitchesOnce(states[j - 1], ops[j - 1]);
    }
    RunConserves(states, ops, j);
    NotTwice(states[j], states[j].active);
  }

  lemma SwitchesOnce(s: Sched, op: Op)
    requires Proper(s, op)
    ensures Switches(s, op) <= 1
  {
  }
}
