/** `mutex_lock` as coded: who owns the mutex when it runs again. */
module LockOwnership {
  import opened Base
  import opened Semaphores
  import opened Scheduler
  import opened ThreadTheorems

  /** Nobody but its owner changes the owner of a mutex, as coded too. */
  lemma OwnerStaysAsCoded(s: Sched, op: Op, m: nat)
    requires Proper(s, op) && Step(s, op, true).Next? && IsMutex(s, m)
    ensures IsMutex(Step(s, op, true).s, m)
    ensures s.syncs[m].thr.Some? && s.syncs[m].thr != Some(s.active) ==>
              Step(s, op, true).s.syncs[m].thr == s.syncs[m].thr
  {
    hide Create, Yield, Tick, Exit, Sleep, Unlock, Wait, Post, MonitorWait, Signal, SignalAll, Select, Drop;
    if op.OpLock? || op.OpJoin? {
    } else {
      assert Step(s, op, false) == Step(s, op, true);
      OwnerStays(s, op, m);
    }
  }

  /** `t` is on its way back: after `k` more calls it runs, and it did not before. */
  predicate Returns(states: seq<Sched>, t: nat, k: nat) {
    k < |states| && states[k].active == t && forall i | 0 <= i < k :: states[i].active != t
  }

  lemma AtOnce(states: seq<Sched>, t: nat, k: nat)
    requires Returns(states, t, k) && states[0].active == t
    ensures k == 0
  {
  }

  lemma {:induction false} OwnerUntilReturn(states: seq<Sched>, ops: seq<Op>, m: nat, t: nat, k: nat)
    requires Run(states, ops, true) && k < |states| && IsMutex(states[0], m) && states[0].syncs[m].thr == Some(t)
    requires forall i | 0 <= i < k :: states[i].active != t
    ensures IsMutex(states[k], m) && states[k].syncs[m].thr == Some(t)
  {
    hide Step, Proper;
    if k > 0 {
      OwnerUntilReturn(states, ops, m, t, k - 1);
      assert Step(states[k - 1], ops[k - 1], true) == Next(states[k - 1 + 1]);
      OwnerStaysAsCoded(states[k - 1], ops[k - 1], m);
    }
  }

  /** Whenever the caller of `mutex_lock` runs again it owns the mutex. */
  ghost predicate AlwaysOwns(s: Sched, t: nat, m: nat) {
    forall states: seq<Sched>, ops: seq<Op>, k: nat |
      Run(states, ops, true) && states[0] == s && Returns(states, t, k) ::
        IsMutex(states[k], m) && states[k].syncs[m].thr == Some(t)
  }

  /** `k` calls of `yield`. */
  function YieldRun(s: Sched, k: nat): (states: seq<Sched>)
    ensures |states| == k + 1
  {
    seq(k + 1, i requires 0 <= i => Yields(s, i))
  }

  lemma YieldsAreARun(s: Sched, k: nat)
    ensures Run(YieldRun(s, k), seq(k, _ => OpYield), true)
  {
    forall i | 0 <= i < k ensures Yield(Yields(s, i)) == Next(Yields(s, i + 1)) {
      YieldPlaces(Yields(s, i), 0);
    }
  }

  /** The state of a blocked caller: it stands last in the executable list, or runs if it is alone. */
  lemma CodedLockIs(s: Sched, m: nat)
    requires IsMutex(s, m) && s.syncs[m].thr != None
    ensures Lock(s, m, true).Next?
    ensures var s' := Lock(s, m, true).s;
            && IsMutex(s', m) && s'.syncs[m].thr == s.syncs[m].thr
            && (s.exe == [] ==> s'.active == s.active)
            && (s.exe != [] ==> s'.active == s.exe[0] && s'.exe == s.exe[1..] + [s.active])
  {
    if s.exe != [] {
      assert (s.exe + [s.active])[1..] == s.exe[1..] + [s.active];
    }
  }

  /** Yields alone bring it back, and leave the mutex to its owner. */
  lemma ReturnsByYields(s: Sched, m: nat)
    requires Conserved(s) && IsMutex(s, m) && s.syncs[m].thr != None
    ensures Lock(s, m, true).Next?
    ensures var states := YieldRun(Lock(s, m, true).s, |s.exe|);
            && Returns(states, s.active, |s.exe|)
            && IsMutex(states[|s.exe|], m) && states[|s.exe|].syncs[m].thr == s.syncs[m].thr
  {
    CodedLockIs(s, m);
    NotTwice(s, s.active);
    hide Conserved, Lock;
    var s', n := Lock(s, m, true).s, |s.exe|;
    var states := YieldRun(s', n);
    forall i | 0 <= i <= n
      ensures states[i].syncs == s'.syncs && (i < n ==> states[i].active == s.exe[i]) &&
              (i == n ==> states[i].active == s.active)
    {
      if i > 0 {
        YieldsRotate(s', i);
      }
    }
  }

  /**
   * As coded, the caller of `mutex_lock` owns the mutex whenever it runs again, in every
   * continuation, exactly if the mutex was free or its own. Otherwise yields alone bring it back
   * without the mutex.
   */
  lemma CodedLockOwnsIff(s: Sched, m: nat)
    requires Conserved(s) && IsMutex(s, m)
    ensures Lock(s, m, true).Next?
    ensures AlwaysOwns(Lock(s, m, true).s, s.active, m) <==> s.syncs[m].thr == None || s.syncs[m].thr == Some(s.active)
  {
    var t, s' := s.active, Lock(s, m, true).s;
    if s.syncs[m].thr == None {
      assert s'.active == t && s'.syncs[m].thr == Some(t);
      forall states: seq<Sched>, ops: seq<Op>, k: nat |
        Run(states, ops, true) && states[0] == s' && Returns(states, t, k)
        ensures IsMutex(states[k], m) && states[k].syncs[m].thr == Some(t)
      {
        AtOnce(states, t, k);
      }
    } else {
      CodedLockIs(s, m);
      hide Lock, Conserved;
      if s.syncs[m].thr == Some(t) {
        forall states: seq<Sched>, ops: seq<Op>, k: nat |
          Run(states, ops, true) && states[0] == s' && Returns(states, t, k)
          ensures IsMutex(states[k], m) && states[k].syncs[m].thr == Some(t)
        {
          OwnerUntilReturn(states, ops, m, t, k);
        }
      } else {
        ReturnsByYields(s, m);
        YieldsAreARun(s', |s.exe|);
        var states := YieldRun(s', |s.exe|);
        assert states[0] == s' && Returns(states, t, |s.exe|);
      }
    }
  }
}
