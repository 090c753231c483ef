/** The thread library of sthread_lib/sthread_user.c as it is coded: global lists, changed call by call. */
module Threads {
  import opened Base
  import opened Semaphores
  import Scheduler

  class Kernel {
    var clock: int
    var created: nat
    var active: nat
    var exe: seq<nat>
    var sleep: seq<nat>
    var joining: seq<nat>
    var zombie: seq<nat>
    var dead: seq<nat>
    var syncs: seq<Scheduler.Sync>
    var wake: map<nat, int>
    var target: map<nat, nat>
    var ret: map<nat, int>

    ghost function State(): Scheduler.Sched
      reads this
    {
      Scheduler.Sched(clock, created, active, exe, sleep, joining, zombie, dead, syncs, wake, target, ret)
    }

    /** `sthread_user_init`. */
    constructor (syncs: seq<Scheduler.Sync>)
      ensures State() == Scheduler.Init(syncs)
    {
      clock, created, active := 1, 1, 1;
      exe, sleep, joining, zombie, dead := [], [], [], [], [];
      this.syncs := syncs;
      wake, target, ret := map[], map[], map[];
    }

    /** The switch to the first executable thread. */
    method Switch()
      requires exe != []
      modifies this`active, this`exe
      ensures Scheduler.Next(State()) == Scheduler.Switch(old(State()))
    {
      active := exe[0];
      exe := exe[1..];
    }

    /** The loop over the join list: its threads that wait for the caller get the value and can run. */
    method WakeJoiners(value: int) returns (isZombie: bool)
      modifies this`joining, this`exe, this`ret
      ensures var who := Scheduler.Joiners(target, active);
              var joiners := Scheduler.Select(old(joining), who);
              && exe == old(exe) + joiners && joining == Scheduler.Drop(old(joining), who)
              && ret == Scheduler.SetAll(old(ret), joiners, value) && (isZombie <==> joiners == [])
    {
      hide Scheduler.Select, Scheduler.Drop, Scheduler.SetAll;
      NoneSelected();
      ghost var who := Scheduler.Joiners(target, active);
      isZombie := true;
      var tmp: seq<nat> := [];
      while joining != []
        modifies this`joining, this`exe, this`ret
        invariant exe + Scheduler.Select(joining, who) == old(exe) + Scheduler.Select(old(joining), who)
        invariant tmp + Scheduler.Drop(joining, who) == Scheduler.Drop(old(joining), who)
        invariant Scheduler.SetAll(ret, Scheduler.Select(joining, who), value) ==
                  Scheduler.SetAll(old(ret), Scheduler.Select(old(joining), who), value)
        invariant isZombie <==> exe == old(exe)
        invariant |exe| >= |old(exe)|
        decreases |joining|
      {
        var thread := joining[0];
        FirstSelected(joining, who);
        SetFirst(ret, thread, Scheduler.Select(joining[1..], who), value);
        joining := joining[1..];
        if thread in target && target[thread] == active {
          ret := ret[thread := value];
          exe := exe + [thread];
          isZombie := false;
        } else {
          tmp := tmp + [thread];
        }
      }
      joining := tmp;
      assert exe == old(exe) + Scheduler.Select(old(joining), who);
    }

    /** `sthread_user_exit`; the flag tells that the program goes on. */
    method Exit(value: int) returns (goesOn: bool)
      modifies this
      ensures Scheduler.Exit(old(State()), value) == if goesOn then Scheduler.Next(State()) else Scheduler.Exited
    {
      hide Scheduler.Select, Scheduler.Drop, Scheduler.SetAll;
      var isZombie := WakeJoiners(value);
      if isZombie {
        zombie := zombie + [active];
      } else {
        dead := dead + [active];
      }
      if exe == [] {
        return false;
      }
      Switch();
      goesOn := true;
    }

    /** A search along one of the lists. */
    method Search(list: seq<nat>, thread: nat) returns (found: bool)
      ensures found <==> thread in list
    {
      found := false;
      var i := 0;
      while !found && i < |list|
        invariant 0 <= i <= |list| && (found <==> thread in list[..i])
      {
        found := list[i] == thread;
        i := i + 1;
      }
    }

    /** The loop over the zombies as coded: it puts `thread` in the place of every other one. */
    method TakeZombies(thread: nat) returns (found: bool)
      modifies this`zombie, this`dead
      ensures var zombies, others := Scheduler.Select(old(zombie), {thread}), Scheduler.Drop(old(zombie), {thread});
              && dead == old(dead) + zombies && zombie == seq(|others|, _ => thread) && (found <==> zombies != [])
    {
      hide Scheduler.Select, Scheduler.Drop;
      NoneSelected();
      found := false;
      var tmp: seq<nat> := [];
      ghost var who, zombies, others := {thread}, Scheduler.Select(zombie, {thread}), Scheduler.Drop(zombie, {thread});
      while zombie != []
        modifies this`zombie, this`dead
        invariant dead + Scheduler.Select(zombie, who) == old(dead) + zombies
        invariant tmp == seq(|tmp|, _ => thread) && |tmp| + |Scheduler.Drop(zombie, who)| == |others|
        invariant found <==> |Scheduler.Select(zombie, who)| < |zombies|
        invariant |Scheduler.Select(zombie, who)| <= |zombies|
        decreases |zombie|
      {
        var zthread := zombie[0];
        FirstSelected(zombie, who);
        zombie := zombie[1..];
        if thread == zthread {
          dead := dead + [thread];
          found := true;
        } else {
          tmp := tmp + [thread];
        }
      }
      zombie := tmp;
    }

    /** `sthread_user_join` up to the switch; nothing is returned if the caller blocks. */
    method Join(thread: nat) returns (rc: Option<int>)
      requires thread in zombie || !Scheduler.Findable(State(), thread) || exe != []
      modifies this
      ensures Scheduler.Join(old(State()), thread, true) == Scheduler.Next(State())
      ensures rc == Scheduler.JoinRc(old(State()), thread)
    {
      hide Scheduler.Select, Scheduler.Drop;
      ZombieFound(zombie, thread);
      var found := TakeZombies(thread);
      if found {
        return Some(0);
      }
      found := active == thread;
      if !found {
        found := Search(exe, thread);
      }
      if !found {
        found := Search(sleep, thread);
      }
      if !found {
        found := Search(joining, thread);
      }
      if !found {
        return Some(-1);
      }
      target := target[active := thread];
      joining := joining + [active];
      Switch();
      rc := None;
    }

    /** The loop of the dispatcher over the sleeping threads, at one tick. */
    method Tick()
      modifies this`clock, this`sleep, this`exe
      ensures State() == Scheduler.Tick(old(State()))
    {
      hide Scheduler.Select, Scheduler.Drop;
      NoneSelected();
      clock := clock + 1;
      ghost var due := Scheduler.Due(wake, clock);
      var tmp: seq<nat> := [];
      while sleep != []
        modifies this`sleep, this`exe
        invariant exe + Scheduler.Select(sleep, due) == old(exe) + Scheduler.Select(old(sleep), due)
        invariant tmp + Scheduler.Drop(sleep, due) == Scheduler.Drop(old(sleep), due)
        decreases |sleep|
      {
        var thread := sleep[0];
        FirstSelected(sleep, due);
        sleep := sleep[1..];
        if thread in wake && wake[thread] == clock {
          exe := exe + [thread];
        } else {
          tmp := tmp + [thread];
        }
      }
      sleep := tmp;
    }

    /** `sthread_user_mutex_lock` up to the switch: a blocked caller is queued twice. */
    method MutexLock(m: nat)
      requires Scheduler.IsMutex(State(), m)
      modifies this
      ensures Scheduler.Lock(old(State()), m, true) == Scheduler.Next(State())
    {
      var lock := syncs[m];
      if lock.thr == None {
        syncs := syncs[m := Scheduler.Mutex(Some(active), lock.queue)];
      } else {
        syncs := syncs[m := Scheduler.Mutex(lock.thr, lock.queue + [active])];
        exe := exe + [active];
        Switch();
      }
    }

    /** `sthread_user_mutex_unlock`. */
    method MutexUnlock(m: nat)
      requires Scheduler.IsMutex(State(), m)
      modifies this
      ensures State() == Scheduler.Unlock(old(State()), m)
    {
      var lock := syncs[m];
      if lock.thr != Some(active) {
        return;
      }
      if lock.queue == [] {
        syncs := syncs[m := Scheduler.Mutex(None, lock.queue)];
      } else {
        var thr := lock.queue[0];
        syncs := syncs[m := Scheduler.Mutex(Some(thr), lock.queue[1..])];
        exe := exe + [thr];
      }
    }

    /** `sthread_user_monitor_wait` up to the switch. */
    method MonitorWait(c: nat)
      requires Scheduler.IsMonitor(State(), c)
      requires exe != [] || syncs[syncs[c].mutex].queue != [] || syncs[syncs[c].mutex].thr != Some(active)
      modifies this
      ensures Scheduler.MonitorWait(old(State()), c) == Scheduler.Next(State())
    {
      var mon := syncs[c];
      if syncs[mon.mutex].thr != Some(active) {
        return;
      }
      syncs := syncs[c := Scheduler.Monitor(mon.mutex, mon.queue + [active])];
      MutexUnlock(mon.mutex);
      Switch();
    }

    /** `sthread_user_monitor_signalall`: one waiter after the other moves to the queue of the mutex. */
    method MonitorSignalAll(c: nat)
      requires Scheduler.IsMonitor(State(), c)
      modifies this`syncs
      ensures State() == Scheduler.SignalAll(old(State()), c)
    {
      var m := syncs[c].mutex;
      if syncs[m].thr != Some(active) {
        return;
      }
      ghost var start, k := State(), 0;
      NobodySignalled(start, c);
      while syncs[c].queue != []
        invariant Scheduler.IsMonitor(State(), c) && syncs[c].mutex == m
        invariant k <= |start.syncs[c].queue| && State() == Scheduler.Signalled(start, c, k)
        invariant syncs[c].queue == start.syncs[c].queue[k..]
        decreases |syncs[c].queue|
      {
        OneMoreSignalled(start, c, k);
        var temp := syncs[c].queue[0];
        syncs := syncs[c := Scheduler.Monitor(m, syncs[c].queue[1..])];
        syncs := syncs[m := Scheduler.Mutex(syncs[m].thr, syncs[m].queue + [temp])];
        k := k + 1;
      }
    }
  }

  lemma NoneSelected()
    ensures forall who: set<nat> :: Scheduler.Select([], who) == [] && Scheduler.Drop([], who) == []
    ensures forall m: map<nat, int>, v: int :: Scheduler.SetAll(m, [], v) == m
  {
  }

  lemma FirstSelected(q: seq<nat>, who: set<nat>)
    requires q != []
    ensures Scheduler.Select(q, who) ==
            if q[0] in who then [q[0]] + Scheduler.Select(q[1..], who) else Scheduler.Select(q[1..], who)
    ensures Scheduler.Drop(q, who) ==
            if q[0] in who then Scheduler.Drop(q[1..], who) else [q[0]] + Scheduler.Drop(q[1..], who)
  {
  }

  lemma SetFirst(m: map<nat, int>, t: nat, q: seq<nat>, v: int)
    ensures Scheduler.SetAll(m, [t] + q, v) == Scheduler.SetAll(m[t := v], q, v)
  {
    assert ([t] + q)[1..] == q;
  }

  lemma {:induction false} ZombieFound(zombie: seq<nat>, thread: nat)
    ensures Scheduler.Select(zombie, {thread}) != [] <==> thread in zombie
  {
    if zombie != [] {
      ZombieFound(zombie[1..], thread);
      assert thread in zombie <==> thread == zombie[0] || thread in zombie[1..];
    }
  }

  lemma NobodySignalled(s: Scheduler.Sched, c: nat)
    requires Scheduler.IsMonitor(s, c)
    ensures Scheduler.Signalled(s, c, 0) == s
  {
    var y := s.syncs[c];
    var x := s.syncs[y.mutex];
    assert x.queue + y.queue[..0] == x.queue && y.queue[0..] == y.queue;
    assert s.syncs[c := y][y.mutex := x] == s.syncs;
  }

  /** One more turn of the loop of `signalall`. */
  lemma OneMoreSignalled(s: Scheduler.Sched, c: nat, k: nat)
    requires Scheduler.IsMonitor(s, c) && k < |s.syncs[c].queue|
    ensures var s', m, q := Scheduler.Signalled(s, c, k), s.syncs[c].mutex, s.syncs[c].queue;
            && Scheduler.IsMonitor(s', c) && Scheduler.IsMutex(s', m) && s'.syncs[c] == Scheduler.Monitor(m, q[k..])
            && Scheduler.Signalled(s, c, k + 1) ==
               s'.(syncs := s'.syncs[c := Scheduler.Monitor(m, q[k + 1..])]
                                    [m := Scheduler.Mutex(s'.syncs[m].thr, s'.syncs[m].queue + [q[k]])])
  {
    var y := s.syncs[c];
    var x := s.syncs[y.mutex];
    assert x.queue + y.queue[..k + 1] == x.queue + y.queue[..k] + [y.queue[k]];
    assert Scheduler.Signalled(s, c, k + 1).syncs ==
           s.syncs[c := Scheduler.Monitor(y.mutex, y.queue[k..])]
                  [y.mutex := Scheduler.Mutex(x.thr, x.queue + y.queue[..k])]
                  [c := Scheduler.Monitor(y.mutex, y.queue[k + 1..])]
                  [y.mutex := Scheduler.Mutex(x.thr, x.queue + y.queue[..k] + [y.queue[k]])];
  }
}
