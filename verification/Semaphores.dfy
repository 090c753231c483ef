/** Counting semaphores with direct hand-off and FIFO queues (sthread_lib/sthread_user.c). */
module Semaphores {
  import opened Base

  datatype Sem = Sem(counter: int, queue: seq<nat>)

  /** `sem_wait` by thread `t`: it either takes a unit or joins the queue. */
  function SemWait(s: Sem, t: nat): (Sem, bool) {
    if s.counter > 0 then (s.(counter := s.counter - 1), false) else (s.(queue := s.queue + [t]), true)
  }

  /** `sem_post`: wakes the thread that waited longest, or keeps the unit if nobody waits. */
  function SemPost(s: Sem): (Sem, Option<nat>) {
    if s.queue != [] then (s.(queue := s.queue[1..]), Some(s.queue[0]))
    else (s.(counter := s.counter + 1), None)
  }

  // ----- runs -----

  datatype SemOp = SemOpWait(t: nat) | SemOpPost

  /** A semaphore and the threads that have passed it so far. */
  datatype Crossed = Crossed(s: Sem, passed: seq<nat>)

  function Cross(g: Crossed, op: SemOp): Crossed {
    match op
    case SemOpWait(t) =>
      var (s, blocked) := SemWait(g.s, t);
      Crossed(s, if blocked then g.passed else g.passed + [t])
    case SemOpPost =>
      var (s, woken) := SemPost(g.s);
      Crossed(s, match woken case None => g.passed case Some(t) => g.passed + [t])
  }

  function CrossAll(initial: nat, ops: seq<SemOp>): Crossed {
    if ops == [] then Crossed(Sem(initial, []), []) else Cross(CrossAll(initial, ops[..|ops| - 1]), ops[|ops| - 1])
  }

  function Comers(ops: seq<SemOp>): seq<nat> {
    if ops == [] then []
    else
      var rest := Comers(ops[..|ops| - 1]);
      match ops[|ops| - 1] case SemOpWait(t) => rest + [t] case SemOpPost => rest
  }

  function SemPosts(ops: seq<SemOp>): nat {
    if ops == [] then 0 else SemPosts(ops[..|ops| - 1]) + (if ops[|ops| - 1].SemOpPost? then 1 else 0)
  }

  /** Of those who came as many have passed as there were units, in order; the others wait, in order. */
  predicate Orderly(g: Crossed, came: seq<nat>, units: nat) {
    if |came| <= units then g.passed == came && g.s == Sem(units - |came|, [])
    else g.passed == came[..units] && g.s == Sem(0, came[units..])
  }

  lemma WaitInOrder(g: Crossed, came: seq<nat>, units: nat, t: nat)
    requires Orderly(g, came, units)
    ensures Orderly(Cross(g, SemOpWait(t)), came + [t], units)
  {
    if |came| >= units {
      assert (came + [t])[..units] == came[..units] && (came + [t])[units..] == came[units..] + [t];
      assert |came| == units ==> came[..units] == came && came[units..] == [];
    }
  }

  lemma PostInOrder(g: Crossed, came: seq<nat>, units: nat)
    requires Orderly(g, came, units)
    ensures Orderly(Cross(g, SemOpPost), came, units + 1)
  {
    if |came| > units {
      assert came[..units] + [came[units]] == came[..units + 1] && came[units..][1..] == came[units + 1..];
      assert |came| == units + 1 ==> came[..units + 1] == came && came[units + 1..] == [];
    }
  }

  /**
   * Over any run the threads pass in the order in which they came, as many of them as there were
   * units; units are only counted while nobody waits.
   */
  lemma {:induction false} PassInOrder(initial: nat, ops: seq<SemOp>)
    ensures Orderly(CrossAll(initial, ops), Comers(ops), initial + SemPosts(ops))
    decreases |ops|
  {
    hide Cross;
    if ops != [] {
      var before := ops[..|ops| - 1];
      PassInOrder(initial, before);
      match ops[|ops| - 1]
      case SemOpWait(t) => WaitInOrder(CrossAll(initial, before), Comers(before), initial + SemPosts(before), t);
      case SemOpPost => PostInOrder(CrossAll(initial, before), Comers(before), initial + SemPosts(before));
    }
  }

  class Semaphore {
    var counter: int
    var queue: seq<nat>

    ghost function State(): Sem
      reads this
    {
      Sem(counter, queue)
    }

    constructor (initialCount: nat)
      ensures State() == Sem(initialCount, [])
    {
      counter := initialCount;
      queue := [];
    }

    method Wait(active: nat) returns (blocked: bool)
      modifies this
      ensures (State(), blocked) == SemWait(old(State()), active)
    {
      if counter > 0 {
        counter := counter - 1;
        blocked := false;
      } else {
        queue := queue + [active];
        blocked := true;
      }
    }

    method Post() returns (woken: Option<nat>)
      modifies this
      ensures (State(), woken) == SemPost(old(State()))
    {
      if queue != [] {
        woken := Some(queue[0]);
        queue := queue[1..];
      } else {
        counter := counter + 1;
        woken := None;
      }
    }
  }
}
