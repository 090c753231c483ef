/**
 * The readers/writer lock (sthread_lib/sthread_user.c:585-692). The sections guarded by the
 * mutex `m` are functions on `Lock`; the unlocker's calls of `sem_post` are functions of their own.
 */
module RwLock {
  import opened Base
  import opened Semaphores

  datatype Lock = Lock(
    nleitores: int,
    emEscrita: int,
    leitoresEspera: int,
    escritoresEspera: int,
    leitores: Sem,
    escritores: Sem)

  function InitLock(): Lock {
    Lock(0, 0, 0, 0, Sem(0, []), Sem(0, []))
  }

  /** First section of `rdlock`; the flag tells that the caller goes on to `sem_wait`. */
  function RdEnter(l: Lock): (Lock, bool) {
    if l.emEscrita != 0 || l.escritoresEspera > 0 then
      (l.(leitoresEspera := l.leitoresEspera + 1), true)
    else
      (l.(nleitores := l.nleitores + 1), false)
  }

  /** First section of `wrlock`. */
  function WrEnter(l: Lock): (Lock, bool) {
    if l.emEscrita != 0 || l.nleitores > 0 then
      (l.(escritoresEspera := l.escritoresEspera + 1), true)
    else
      (l.(emEscrita := 1), false)
  }

  /** What is left to post after the first decision of `unlock`. */
  datatype Job = Nothing | Readers | Writer

  /** `unlock` up to its first `sem_post`. */
  function UnlockStart(l: Lock): (Lock, Job) {
    if l.emEscrita == 1 then
      var l' := l.(emEscrita := 0);
      (l', if l.leitoresEspera > 0 then Readers else if l.escritoresEspera > 0 then Writer else Nothing)
    else
      var l' := l.(nleitores := l.nleitores - 1);
      (l', if l'.nleitores == 0 && l'.escritoresEspera > 0 then Writer else Nothing)
  }

  /** One turn of the loop that wakes the waiting readers. */
  function PostReader(l: Lock): (Lock, Option<nat>) {
    var (leitores, woken) := SemPost(l.leitores);
    (l.(leitores := leitores, nleitores := l.nleitores + 1), woken)
  }

  function PostWriter(l: Lock): (Lock, Option<nat>) {
    var (escritores, woken) := SemPost(l.escritores);
    (l.(escritores := escritores, emEscrita := 1, escritoresEspera := l.escritoresEspera - 1), woken)
  }

  function WokenList(woken: Option<nat>): seq<nat> {
    match woken case None => [] case Some(t) => [t]
  }

  /** The reader loop from turn `i` to its end, with the threads it wakes. */
  function PostReaders(l: Lock, i: nat): (Lock, seq<nat>)
    decreases l.leitoresEspera - i
  {
    if i < l.leitoresEspera then
      var (l', woken) := PostReader(l);
      var (end, rest) := PostReaders(l', i + 1);
      (end, WokenList(woken) + rest)
    else
      (l.(leitoresEspera := l.leitoresEspera - i), [])
  }

  /** A whole `unlock` with the threads it wakes, when nothing interleaves with it. */
  function Unlock(l: Lock): (Lock, seq<nat>) {
    var (l', job) := UnlockStart(l);
    match job
    case Nothing => (l', [])
    case Readers => PostReaders(l', 0)
    case Writer => var (end, woken) := PostWriter(l'); (end, WokenList(woken))
  }

  class RwlockObject {
    var nleitores: int
    var emEscrita: int
    var leitoresEspera: int
    var escritoresEspera: int
    const leitores: Semaphore
    const escritores: Semaphore

    ghost predicate Valid() {
      leitores != escritores
    }

    ghost function State(): Lock
      reads this, leitores, escritores
    {
      Lock(nleitores, emEscrita, leitoresEspera, escritoresEspera, leitores.State(), escritores.State())
    }

    constructor ()
      ensures Valid() && fresh(leitores) && fresh(escritores)
      ensures State() == InitLock()
    {
      leitores := new Semaphore(0);
      escritores := new Semaphore(0);
      nleitores, emEscrita, leitoresEspera, escritoresEspera := 0, 0, 0, 0;
    }

    method RdlockSection() returns (waits: bool)
      requires Valid()
      modifies this
      ensures (State(), waits) == RdEnter(old(State()))
    {
      waits := emEscrita != 0 || escritoresEspera > 0;
      if waits {
        leitoresEspera := leitoresEspera + 1;
      } else {
        nleitores := nleitores + 1;
      }
    }

    method WrlockSection() returns (waits: bool)
      requires Valid()
      modifies this
      ensures (State(), waits) == WrEnter(old(State()))
    {
      waits := emEscrita != 0 || nleitores > 0;
      if waits {
        escritoresEspera := escritoresEspera + 1;
      } else {
        emEscrita := 1;
      }
    }

    method UnlockSection() returns (woken: seq<nat>)
      requires Valid()
      modifies this, leitores, escritores
      ensures (State(), woken) == Unlock(old(State()))
    {
      woken := [];
      var one: Option<nat>;
      if emEscrita == 1 {
        emEscrita := 0;
        if leitoresEspera > 0 {
          ghost var goal := PostReaders(State(), 0);
          var i := 0;
          while i < leitoresEspera
            invariant 0 <= i <= leitoresEspera
            invariant unchanged(escritores) && leitoresEspera == old(leitoresEspera)
            invariant goal.0 == PostReaders(State(), i).0
            invariant goal.1 == woken + PostReaders(State(), i).1
          {
            one := leitores.Post();
            nleitores := nleitores + 1;
            woken := woken + WokenList(one);
            i := i + 1;
          }
          assert goal.1 == woken + [] == woken;
          leitoresEspera := leitoresEspera - i;
          return;
        } else if escritoresEspera > 0 {
          one := escritores.Post();
          emEscrita := 1;
          escritoresEspera := escritoresEspera - 1;
          woken := WokenList(one);
        }
      } else {
        nleitores := nleitores - 1;
        if nleitores == 0 && escritoresEspera > 0 {
          one := escritores.Post();
          emEscrita := 1;
          escritoresEspera := escritoresEspera - 1;
          woken := WokenList(one);
        }
      }
    }
  }
}
