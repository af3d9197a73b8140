/** The mutex and the counting semaphore, one atomic operation at a time. */
module Locks {
  type Thread = nat

  // ----- the mutex -----

  // A holder has the flag; it then stores its number, and takes it away again before it gives the flag back.
  datatype Pc = Out | Trying | GotFlag | Holding | Leaving

  // Thread numbers start from 1; 0 stands for no owner.
  datatype Mutex = Mutex(locked: bool, owner: nat, pcs: map<Thread, Pc>)

  datatype MutexAction = Lock(t: Thread) | TryLock(t: Thread) | Next(t: Thread) | DropGuard(t: Thread)

  const UNLOCKED: Mutex := Mutex(false, 0, map[])

  function At(pcs: map<Thread, Pc>, t: Thread): Pc {
    if t in pcs then pcs[t] else Out
  }

  function To(m: Mutex, t: Thread, pc: Pc): (r: Mutex)
    ensures r.pcs == m.pcs[t := pc] && forall u: Thread :: At(r.pcs, u) == if u == t then pc else At(m.pcs, u)
  {
    m.(pcs := m.pcs[t := pc])
  }

  // The exchange of the flag.
  function Take(m: Mutex, t: Thread, otherwise: Pc): Mutex {
    if m.locked then To(m, t, otherwise) else To(m, t, GotFlag).(locked := true)
  }

  function StepMutex(m: Mutex, a: MutexAction): Mutex {
    match a
    case Lock(t) => if At(m.pcs, t).Out? then To(m, t, Trying) else m
    case TryLock(t) => if At(m.pcs, t).Out? then Take(m, t, Out) else m
    case DropGuard(t) => if At(m.pcs, t).Holding? then To(m, t, Leaving).(owner := 0) else m
    case Next(t) =>
      match At(m.pcs, t)
      case Trying => Take(m, t, Trying)
      case GotFlag => To(m, t, Holding).(owner := t)
      case Leaving => To(m, t, Out).(locked := false)
      case _ => m
  }

  function RunMutex(actions: seq<MutexAction>): Mutex {
    if actions == [] then UNLOCKED else StepMutex(RunMutex(actions[..|actions| - 1]), actions[|actions| - 1])
  }

  predicate HasFlag(pc: Pc) { pc.GotFlag? || pc.Holding? || pc.Leaving? }

  ghost predicate MutexInv(m: Mutex) {
    && (forall t: Thread, u: Thread :: HasFlag(At(m.pcs, t)) && HasFlag(At(m.pcs, u)) ==> t == u)
    && (forall t: Thread :: HasFlag(At(m.pcs, t)) ==> m.locked)
    && (m.locked ==> exists t: Thread :: HasFlag(At(m.pcs, t)))
    && (forall t: Thread :: At(m.pcs, t).Holding? ==> m.owner == t)
    && ((forall t: Thread :: !At(m.pcs, t).Holding?) ==> m.owner == 0)
  }

  lemma MutexStepKeeps(m: Mutex, a: MutexAction)
    requires MutexInv(m)
    ensures MutexInv(StepMutex(m, a))
  {
    var m' := StepMutex(m, a);
    assert HasFlag(At(m'.pcs, a.t)) || At(m'.pcs, a.t).Out? || At(m'.pcs, a.t).Trying?;
    assert m.owner != 0 ==> exists t: Thread :: At(m.pcs, t).Holding?;
    if m'.locked && m.locked {
      var u: Thread :| HasFlag(At(m.pcs, u));
      assert HasFlag(At(m'.pcs, u));
    }
  }

  lemma {:induction false} MutexRunKeeps(actions: seq<MutexAction>)
    ensures MutexInv(RunMutex(actions))
    decreases |actions|
  {
    if actions != [] {
      MutexRunKeeps(actions[..|actions| - 1]);
      MutexStepKeeps(RunMutex(actions[..|actions| - 1]), actions[|actions| - 1]);
    }
  }

  // In every run at most one guard is out, the owner is then its holder, and without a guard there is no owner.
  lemma MutexExcludes(actions: seq<MutexAction>, t: Thread, u: Thread)
    ensures var m := RunMutex(actions);
            && (At(m.pcs, t).Holding? && At(m.pcs, u).Holding? ==> t == u)
            && (At(m.pcs, t).Holding? ==> m.locked && m.owner == t)
            && ((forall v: Thread :: !At(m.pcs, v).Holding?) ==> m.owner == 0)
  {
    MutexRunKeeps(actions);
    var m := RunMutex(actions);
    assert At(m.pcs, t).Holding? && At(m.pcs, u).Holding? ==> HasFlag(At(m.pcs, t)) && HasFlag(At(m.pcs, u));
  }

  ghost predicate Free(m: Mutex) {
    forall u: Thread :: !HasFlag(At(m.pcs, u))
  }

  // In every run: try_lock gets the mutex exactly if nobody has it, lock gets it on its next try exactly then, and a
  // guard that is dropped leaves it free.
  lemma MutexAnswers(actions: seq<MutexAction>, t: Thread)
    ensures var m := RunMutex(actions);
            var pc := At(m.pcs, t);
            && (pc.Out? ==> At(StepMutex(m, TryLock(t)).pcs, t) == (if Free(m) then GotFlag else Out))
            && (pc.Out? ==> At(StepMutex(m, Lock(t)).pcs, t) == Trying)
            && (pc.Trying? ==> At(StepMutex(m, Next(t)).pcs, t) == (if Free(m) then GotFlag else Trying))
            && (pc.GotFlag? ==> At(StepMutex(m, Next(t)).pcs, t) == Holding)
            && (pc.Holding? ==> At(StepMutex(m, DropGuard(t)).pcs, t) == Leaving)
            && (pc.Leaving? ==> Free(StepMutex(m, Next(t))) && !StepMutex(m, Next(t)).locked)
  {
    MutexRunKeeps(actions);
    var m := RunMutex(actions);
    if m.locked {
      var u: Thread :| HasFlag(At(m.pcs, u));
    }
    if At(m.pcs, t).Leaving? { Freed(m, t); }
  }

  lemma Freed(m: Mutex, t: Thread)
    requires MutexInv(m) && At(m.pcs, t).Leaving?
    ensures Free(StepMutex(m, Next(t)))
  {
    forall u: Thread ensures !HasFlag(At(StepMutex(m, Next(t)).pcs, u)) {
      assert HasFlag(At(m.pcs, t)) && (HasFlag(At(m.pcs, u)) ==> t == u);
    }
  }

  // ----- the semaphore -----

  // Between the load and the exchange a thread remembers what it has read.
  datatype SemPc = Idle | Waiting(seen: nat) | Signalling(seen: nat)

  // waits and signals count the calls that have succeeded.
  datatype Semaphore = Semaphore(count: nat, max: nat, pcs: map<Thread, SemPc>, waits: nat, signals: nat)

  datatype SemAction = LoadForWait(t: Thread) | LoadForSignal(t: Thread) | Exchange(t: Thread)

  function SemAt(pcs: map<Thread, SemPc>, t: Thread): SemPc {
    if t in pcs then pcs[t] else Idle
  }

  // A load of what permits nothing leaves the thread where it was: wait spins, signal fails.
  function StepSem(s: Semaphore, a: SemAction): Semaphore {
    match a
    case LoadForWait(t) => if SemAt(s.pcs, t).Idle? && s.count > 0 then s.(pcs := s.pcs[t := Waiting(s.count)]) else s
    case LoadForSignal(t) => if SemAt(s.pcs, t).Idle? && s.count < s.max then s.(pcs := s.pcs[t := Signalling(s.count)]) else s
    case Exchange(t) =>
      match SemAt(s.pcs, t)
      case Idle => s
      case Waiting(seen) =>
        var back := s.(pcs := s.pcs[t := Idle]);
        if s.count == seen && seen > 0 then back.(count := seen - 1, waits := s.waits + 1) else back
      case Signalling(seen) =>
        var back := s.(pcs := s.pcs[t := Idle]);
        if s.count == seen then back.(count := seen + 1, signals := s.signals + 1) else back
  }

  function RunSem(initial: nat, max: nat, actions: seq<SemAction>): Semaphore
    decreases |actions|
  {
    if actions == [] then Semaphore(initial, max, map[], 0, 0)
    else StepSem(RunSem(initial, max, actions[..|actions| - 1]), actions[|actions| - 1])
  }

  ghost predicate SemInv(s: Semaphore, initial: nat, max: nat) {
    && s.max == max && s.count + s.waits == initial + s.signals && (s.count <= max || s.count <= initial)
    && forall t: Thread :: match SemAt(s.pcs, t)
                           case Idle => true
                           case Waiting(seen) => seen > 0
                           case Signalling(seen) => seen < max
  }

  // However loads and exchanges interleave, the count is the initial one plus the signals minus the waits that
  // have succeeded: no permit is lost or made; and it stays within the larger of the initial count and the maximum.
  lemma {:induction false} SemaphoreConserves(initial: nat, max: nat, actions: seq<SemAction>)
    ensures SemInv(RunSem(initial, max, actions), initial, max)
    decreases |actions|
  {
    if actions != [] {
      SemaphoreConserves(initial, max, actions[..|actions| - 1]);
      SemStepKeeps(RunSem(initial, max, actions[..|actions| - 1]), actions[|actions| - 1], initial, max);
    }
  }

  predicate Others(t: Thread, actions: seq<SemAction>) {
    forall i :: 0 <= i < |actions| ==> actions[i].t != t
  }

  function RunFrom(s: Semaphore, actions: seq<SemAction>): Semaphore
    decreases |actions|
  {
    if actions == [] then s else StepSem(RunFrom(s, actions[..|actions| - 1]), actions[|actions| - 1])
  }

  lemma {:induction false} OthersRun(s: Semaphore, t: Thread, actions: seq<SemAction>)
    requires Others(t, actions)
    ensures SemAt(RunFrom(s, actions).pcs, t) == SemAt(s.pcs, t) && RunFrom(s, actions).max == s.max
    decreases |actions|
  {
    if actions != [] { OthersRun(s, t, actions[..|actions| - 1]); }
  }

  // One try of wait: it takes a permit exactly if its load finds one and the count has not changed by its exchange,
  // whatever the others do in between; otherwise it takes none and stands where it began.
  lemma WaitAnswers(s: Semaphore, t: Thread, between: seq<SemAction>)
    requires SemAt(s.pcs, t).Idle? && Others(t, between)
    ensures var x := RunFrom(StepSem(s, LoadForWait(t)), between);
            var end := StepSem(x, Exchange(t));
            && SemAt(end.pcs, t).Idle? && end.signals == x.signals
            && (if s.count > 0 && x.count == s.count then end.count == x.count - 1 && end.waits == x.waits + 1
                else end.count == x.count && end.waits == x.waits)
  {
    OthersRun(StepSem(s, LoadForWait(t)), t, between);
  }

  // One try of signal: the same against the maximum.
  lemma SignalAnswers(s: Semaphore, t: Thread, between: seq<SemAction>)
    requires SemAt(s.pcs, t).Idle? && Others(t, between)
    ensures var x := RunFrom(StepSem(s, LoadForSignal(t)), between);
            var end := StepSem(x, Exchange(t));
            && SemAt(end.pcs, t).Idle? && end.waits == x.waits
            && (if s.count < s.max && x.count == s.count then end.count == x.count + 1 && end.signals == x.signals + 1
                else end.count == x.count && end.signals == x.signals)
  {
    OthersRun(StepSem(s, LoadForSignal(t)), t, between);
  }

  lemma SemStepKeeps(s: Semaphore, a: SemAction, initial: nat, max: nat)
    requires SemInv(s, initial, max)
    ensures SemInv(StepSem(s, a), initial, max)
  {
    var s' := StepSem(s, a);
    assert forall u: Thread :: u != a.t ==> SemAt(s'.pcs, u) == SemAt(s.pcs, u);
  }
}
