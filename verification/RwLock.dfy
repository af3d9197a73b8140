/** The reader-writer lock, one atomic operation at a time, with any number of threads. */
module RwLock {
  type Thread = nat
  type Data = int

  // Where a thread stands. Reading and Writing hold a guard; a reader remembers what it saw on getting it.
  datatype Pc =
    | Outside
    | ReadTop                // at the top of read's loop
    | SeenFree               // has seen no writer
    | Counted                // has added itself to the readers
    | BackingOut             // has then seen a writer
    | Reading(seen: Data)
    | WriteTop               // trying to take the writer flag
    | Claimed                // has it, and waits for the readers to leave
    | Writing

  datatype State = State(readers: int, writer: bool, data: Data, pcs: map<Thread, Pc>)

  datatype Action =
    | StartRead(t: Thread)
    | StartWrite(t: Thread)
    | Advance(t: Thread)         // the next atomic operation of read or write
    | CasFails(t: Thread)        // the weak exchange fails without reason
    | Put(t: Thread, v: Data)    // a write through the guard
    | Drop(t: Thread)            // the guard goes

  function Init(data: Data): State {
    State(0, false, data, map[])
  }

  function At(pcs: map<Thread, Pc>, t: Thread): Pc {
    if t in pcs then pcs[t] else Outside
  }

  function To(s: State, t: Thread, pc: Pc): (r: State)
    ensures r.pcs == s.pcs[t := pc] && forall u: Thread :: At(r.pcs, u) == if u == t then pc else At(s.pcs, u)
  {
    s.(pcs := s.pcs[t := pc])
  }

  // An action that the thread is not ready for changes nothing.
  function Step(s: State, a: Action): State {
    match a
    case StartRead(t) => if At(s.pcs, t).Outside? then To(s, t, ReadTop) else s
    case StartWrite(t) => if At(s.pcs, t).Outside? then To(s, t, WriteTop) else s
    case CasFails(t) => s
    case Put(t, v) => if At(s.pcs, t).Writing? then s.(data := v) else s
    case Drop(t) =>
      (match At(s.pcs, t)
       case Reading(_) => To(s, t, Outside).(readers := s.readers - 1)
       case Writing => To(s, t, Outside).(writer := false)
       case _ => s)
    case Advance(t) =>
      match At(s.pcs, t)
      case ReadTop => if s.writer then s else To(s, t, SeenFree)
      case SeenFree => To(s, t, Counted).(readers := s.readers + 1)
      case Counted => if s.writer then To(s, t, BackingOut) else To(s, t, Reading(s.data))
      case BackingOut => To(s, t, ReadTop).(readers := s.readers - 1)
      case WriteTop => if s.writer then s else To(s, t, Claimed).(writer := true)
      case Claimed => if s.readers > 0 then s else To(s, t, Writing)
      case _ => s
  }

  function Run(s: State, actions: seq<Action>): State
    decreases |actions|
  {
    if actions == [] then s else Step(Run(s, actions[..|actions| - 1]), actions[|actions| - 1])
  }

  // Between the increment and the decrement.
  predicate IsCounted(pc: Pc) { pc.Counted? || pc.BackingOut? || pc.Reading? }

  predicate HasFlag(pc: Pc) { pc.Claimed? || pc.Writing? }

  function CountedThreads(pcs: map<Thread, Pc>): set<Thread> {
    set t | t in pcs && IsCounted(pcs[t])
  }

  ghost predicate OneFlag(s: State) {
    && (forall t: Thread, u: Thread :: HasFlag(At(s.pcs, t)) && HasFlag(At(s.pcs, u)) ==> t == u)
    && (forall t: Thread :: HasFlag(At(s.pcs, t)) ==> s.writer)
    && (s.writer ==> exists t: Thread :: HasFlag(At(s.pcs, t)))
  }

  // What holds of every reachable state.
  ghost predicate Inv(s: State) {
    && s.readers == |CountedThreads(s.pcs)|
    && OneFlag(s)
    && (forall t: Thread, u: Thread :: At(s.pcs, t).Writing? ==> !At(s.pcs, u).Reading?)
    && (forall t: Thread :: At(s.pcs, t).Reading? ==> At(s.pcs, t).seen == s.data)
  }

  lemma CountIn(s: State, t: Thread, pc: Pc)
    requires !IsCounted(At(s.pcs, t)) && IsCounted(pc)
    ensures |CountedThreads(s.pcs[t := pc])| == |CountedThreads(s.pcs)| + 1
  {
    assert CountedThreads(s.pcs[t := pc]) == CountedThreads(s.pcs) + {t};
  }

  lemma CountOut(s: State, t: Thread, pc: Pc)
    requires IsCounted(At(s.pcs, t)) && !IsCounted(pc)
    ensures |CountedThreads(s.pcs[t := pc])| == |CountedThreads(s.pcs)| - 1
  {
    assert CountedThreads(s.pcs[t := pc]) == CountedThreads(s.pcs) - {t};
  }

  lemma CountSame(s: State, t: Thread, pc: Pc)
    requires IsCounted(At(s.pcs, t)) == IsCounted(pc)
    ensures |CountedThreads(s.pcs[t := pc])| == |CountedThreads(s.pcs)|
  {
    assert CountedThreads(s.pcs[t := pc]) == CountedThreads(s.pcs);
  }

  lemma CountedIsCounted(s: State, t: Thread)
    requires s.readers == |CountedThreads(s.pcs)| && IsCounted(At(s.pcs, t))
    ensures s.readers > 0
  {
    assert t in CountedThreads(s.pcs);
  }

  lemma AdvanceKeeps(s: State, t: Thread)
    requires Inv(s)
    ensures Inv(Step(s, Advance(t)))
  {
    var s' := Step(s, Advance(t));
    match At(s.pcs, t)
    case SeenFree => CountIn(s, t, Counted);
    case Counted => CountSame(s, t, At(s'.pcs, t));
    case BackingOut => CountOut(s, t, ReadTop);
    case Claimed =>
      CountSame(s, t, At(s'.pcs, t));
      forall u: Thread | At(s.pcs, u).Reading? ensures s.readers > 0 { CountedIsCounted(s, u); }
    case ReadTop => CountSame(s, t, SeenFree);
    case WriteTop => CountSame(s, t, Claimed);
    case _ =>
  }

  lemma StepKeeps(s: State, a: Action)
    requires Inv(s)
    ensures Inv(Step(s, a))
  {
    match a
    case StartRead(t) => if At(s.pcs, t).Outside? { CountSame(s, t, ReadTop); }
    case StartWrite(t) => if At(s.pcs, t).Outside? { CountSame(s, t, WriteTop); }
    case CasFails(t) =>
    case Put(t, v) =>
    case Drop(t) =>
      if At(s.pcs, t).Reading? { CountOut(s, t, Outside); } else if At(s.pcs, t).Writing? { CountSame(s, t, Outside); }
    case Advance(t) => AdvanceKeeps(s, t);
  }

  lemma {:induction false} RunKeeps(data: Data, actions: seq<Action>)
    ensures Inv(Run(Init(data), actions))
    decreases |actions|
  {
    if actions == [] {
      assert CountedThreads(map[]) == {};
    } else {
      RunKeeps(data, actions[..|actions| - 1]);
      StepKeeps(Run(Init(data), actions[..|actions| - 1]), actions[|actions| - 1]);
    }
  }

  // Whoever holds the write guard is alone: no other writer and no reader.
  lemma WriterExcludes(data: Data, actions: seq<Action>, t: Thread, u: Thread)
    ensures var pcs := Run(Init(data), actions).pcs;
            At(pcs, t).Writing? && u != t ==> !At(pcs, u).Writing? && !At(pcs, u).Reading?
  {
    RunKeeps(data, actions);
    var pcs := Run(Init(data), actions).pcs;
    assert HasFlag(At(pcs, t)) && HasFlag(At(pcs, u)) ==> t == u;
  }

  // While a reader holds its guard, the data stay what it saw on getting the guard.
  lemma ReadersSeeOneValue(data: Data, actions: seq<Action>, t: Thread)
    ensures var s := Run(Init(data), actions);
            At(s.pcs, t).Reading? ==> At(s.pcs, t).seen == s.data
  {
    RunKeeps(data, actions);
  }

  // The value that the last holder of the write guard has put, or the one at the beginning.
  function LastPut(data: Data, actions: seq<Action>): Data
    decreases |actions|
  {
    if actions == [] then data
    else
      var before, a := actions[..|actions| - 1], actions[|actions| - 1];
      if a.Put? && At(Run(Init(data), before).pcs, a.t).Writing? then a.v else LastPut(data, before)
  }

  // And that is what the last writer put: no other action changes the data.
  lemma {:induction false} ReadersSeeLastPut(data: Data, actions: seq<Action>, t: Thread)
    ensures var s := Run(Init(data), actions);
            s.data == LastPut(data, actions) && (At(s.pcs, t).Reading? ==> At(s.pcs, t).seen == LastPut(data, actions))
    decreases |actions|
  {
    ReadersSeeOneValue(data, actions, t);
    if actions != [] {
      ReadersSeeLastPut(data, actions[..|actions| - 1], t);
      DataAfter(Run(Init(data), actions[..|actions| - 1]), actions[|actions| - 1]);
    }
  }

  lemma DataAfter(s: State, a: Action)
    ensures Step(s, a).data == if a.Put? && At(s.pcs, a.t).Writing? then a.v else s.data
  {
  }

  // The counter is the number of threads between increment and decrement, those that back out included;
  // so no decrement takes it below zero, and when no one is inside read or write the lock is free.
  lemma ReadersCounted(data: Data, actions: seq<Action>)
    ensures var s := Run(Init(data), actions);
            && s.readers == |CountedThreads(s.pcs)|
            && (forall t: Thread :: IsCounted(At(s.pcs, t)) ==> s.readers > 0)
            && ((forall t: Thread :: At(s.pcs, t).Outside?) ==> s.readers == 0 && !s.writer)
  {
    RunKeeps(data, actions);
    var s := Run(Init(data), actions);
    forall t: Thread | IsCounted(At(s.pcs, t)) ensures s.readers > 0 { CountedIsCounted(s, t); }
    if forall t: Thread :: At(s.pcs, t).Outside? {
      forall t | t in s.pcs ensures !IsCounted(s.pcs[t]) { assert At(s.pcs, t).Outside?; }
      assert CountedThreads(s.pcs) == {};
    }
  }

  // A thread that stays inside read or write may always get on, unless the lock makes it wait: a reader waits
  // only for the writer flag, and a writer only for the flag and then for readers.
  lemma WhoWaits(data: Data, actions: seq<Action>, t: Thread)
    ensures var s := Run(Init(data), actions);
            var pc := At(s.pcs, t);
            Step(s, Advance(t)) == s <==>
              || pc.Outside? || pc.Reading? || pc.Writing?
              || (pc.ReadTop? && exists u: Thread :: HasFlag(At(s.pcs, u)))
              || (pc.WriteTop? && exists u: Thread :: u != t && HasFlag(At(s.pcs, u)))
              || (pc.Claimed? && exists u: Thread :: IsCounted(At(s.pcs, u)))
  {
    RunKeeps(data, actions);
    var s := Run(Init(data), actions);
    var pc := At(s.pcs, t);
    assert Step(s, Advance(t)) != s ==> At(Step(s, Advance(t)).pcs, t) != pc;
    if pc.Claimed? {
      if s.readers > 0 {
        var u :| u in CountedThreads(s.pcs);
        assert IsCounted(At(s.pcs, u));
      } else {
        forall u: Thread ensures !IsCounted(At(s.pcs, u)) {
          if IsCounted(At(s.pcs, u)) { CountedIsCounted(s, u); }
        }
      }
    }
  }

  // The lock is shared among readers: two of them can hold guards at once.
  lemma ReadersShare(data: Data) returns (actions: seq<Action>)
    ensures var pcs := Run(Init(data), actions).pcs; At(pcs, 0) == Reading(data) == At(pcs, 1)
  {
    var get := (t: Thread) => [StartRead(t), Advance(t), Advance(t), Advance(t)];
    actions := get(0) + get(1);
    var s0 := Init(data);
    var s1 := Step(Step(Step(Step(s0, StartRead(0)), Advance(0)), Advance(0)), Advance(0));
    var s2 := Step(Step(Step(Step(s1, StartRead(1)), Advance(1)), Advance(1)), Advance(1));
    RunFour(s0, [], StartRead(0), Advance(0), Advance(0), Advance(0));
    RunFour(s0, get(0), StartRead(1), Advance(1), Advance(1), Advance(1));
    assert [] + get(0) == get(0);
  }

  lemma RunFour(s: State, before: seq<Action>, a: Action, b: Action, c: Action, d: Action)
    ensures Run(s, before + [a, b, c, d]) == Step(Step(Step(Step(Run(s, before), a), b), c), d)
  {
    var s1 := before + [a];
    var s2 := s1 + [b];
    var s3 := s2 + [c];
    assert before + [a, b, c, d] == s3 + [d];
    RunOne(s, s3, d);
    RunOne(s, s2, c);
    RunOne(s, s1, b);
    RunOne(s, before, a);
  }

  lemma RunOne(s: State, before: seq<Action>, a: Action)
    ensures Run(s, before + [a]) == Step(Run(s, before), a)
  {
    assert (before + [a])[..|before|] == before;
  }

  // No deadlock: as long as some thread is inside read or write and no guard is out, some thread can get on.
  lemma NoDeadlock(data: Data, actions: seq<Action>, t: Thread) returns (u: Thread)
    ensures var s := Run(Init(data), actions);
            !At(s.pcs, t).Outside? ==>
              At(s.pcs, u).Reading? || At(s.pcs, u).Writing? || Step(s, Advance(u)) != s
  {
    RunKeeps(data, actions);
    WhoWaits(data, actions, t);
    var s := Run(Init(data), actions);
    u := t;
    if !At(s.pcs, t).Outside? && Step(s, Advance(t)) == s {
      if At(s.pcs, t).ReadTop? || At(s.pcs, t).WriteTop? {
        u :| HasFlag(At(s.pcs, u));
        WhoWaits(data, actions, u);
      }
      if At(s.pcs, u).Claimed? && Step(s, Advance(u)) == s {
        u :| IsCounted(At(s.pcs, u));
        WhoWaits(data, actions, u);
      }
    }
  }

  // ----- how long a writer waits -----

  // The moves a thread in read has left while a writer has the flag: into the count, out of it on seeing the flag,
  // or giving its guard back.
  function Weight(pc: Pc): nat {
    match pc
    case SeenFree => 3
    case Counted => 2
    case BackingOut => 1
    case Reading(_) => 1
    case _ => 0
  }

  function AtLeast(pcs: map<Thread, Pc>, k: nat): set<Thread> {
    set t | t in pcs && Weight(pcs[t]) >= k
  }

  // The sum of the weights.
  function Load(pcs: map<Thread, Pc>): nat {
    |AtLeast(pcs, 1)| + |AtLeast(pcs, 2)| + |AtLeast(pcs, 3)|
  }

  function Guards(pcs: map<Thread, Pc>): set<Thread> {
    set t | t in pcs && pcs[t].Reading?
  }

  function One(b: bool): nat { if b then 1 else 0 }

  lemma AtLeastChange(pcs: map<Thread, Pc>, t: Thread, pc: Pc, k: nat)
    requires k > 0
    ensures |AtLeast(pcs[t := pc], k)| + One(Weight(At(pcs, t)) >= k) == |AtLeast(pcs, k)| + One(Weight(pc) >= k)
  {
    var before, after := AtLeast(pcs, k), AtLeast(pcs[t := pc], k);
    assert after == if Weight(pc) >= k then before + {t} else before - {t};
    assert t in before <==> Weight(At(pcs, t)) >= k;
  }

  lemma LoadChange(pcs: map<Thread, Pc>, t: Thread, pc: Pc)
    ensures Load(pcs[t := pc]) + Weight(At(pcs, t)) == Load(pcs) + Weight(pc)
  {
    AtLeastChange(pcs, t, pc, 1);
    AtLeastChange(pcs, t, pc, 2);
    AtLeastChange(pcs, t, pc, 3);
  }

  predicate ReaderMoves(s: State, a: Action) {
    Weight(At(s.pcs, a.t)) > 0 && Step(s, a) != s
  }

  // Under the flag nobody gets a read guard, and each move of a reader is one move less.
  lemma StepUnderFlag(s: State, a: Action, w: Thread)
    requires Inv(s) && HasFlag(At(s.pcs, w)) && HasFlag(At(Step(s, a).pcs, w))
    ensures Guards(Step(s, a).pcs) <= Guards(s.pcs)
    ensures Load(Step(s, a).pcs) + One(ReaderMoves(s, a)) == Load(s.pcs)
  {
    var s' := Step(s, a);
    assert s.writer;
    var pc := At(s'.pcs, a.t);
    if s'.pcs != s.pcs {
      assert s'.pcs == s.pcs[a.t := pc] && !pc.Reading?;
      LoadChange(s.pcs, a.t, pc);
    }
  }

  // The writer has the flag at the beginning, at the end, and in between.
  ghost predicate Stays(s: State, actions: seq<Action>, w: Thread)
    decreases |actions|
  {
    HasFlag(At(Run(s, actions).pcs, w)) && (actions == [] || Stays(s, actions[..|actions| - 1], w))
  }

  function Moves(s: State, actions: seq<Action>): nat
    decreases |actions|
  {
    if actions == [] then 0
    else Moves(s, actions[..|actions| - 1]) + One(ReaderMoves(Run(s, actions[..|actions| - 1]), actions[|actions| - 1]))
  }

  lemma {:induction false} RunUnderFlag(s: State, actions: seq<Action>, w: Thread)
    requires Inv(s) && Stays(s, actions, w)
    ensures var s' := Run(s, actions);
            Inv(s') && Guards(s'.pcs) <= Guards(s.pcs) && Moves(s, actions) + Load(s'.pcs) == Load(s.pcs)
    decreases |actions|
  {
    if actions != [] {
      var before, a := actions[..|actions| - 1], actions[|actions| - 1];
      RunUnderFlag(s, before, w);
      StepKeeps(Run(s, before), a);
      StepUnderFlag(Run(s, before), a, w);
    }
  }

  // Once a writer has claimed the flag, the read guards out only become fewer until it has left, and of the readers
  // inside at the claim each has a fixed number of moves left: after that many altogether no reader is in the way.
  // As long as one is, some reader either holds a guard from before the claim or can move by itself.
  lemma WriterWaits(data: Data, before: seq<Action>, actions: seq<Action>, w: Thread) returns (u: Thread)
    requires Stays(Run(Init(data), before), actions, w)
    ensures var (s, s') := (Run(Init(data), before), Run(Run(Init(data), before), actions));
            && Guards(s'.pcs) <= Guards(s.pcs)
            && Moves(s, actions) + Load(s'.pcs) == Load(s.pcs)
            && (Load(s'.pcs) == 0 ==> s'.readers == 0)
            && (At(s'.pcs, w).Claimed? && s'.readers == 0 ==> At(Step(s', Advance(w)).pcs, w).Writing?)
            && (s'.readers > 0 ==> u in Guards(s'.pcs) || ReaderMoves(s', Advance(u)))
  {
    RunKeeps(data, before);
    var s := Run(Init(data), before);
    RunUnderFlag(s, actions, w);
    u := SomeoneInTheWay(Run(s, actions));
  }

  lemma SomeoneInTheWay(s: State) returns (u: Thread)
    requires Inv(s) && s.writer
    ensures Load(s.pcs) == 0 ==> s.readers == 0
    ensures s.readers > 0 ==> u in Guards(s.pcs) || ReaderMoves(s, Advance(u))
  {
    u := 0;
    if s.readers > 0 {
      u :| u in CountedThreads(s.pcs);
      assert u in AtLeast(s.pcs, 1);
      assert At(Step(s, Advance(u)).pcs, u) != At(s.pcs, u) || u in Guards(s.pcs);
    }
  }
}
