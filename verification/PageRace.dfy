/** The page allocator with any number of threads: every load, exchange and update of a word or of the counter is
    one step. */
module PageRace {
  import opened Bits
  import opened Physical

  type Thread = nat

  const U64: nat := 0x1_0000_0000_0000_0000

  datatype Pc =
    | Idle
    | Testing                                // alloc_page: about to look at the counter,
    | Loading(w: nat)                        //   to load word w,
    | Trying(w: nat, seen: nat)              //   to exchange it for one with a bit more,
    | Taken(p: nat)                          //   to count the page it has got
    | RunTesting(n: nat)                     // alloc_pages: about to look at the counter,
    | Seeking(n: nat, start: nat, found: nat) //  to look at the page after `found` free ones from start on,
    | Marking(n: nat, start: nat, i: nat)    //   to set the bit of page start + i,
    | RunTaken(n: nat, start: nat)           //   to count the pages
    | Checking(n: nat, start: nat, i: nat)   // free_page and free_pages: about to look at the bit of start + i,
    | Clearing(n: nat, start: nat, i: nat)   //   to clear it,
    | Returning(n: nat)                      //   to count the pages

  // out: the pages that callers have been given and have not given back, as often as they have been given.
  datatype State = State(words: seq<nat>, total: nat, free: nat, out: multiset<nat>, pcs: map<Thread, Pc>)

  datatype Action =
    | StartOne(t: Thread)
    | StartRun(t: Thread, n: nat)
    | StartFree(t: Thread, start: nat, n: nat)   // of pages that are out
    | Advance(t: Thread)
    | CasFails(t: Thread)                        // the weak exchange fails without reason

  ghost predicate IsInit(s: State) {
    && s.total <= 64 * |s.words| && s.total < U64 && s.free == s.total && s.out == multiset{} && s.pcs == map[]
    && forall w :: 0 <= w < |s.words| ==> s.words[w] == 0
  }

  function At(pcs: map<Thread, Pc>, t: Thread): Pc {
    if t in pcs then pcs[t] else Idle
  }

  function To(s: State, t: Thread, pc: Pc): State {
    s.(pcs := s.pcs[t := pc])
  }

  predicate IsSet(words: seq<nat>, p: nat) {
    p < 64 * |words| && PageBit(words, p)
  }

  function WithBit(words: seq<nat>, p: nat): seq<nat> {
    if p < 64 * |words| then words[p / 64 := Or(words[p / 64], Pow2(p % 64))] else words
  }

  function WithoutBit(words: seq<nat>, p: nat): seq<nat> {
    Pow2Mono(p % 64, 64);
    if p < 64 * |words| then words[p / 64 := And(words[p / 64], Not(64, Pow2(p % 64)))] else words
  }

  // The counter's arithmetic.
  function Less(free: nat, n: nat): nat { (free - n) % U64 }

  function More(free: nat, n: nat): nat { (free + n) % U64 }

  function Pages(start: nat, n: nat): multiset<nat> {
    if n == 0 then multiset{} else Pages(start, n - 1) + multiset{start + n - 1}
  }

  // With a word just read: on to the next one if it is full, or to an exchange.
  function Scanned(words: seq<nat>, w: nat): Pc {
    if w >= |words| then Idle else if words[w] == WORD_MAX then Loading(w + 1) else Trying(w, words[w])
  }

  // An action that the thread is not ready for changes nothing.
  function Step(s: State, a: Action): State {
    var pc := At(s.pcs, a.t);
    match a
    case StartOne(t) => if pc.Idle? then To(s, t, Testing) else s
    case StartRun(t, n) => if pc.Idle? && n > 1 then To(s, t, RunTesting(n)) else s
    case StartFree(t, start, n) =>
      if pc.Idle? && n > 0 && Pages(start, n) <= s.out then To(s, t, Checking(n, start, 0)).(out := s.out - Pages(start, n)) else s
    case CasFails(t) => if pc.Trying? then To(s, t, Scanned(s.words, pc.w)) else s
    case Advance(t) => Advanced(s, t, pc)
  }

  // The thread's next step.
  function Advanced(s: State, t: Thread, pc: Pc): State {
    match pc
    case Idle => s
    case Testing => To(s, t, if s.free == 0 then Idle else Loading(0))
    case Loading(w) => To(s, t, Scanned(s.words, w))
    case Trying(w, seen) =>
      if w < |s.words| && s.words[w] == seen then
        var p := 64 * w + TrailingOnes(seen);
        To(s, t, if p >= s.total then Idle else Taken(p)).(words := WithBit(s.words, p))
      else To(s, t, Scanned(s.words, w))
    case Taken(p) => To(s, t, Idle).(free := Less(s.free, 1), out := s.out + multiset{p})
    case RunTesting(n) => To(s, t, if s.free < n then Idle else Seeking(n, 0, 0))
    case Seeking(n, start, found) =>
      To(s, t, if start + found >= s.total then Idle
               else if IsSet(s.words, start + found) then Seeking(n, start + found + 1, 0)
               else if found + 1 == n then Marking(n, start, 0)
               else Seeking(n, start, found + 1))
    case Marking(n, start, i) =>
      To(s, t, if i + 1 >= n then RunTaken(n, start) else Marking(n, start, i + 1)).(words := WithBit(s.words, start + i))
    case RunTaken(n, start) => To(s, t, Idle).(free := Less(s.free, n), out := s.out + Pages(start, n))
    case Checking(n, start, i) =>
      To(s, t, if !IsSet(s.words, start + i) then Idle
               else if i + 1 >= n then Clearing(n, start, 0)
               else Checking(n, start, i + 1))
    case Clearing(n, start, i) =>
      To(s, t, if i + 1 >= n then Returning(n) else Clearing(n, start, i + 1)).(words := WithoutBit(s.words, start + i))
    case Returning(n) => To(s, t, Idle).(free := More(s.free, n))
  }

  function Run(s: State, actions: seq<Action>): State
    decreases |actions|
  {
    if actions == [] then s else Step(Run(s, actions[..|actions| - 1]), actions[|actions| - 1])
  }

  // ----- who has a page -----

  predicate Within(p: nat, from: nat, to: nat) { from <= p < to }

  // The pages whose bits a thread has set for itself, or has been given back and not cleared yet.
  predicate Has(pc: Pc, p: nat) {
    match pc
    case Taken(q) => p == q
    case Marking(n, start, i) => Within(p, start, start + i)
    case RunTaken(n, start) => Within(p, start, start + n)
    case Checking(n, start, i) => Within(p, start, start + n)
    case Clearing(n, start, i) => Within(p, start + i, start + n)
    case _ => false
  }

  function Holders(pcs: map<Thread, Pc>, p: nat): set<Thread> {
    set t | t in pcs && Has(pcs[t], p)
  }

  // How many have the page: callers, and threads on their behalf.
  function Owners(s: State, p: nat): nat {
    s.out[p] + |Holders(s.pcs, p)|
  }

  function One(b: bool): nat { if b then 1 else 0 }

  lemma HoldersChange(pcs: map<Thread, Pc>, t: Thread, pc: Pc, p: nat)
    ensures |Holders(pcs[t := pc], p)| + One(Has(At(pcs, t), p)) == |Holders(pcs, p)| + One(Has(pc, p))
  {
    var before, after := Holders(pcs, p), Holders(pcs[t := pc], p);
    assert after == if Has(pc, p) then before + {t} else before - {t};
    assert t in before <==> Has(At(pcs, t), p);
  }

  lemma {:induction false} PagesSpec(start: nat, n: nat, p: nat)
    ensures Pages(start, n)[p] == One(Within(p, start, start + n))
    decreases n
  {
    if n > 0 { PagesSpec(start, n - 1, p); }
  }

  predicate PcOk(s: State, pc: Pc) {
    match pc
    case Trying(w, seen) => seen != WORD_MAX && seen < Pow2(64)
    case Taken(p) => p < s.total
    case RunTesting(n) => n > 1
    case Seeking(n, start, found) => found < n
    case Marking(n, start, i) => i < n && start + n <= s.total
    case RunTaken(n, start) => start + n <= s.total
    case Checking(n, start, i) => i < n
    case Clearing(n, start, i) => i < n
    case _ => true
  }

  ghost predicate Shape(s: State) {
    s.total <= 64 * |s.words| && WordsOk(s.words) && forall t: Thread :: PcOk(s, At(s.pcs, t))
  }

  // Below the total a page has an owner exactly if its bit is set, and then one; above it has none.
  predicate Owned(s: State, p: nat) {
    Owners(s, p) == One(p < s.total && IsSet(s.words, p))
  }

  ghost predicate Inv(s: State) {
    Shape(s) && forall p: nat :: Owned(s, p)
  }

  lemma BitSet(words: seq<nat>, p: nat, q: nat)
    requires WordsOk(words) && p < 64 * |words|
    ensures WordsOk(WithBit(words, p)) && (IsSet(WithBit(words, p), q) <==> q == p || IsSet(words, q))
  {
    MarkPage(words, Set(words), p);
    if q < 64 * |words| { assert PageBit(WithBit(words, p), q) <==> q in Set(words) + {p}; }
  }

  lemma BitCleared(words: seq<nat>, p: nat, q: nat)
    requires WordsOk(words) && p < 64 * |words|
    ensures WordsOk(WithoutBit(words, p)) && (IsSet(WithoutBit(words, p), q) <==> q != p && IsSet(words, q))
  {
    UnmarkPage(words, Set(words), p);
    if q < 64 * |words| { assert PageBit(WithoutBit(words, p), q) <==> q in Set(words) - {p}; }
  }

  function Set(words: seq<nat>): (pages: set<nat>)
    ensures Shows(words, pages)
  {
    set p: nat | p < 64 * |words| && PageBit(words, p)
  }

  // The bit an exchange sets was clear.
  lemma LowestClear(words: seq<nat>, w: nat)
    requires WordsOk(words) && w < |words| && words[w] != WORD_MAX
    ensures var p := 64 * w + TrailingOnes(words[w]); p < 64 * |words| && !IsSet(words, p)
  {
    ScanWord(words, Set(words), w);
    assert 64 * w + TrailingOnes(words[w]) < 64 * |words|;
  }

  // ----- one step -----

  // alloc_pages sets a bit that somebody else has set since it looked.
  predicate Collides(s: State, a: Action) {
    a.Advance? && var pc := At(s.pcs, a.t); pc.Marking? && IsSet(s.words, pc.start + pc.i)
  }

  lemma TryWords(s: State, t: Thread)
    requires Shape(s) && At(s.pcs, t).Trying?
    ensures WordsOk(Step(s, Advance(t)).words) && |Step(s, Advance(t)).words| == |s.words|
  {
    var pc := At(s.pcs, t);
    if pc.w < |s.words| && s.words[pc.w] == pc.seen {
      assert PcOk(s, pc);
      LowestClear(s.words, pc.w);
      BitSet(s.words, 64 * pc.w + TrailingOnes(pc.seen), 0);
    }
  }

  lemma MarkWords(s: State, t: Thread)
    requires Shape(s) && At(s.pcs, t).Marking?
    ensures WordsOk(Step(s, Advance(t)).words) && |Step(s, Advance(t)).words| == |s.words|
  {
    var pc := At(s.pcs, t);
    assert PcOk(s, pc);
    BitSet(s.words, pc.start + pc.i, 0);
  }

  lemma ClearWords(s: State, t: Thread)
    requires Shape(s) && At(s.pcs, t).Clearing?
    ensures WordsOk(Step(s, Advance(t)).words) && |Step(s, Advance(t)).words| == |s.words|
  {
    var pc := At(s.pcs, t);
    var p := pc.start + pc.i;
    assert Step(s, Advance(t)).words == WithoutBit(s.words, p);
    if p < 64 * |s.words| { BitCleared(s.words, p, 0); }
  }

  lemma StepWords(s: State, a: Action)
    requires Shape(s)
    ensures WordsOk(Step(s, a).words) && |Step(s, a).words| == |s.words|
  {
    if a.Advance? {
      match At(s.pcs, a.t)
      case Trying(_, _) => TryWords(s, a.t);
      case Marking(_, _, _) => MarkWords(s, a.t);
      case Clearing(_, _, _) => ClearWords(s, a.t);
      case _ => OtherWords(s, a.t);
    }
  }

  lemma OtherWords(s: State, t: Thread)
    requires !At(s.pcs, t).Trying? && !At(s.pcs, t).Marking? && !At(s.pcs, t).Clearing?
    ensures Step(s, Advance(t)).words == s.words
  {
  }

  lemma ScannedOk(s: State, s': State, w: nat)
    requires Shape(s)
    ensures PcOk(s', Scanned(s.words, w))
  {
  }

  lemma StepPc(s: State, a: Action)
    requires Shape(s)
    ensures PcOk(Step(s, a), At(Step(s, a).pcs, a.t)) && Step(s, a).total == s.total
  {
    var (s', pc) := (Step(s, a), At(s.pcs, a.t));
    assert PcOk(s, pc);
    match pc
    case Loading(w) => ScannedOk(s, s', w);
    case Trying(w, _) => ScannedOk(s, s', w);
    case Marking(_, _, _) =>
    case Checking(_, _, _) =>
    case Clearing(_, _, _) =>
    case _ =>
  }

  lemma StepElsewhere(s: State, a: Action, t: Thread)
    requires t != a.t
    ensures At(Step(s, a).pcs, t) == At(s.pcs, t)
  {
    if a.Advance? { AdvancedElsewhere(s, a.t, At(s.pcs, a.t), t); }
  }

  lemma AdvancedElsewhere(s: State, t: Thread, pc: Pc, u: Thread)
    requires u != t
    ensures At(Advanced(s, t, pc).pcs, u) == At(s.pcs, u)
  {
    match pc
    case Trying(_, _) =>
    case Seeking(_, _, _) =>
    case Marking(_, _, _) =>
    case Clearing(_, _, _) =>
    case Checking(_, _, _) =>
    case RunTaken(_, _) =>
    case _ =>
  }

  lemma StepShape(s: State, a: Action)
    requires Shape(s)
    ensures Shape(Step(s, a)) && Step(s, a).total == s.total && |Step(s, a).words| == |s.words|
  {
    StepWords(s, a);
    StepPc(s, a);
    forall t: Thread ensures PcOk(Step(s, a), At(Step(s, a).pcs, t)) {
      if t != a.t {
        StepElsewhere(s, a, t);
        SameOk(s, Step(s, a), At(s.pcs, t));
      }
    }
  }

  lemma SameOk(s: State, s': State, pc: Pc)
    requires s'.total == s.total
    ensures PcOk(s', pc) == PcOk(s, pc)
  {
  }

  // What changes for one page when a thread moves on.
  lemma OwnersChange(s: State, s': State, t: Thread, pc: Pc, p: nat)
    requires s'.pcs == s.pcs[t := pc]
    ensures Owners(s', p) + s.out[p] + One(Has(At(s.pcs, t), p)) == Owners(s, p) + s'.out[p] + One(Has(pc, p))
  {
    HoldersChange(s.pcs, t, pc, p);
  }

  lemma GiveBackKeeps(s: State, t: Thread, start: nat, n: nat, p: nat)
    requires Inv(s)
    ensures Owned(Step(s, StartFree(t, start, n)), p)
  {
    assert Owned(s, p);
    var s' := Step(s, StartFree(t, start, n));
    if s' != s {
      assert s'.pcs == s.pcs[t := Checking(n, start, 0)] && s'.out == s.out - Pages(start, n);
      OwnersChange(s, s', t, Checking(n, start, 0), p);
      PagesSpec(start, n, p);
      assert Pages(start, n)[p] <= s.out[p];
    }
  }

  lemma StartKeeps(s: State, a: Action, p: nat)
    requires Inv(s) && !a.Advance?
    ensures Owned(Step(s, a), p)
  {
    if a.StartFree? {
      GiveBackKeeps(s, a.t, a.start, a.n, p);
    } else {
      assert Owned(s, p);
      var s' := Step(s, a);
      if s' != s { OwnersChange(s, s', a.t, At(s'.pcs, a.t), p); }
    }
  }

  lemma TryKeeps(s: State, t: Thread, p: nat)
    requires Inv(s) && At(s.pcs, t).Trying?
    ensures Owned(Step(s, Advance(t)), p)
  {
    var (s', pc) := (Step(s, Advance(t)), At(s.pcs, t));
    assert Owned(s, p) && PcOk(s, pc);
    OwnersChange(s, s', t, At(s'.pcs, t), p);
    if pc.w < |s.words| && s.words[pc.w] == pc.seen {
      LowestClear(s.words, pc.w);
      BitSet(s.words, 64 * pc.w + TrailingOnes(pc.seen), p);
    }
  }

  lemma MarkKeeps(s: State, t: Thread, p: nat)
    requires Inv(s) && At(s.pcs, t).Marking? && !Collides(s, Advance(t))
    ensures Owned(Step(s, Advance(t)), p)
  {
    var (s', pc) := (Step(s, Advance(t)), At(s.pcs, t));
    assert Owned(s, p) && PcOk(s, pc);
    OwnersChange(s, s', t, At(s'.pcs, t), p);
    BitSet(s.words, pc.start + pc.i, p);
  }

  // A thread that gives pages back finds their bits set.
  lemma HeldIsSet(s: State, t: Thread, p: nat)
    requires Inv(s) && Has(At(s.pcs, t), p)
    ensures p < s.total && IsSet(s.words, p)
  {
    assert Owned(s, p) && t in Holders(s.pcs, p);
  }

  lemma CheckKeeps(s: State, t: Thread, p: nat)
    requires Inv(s) && At(s.pcs, t).Checking?
    ensures Owned(Step(s, Advance(t)), p)
  {
    var (s', pc) := (Step(s, Advance(t)), At(s.pcs, t));
    assert Owned(s, p) && PcOk(s, pc);
    OwnersChange(s, s', t, At(s'.pcs, t), p);
    HeldIsSet(s, t, pc.start + pc.i);
  }

  lemma ClearKeeps(s: State, t: Thread, p: nat)
    requires Inv(s) && At(s.pcs, t).Clearing?
    ensures Owned(Step(s, Advance(t)), p)
  {
    var (s', pc) := (Step(s, Advance(t)), At(s.pcs, t));
    assert Owned(s, p) && PcOk(s, pc);
    OwnersChange(s, s', t, At(s'.pcs, t), p);
    HeldIsSet(s, t, pc.start + pc.i);
    BitCleared(s.words, pc.start + pc.i, p);
  }

  lemma CountKeeps(s: State, t: Thread, p: nat)
    requires Inv(s) && (At(s.pcs, t).Taken? || At(s.pcs, t).RunTaken?)
    ensures Owned(Step(s, Advance(t)), p)
  {
    var (s', pc) := (Step(s, Advance(t)), At(s.pcs, t));
    assert Owned(s, p);
    OwnersChange(s, s', t, Idle, p);
    if pc.RunTaken? { PagesSpec(pc.start, pc.n, p); }
  }

  // As long as alloc_pages sets no bit that is set already, no page has two owners.
  lemma StepKeeps(s: State, a: Action)
    requires Inv(s) && !Collides(s, a)
    ensures Inv(Step(s, a))
  {
    StepShape(s, a);
    forall p: nat ensures Owned(Step(s, a), p) {
      if !a.Advance? {
        StartKeeps(s, a, p);
      } else {
        match At(s.pcs, a.t)
        case Trying(_, _) => TryKeeps(s, a.t, p);
        case Marking(_, _, _) => MarkKeeps(s, a.t, p);
        case Checking(_, _, _) => CheckKeeps(s, a.t, p);
        case Clearing(_, _, _) => ClearKeeps(s, a.t, p);
        case Taken(_) => CountKeeps(s, a.t, p);
        case RunTaken(_, _) => CountKeeps(s, a.t, p);
        case _ => MoveKeeps(s, a.t, p);
      }
    }
  }

  predicate HoldsNothing(pc: Pc) {
    pc.Idle? || pc.Testing? || pc.Loading? || pc.RunTesting? || pc.Seeking? || pc.Returning?
  }

  lemma MoveSame(s: State, t: Thread)
    requires HoldsNothing(At(s.pcs, t))
    ensures var s' := Step(s, Advance(t)); s'.words == s.words && s'.total == s.total && s'.out == s.out
  {
  }

  lemma MovePc(s: State, t: Thread, p: nat)
    requires HoldsNothing(At(s.pcs, t))
    ensures var s' := Step(s, Advance(t)); s' == s || (s'.pcs == s.pcs[t := At(s'.pcs, t)] && !Has(At(s'.pcs, t), p))
  {
  }

  lemma MoveKeeps(s: State, t: Thread, p: nat)
    requires Inv(s) && HoldsNothing(At(s.pcs, t))
    ensures Owned(Step(s, Advance(t)), p)
  {
    assert Owned(s, p);
    var s' := Step(s, Advance(t));
    MoveSame(s, t);
    MovePc(s, t, p);
    if s' != s { OwnersChange(s, s', t, At(s'.pcs, t), p); }
  }

  // And as soon as it does, one has.
  lemma CollisionDoubles(s: State, a: Action)
    requires Inv(s) && Collides(s, a)
    ensures var pc := At(s.pcs, a.t); Owners(Step(s, a), pc.start + pc.i) == 2
  {
    var (s', pc) := (Step(s, a), At(s.pcs, a.t));
    assert PcOk(s, pc) && Owned(s, pc.start + pc.i);
    OwnersChange(s, s', a.t, At(s'.pcs, a.t), pc.start + pc.i);
  }

  // ----- whole runs -----

  // No step of the run sets a bit that is set already.
  ghost predicate CollisionFree(s: State, actions: seq<Action>)
    decreases |actions|
  {
    actions == [] || (CollisionFree(s, actions[..|actions| - 1]) && !Collides(Run(s, actions[..|actions| - 1]), actions[|actions| - 1]))
  }

  ghost predicate NoneShared(s: State) {
    forall p: nat :: Owners(s, p) <= 1
  }

  // At no time has a page two owners.
  ghost predicate NeverShared(s: State, actions: seq<Action>)
    decreases |actions|
  {
    (actions == [] || NeverShared(s, actions[..|actions| - 1])) && NoneShared(Run(s, actions))
  }

  lemma InitKeeps(s: State)
    requires IsInit(s)
    ensures Inv(s)
  {
    forall p: nat ensures Owned(s, p) {
      assert Holders(s.pcs, p) == {};
      if p < 64 * |s.words| { ZeroBit(p % 64); }
    }
    assert 0 < Pow2(64);
  }

  // In every run, with any number of threads: no page ever has two owners exactly if no bit is set twice by
  // alloc_pages; then the bits below the total are set for the pages that have one.
  lemma {:induction false} SharedIff(s: State, actions: seq<Action>)
    requires IsInit(s)
    ensures CollisionFree(s, actions) <==> NeverShared(s, actions)
    ensures CollisionFree(s, actions) ==> Inv(Run(s, actions))
    decreases |actions|
  {
    InitKeeps(s);
    if actions == [] {
      OneEach(s);
    } else {
      var before, a := actions[..|actions| - 1], actions[|actions| - 1];
      SharedIff(s, before);
      assert Run(s, actions) == Step(Run(s, before), a);
      if CollisionFree(s, before) { OneMore(Run(s, before), a); }
    }
  }

  lemma OneEach(s: State)
    requires Inv(s)
    ensures NoneShared(s)
  {
    forall p: nat ensures Owners(s, p) <= 1 { assert Owned(s, p); }
  }

  lemma OneMore(s: State, a: Action)
    requires Inv(s)
    ensures !Collides(s, a) <==> NoneShared(Step(s, a))
    ensures !Collides(s, a) ==> Inv(Step(s, a))
  {
    if Collides(s, a) {
      CollisionDoubles(s, a);
    } else {
      StepKeeps(s, a);
      OneEach(Step(s, a));
    }
  }

  predicate NoRuns(actions: seq<Action>) {
    forall i :: 0 <= i < |actions| ==> !actions[i].StartRun?
  }

  predicate InRun(pc: Pc) { pc.RunTesting? || pc.Seeking? || pc.Marking? || pc.RunTaken? }

  lemma StaysOut(s: State, a: Action, t: Thread)
    requires !a.StartRun? && !InRun(At(s.pcs, t))
    ensures !InRun(At(Step(s, a).pcs, t))
  {
    if t != a.t { StepElsewhere(s, a, t); }
  }

  lemma {:induction false} NobodyInRun(s: State, actions: seq<Action>)
    requires IsInit(s) && NoRuns(actions)
    ensures CollisionFree(s, actions) && forall t: Thread :: !InRun(At(Run(s, actions).pcs, t))
    decreases |actions|
  {
    if actions != [] {
      var before, a := actions[..|actions| - 1], actions[|actions| - 1];
      NobodyInRun(s, before);
      assert !InRun(At(Run(s, before).pcs, a.t));
      forall t: Thread ensures !InRun(At(Run(s, actions).pcs, t)) { StaysOut(Run(s, before), a, t); }
    }
  }

  // So alloc_page alone never hands out a page twice, however its loads and exchanges interleave with others and
  // with releases.
  lemma OneNeverTwice(s: State, actions: seq<Action>, p: nat)
    requires IsInit(s) && NoRuns(actions)
    ensures Run(s, actions).out[p] <= Owners(Run(s, actions), p) <= 1
  {
    NobodyInRun(s, actions);
    SharedIff(s, actions);
    assert Owned(Run(s, actions), p);
  }

  // ----- what the two searches answer -----

  predicate Scanning(pc: Pc) { pc.Loading? || pc.Trying? }

  // The thread is in alloc_page's scan all along.
  ghost predicate Scans(s: State, actions: seq<Action>, t: Thread)
    decreases |actions|
  {
    Scanning(At(Run(s, actions).pcs, t)) && (actions == [] || Scans(s, actions[..|actions| - 1], t))
  }

  // At some time of the run the page's bit is set.
  ghost predicate SeenSet(s: State, actions: seq<Action>, p: nat) {
    exists k: nat :: k <= |actions| && SetAfter(s, actions, k, p)
  }

  predicate SetAfter(s: State, actions: seq<Action>, k: nat, p: nat)
    requires k <= |actions|
  {
    IsSet(Run(s, actions[..k]).words, p)
  }

  lemma SeenNow(s: State, actions: seq<Action>, p: nat)
    requires IsSet(Run(s, actions).words, p)
    ensures SeenSet(s, actions, p)
  {
    assert actions[..|actions|] == actions;
    assert SetAfter(s, actions, |actions|, p);
  }

  lemma SeenBefore(s: State, actions: seq<Action>, p: nat)
    requires actions != [] && SeenSet(s, actions[..|actions| - 1], p)
    ensures SeenSet(s, actions, p)
  {
    var before := actions[..|actions| - 1];
    var k: nat :| k <= |before| && SetAfter(s, before, k, p);
    assert before[..k] == actions[..k];
    assert SetAfter(s, actions, k, p);
  }

  lemma {:induction false} RunShape(s: State, actions: seq<Action>)
    requires Shape(s)
    ensures Shape(Run(s, actions)) && Run(s, actions).total == s.total && |Run(s, actions).words| == |s.words|
    decreases |actions|
  {
    if actions != [] {
      RunShape(s, actions[..|actions| - 1]);
      StepShape(Run(s, actions[..|actions| - 1]), actions[|actions| - 1]);
    }
  }

  // Below the place where a scan stops in a word all bits of the word are set.
  lemma WordSeen(words: seq<nat>, w: nat, p: nat)
    requires WordsOk(words) && w < |words| && p / 64 == w
    requires words[w] == WORD_MAX || p < 64 * w + TrailingOnes(words[w])
    ensures IsSet(words, p)
  {
    ScanWord(words, Set(words), w);
    assert 64 * w <= p < 64 * w + 64;
    assert p in Set(words);
  }

  // How a scanning thread moves: on to the next word past a full one, to the lowest clear page of a word, or out.
  lemma ScanMoves(s: State, a: Action, t: Thread)
    requires Shape(s) && Scanning(At(s.pcs, t))
    ensures var (w, pc) := (At(s.pcs, t).w, At(Step(s, a).pcs, t));
            match pc
            case Loading(v) => v == w || (v == w + 1 && w < |s.words| && s.words[w] == WORD_MAX)
            case Trying(v, _) => v == w
            case Taken(q) => w < |s.words| && s.words[w] != WORD_MAX && q == 64 * w + TrailingOnes(s.words[w])
            case Idle => w >= |s.words| || (s.words[w] != WORD_MAX && 64 * w + TrailingOnes(s.words[w]) >= s.total)
            case _ => false
  {
    assert PcOk(s, At(s.pcs, t));
    if a.t != t {
      StepElsewhere(s, a, t);
    } else {
      match At(s.pcs, t)
      case Loading(w) =>
      case Trying(w, seen) =>
    }
  }

  lemma {:induction false} PassedSeen(s: State, actions: seq<Action>, t: Thread, p: nat)
    requires Shape(s) && At(s.pcs, t) == Loading(0) && Scans(s, actions, t) && p / 64 < At(Run(s, actions).pcs, t).w
    ensures SeenSet(s, actions, p)
    decreases |actions|
  {
    var before := actions[..|actions| - 1];
    RunShape(s, before);
    StepPast(Run(s, before), actions[|actions| - 1], t, p);
    if p / 64 < At(Run(s, before).pcs, t).w {
      PassedSeen(s, before, t, p);
    } else {
      SeenNow(s, before, p);
    }
    SeenBefore(s, actions, p);
  }

  lemma StepPast(s: State, a: Action, t: Thread, p: nat)
    requires Shape(s) && Scanning(At(s.pcs, t))
    ensures var (w, pc) := (At(s.pcs, t).w, At(Step(s, a).pcs, t));
            Scanning(pc) && p / 64 < pc.w ==> p / 64 < w || IsSet(s.words, p)
  {
    ScanMoves(s, a, t);
    var (w, pc) := (At(s.pcs, t).w, At(Step(s, a).pcs, t));
    if Scanning(pc) && w <= p / 64 < pc.w { WordSeen(s.words, w, p); }
  }

  lemma StepOut(s: State, a: Action, t: Thread, p: nat)
    requires Shape(s) && Scanning(At(s.pcs, t))
    ensures var (w, pc) := (At(s.pcs, t).w, At(Step(s, a).pcs, t));
            (pc.Idle? && p < s.total) || (pc.Taken? && p < pc.p) ==> p / 64 < w || IsSet(s.words, p)
  {
    ScanMoves(s, a, t);
    var (w, pc) := (At(s.pcs, t).w, At(Step(s, a).pcs, t));
    if (pc.Idle? && p < s.total) || (pc.Taken? && p < pc.p) {
      if p / 64 >= w && w < |s.words| {
        LowestClear(s.words, w);
        ScanWord(s.words, Set(s.words), w);
        assert p / 64 == w;
        WordSeen(s.words, w, p);
      }
    }
  }

  // alloc_page, from its first load on, whatever the others do: it comes back empty-handed only if each page below
  // the total was marked at some time of its scan, and with a page only if each lower one was.
  lemma AllocPageAnswers(s: State, actions: seq<Action>, a: Action, t: Thread, p: nat)
    requires Shape(s) && At(s.pcs, t) == Loading(0) && Scans(s, actions, t)
    ensures var pc := At(Step(Run(s, actions), a).pcs, t);
            (pc.Idle? && p < s.total) || (pc.Taken? && p < pc.p) ==> SeenSet(s, actions, p)
  {
    RunShape(s, actions);
    StepOut(Run(s, actions), a, t, p);
    if p / 64 < At(Run(s, actions).pcs, t).w {
      PassedSeen(s, actions, t, p);
    } else if IsSet(Run(s, actions).words, p) {
      SeenNow(s, actions, p);
    }
  }

  // The thread is in alloc_pages' search for n pages all along.
  ghost predicate Seeks(s: State, actions: seq<Action>, t: Thread, n: nat)
    decreases |actions|
  {
    At(Run(s, actions).pcs, t).Seeking? && At(Run(s, actions).pcs, t).n == n && (actions == [] || Seeks(s, actions[..|actions| - 1], t, n))
  }

  // One of the n pages from b on was marked at some time of the run.
  ghost predicate Broken(s: State, actions: seq<Action>, b: nat, n: nat) {
    exists p: nat :: b <= p < b + n && SeenSet(s, actions, p)
  }

  lemma SeekMoves(s: State, a: Action, t: Thread)
    requires Shape(s) && At(s.pcs, t).Seeking?
    ensures var (pc, next) := (At(s.pcs, t), At(Step(s, a).pcs, t));
            match next
            case Seeking(n, start, found) =>
              && n == pc.n
              && (start == pc.start || (start == pc.start + pc.found + 1 && IsSet(s.words, pc.start + pc.found)))
            case Marking(n, start, i) => n == pc.n && start == pc.start && i == 0
            case Idle => pc.start + pc.found >= s.total
            case _ => false
  {
    if a.t != t { StepElsewhere(s, a, t); }
  }

  lemma {:induction false} PassedBroken(s: State, actions: seq<Action>, t: Thread, n: nat, b: nat)
    requires Shape(s) && At(s.pcs, t) == Seeking(n, 0, 0) && Seeks(s, actions, t, n) && b < At(Run(s, actions).pcs, t).start
    ensures Broken(s, actions, b, n)
    decreases |actions|
  {
    var before := actions[..|actions| - 1];
    RunShape(s, before);
    if b < At(Run(s, before).pcs, t).start {
      PassedBroken(s, before, t, n, b);
    } else {
      var q := SeekPast(Run(s, before), Run(s, actions), actions[|actions| - 1], t, n, b);
      SeenNow(s, before, q);
    }
    BrokenBefore(s, actions, b, n);
  }

  lemma BrokenBefore(s: State, actions: seq<Action>, b: nat, n: nat)
    requires actions != [] && Broken(s, actions[..|actions| - 1], b, n)
    ensures Broken(s, actions, b, n)
  {
    var q: nat :| b <= q < b + n && SeenSet(s, actions[..|actions| - 1], q);
    SeenBefore(s, actions, q);
  }

  lemma SeekPast(s: State, s': State, a: Action, t: Thread, n: nat, b: nat) returns (q: nat)
    requires Shape(s) && At(s.pcs, t).Seeking? && At(s.pcs, t).n == n && s' == Step(s, a)
    requires At(s'.pcs, t).Seeking? && At(s.pcs, t).start <= b < At(s'.pcs, t).start
    ensures b <= q < b + n && IsSet(s.words, q)
  {
    SeekMoves(s, a, t);
    assert PcOk(s, At(s.pcs, t));
    q := At(s.pcs, t).start + At(s.pcs, t).found;
  }

  // alloc_pages, whatever the others do while it searches: it gives up only if each run of n pages below the total had
  // a page marked at some time, and it settles on a run only if each lower one had.
  lemma AllocPagesAnswers(s: State, actions: seq<Action>, a: Action, t: Thread, n: nat, b: nat)
    requires Shape(s) && At(s.pcs, t) == Seeking(n, 0, 0) && Seeks(s, actions, t, n)
    ensures var pc := At(Step(Run(s, actions), a).pcs, t);
            (pc.Idle? && b + n <= s.total) || (pc.Marking? && b < pc.start) ==> Broken(s, actions, b, n)
  {
    var now := Run(s, actions);
    var pc := At(Step(now, a).pcs, t);
    RunShape(s, actions);
    SeekMoves(now, a, t);
    assert PcOk(now, At(now.pcs, t));
    if (pc.Idle? && b + n <= s.total) || (pc.Marking? && b < pc.start) { PassedBroken(s, actions, t, n, b); }
  }

  // ----- two threads, two pages, four owners -----

  lemma RunOne(s: State, before: seq<Action>, a: Action)
    ensures Run(s, before + [a]) == Step(Run(s, before), a)
  {
    assert (before + [a])[..|before|] == before;
  }

  lemma RunThree(s: State, before: seq<Action>, a: Action)
    ensures Run(s, before + [a, a, a]) == Step(Step(Step(Run(s, before), a), a), a)
  {
    var one, two := before + [a], before + [a, a];
    assert one + [a] == two && two + [a] == before + [a, a, a];
    assert Run(s, one) == Step(Run(s, before), a) by { RunOne(s, before, a); }
    assert Run(s, two) == Step(Run(s, one), a) by { RunOne(s, one, a); }
    assert Run(s, two + [a]) == Step(Run(s, two), a) by { RunOne(s, two, a); }
  }

  // alloc_pages(2) up to the first bit it sets.
  function Look(t: Thread): seq<Action> {
    [StartRun(t, 2)] + [Advance(t), Advance(t), Advance(t)]
  }

  lemma Found(now: State, s1: State, s2: State, s3: State, s4: State, t: Thread)
    requires At(now.pcs, t).Idle? && now.total >= 2 && now.free >= 2 && !IsSet(now.words, 0) && !IsSet(now.words, 1)
    requires s1 == To(now, t, RunTesting(2)) && s2 == To(now, t, Seeking(2, 0, 0))
    requires s3 == To(now, t, Seeking(2, 0, 1)) && s4 == To(now, t, Marking(2, 0, 0))
    ensures Step(now, StartRun(t, 2)) == s1 && Step(s1, Advance(t)) == s2
    ensures Step(s2, Advance(t)) == s3 && Step(s3, Advance(t)) == s4
  {
    assert now.pcs[t := RunTesting(2)][t := Seeking(2, 0, 0)] == now.pcs[t := Seeking(2, 0, 0)];
    assert now.pcs[t := Seeking(2, 0, 0)][t := Seeking(2, 0, 1)] == now.pcs[t := Seeking(2, 0, 1)];
    assert now.pcs[t := Seeking(2, 0, 1)][t := Marking(2, 0, 0)] == now.pcs[t := Marking(2, 0, 0)];
  }

  lemma Looks(s: State, t: Thread, before: seq<Action>, now: State)
    requires now == Run(s, before) && At(now.pcs, t).Idle? && now.total >= 2 && now.free >= 2
    requires !IsSet(now.words, 0) && !IsSet(now.words, 1)
    ensures Run(s, before + Look(t)) == To(now, t, Marking(2, 0, 0))
  {
    var s1 := To(now, t, RunTesting(2));
    var s2 := To(now, t, Seeking(2, 0, 0));
    var s3 := To(now, t, Seeking(2, 0, 1));
    var s4 := To(now, t, Marking(2, 0, 0));
    Found(now, s1, s2, s3, s4, t);
    RunOne(s, before, StartRun(t, 2));
    RunThree(s, before + [StartRun(t, 2)], Advance(t));
    assert before + Look(t) == before + [StartRun(t, 2)] + [Advance(t), Advance(t), Advance(t)];
  }

  // And from there to its end.
  lemma Takes(s: State, t: Thread, u: Thread, before: seq<Action>, now: State) returns (after: State)
    requires u != t && now == Run(s, before) && At(now.pcs, t) == Marking(2, 0, 0)
    ensures after == Run(s, before + [Advance(t), Advance(t), Advance(t)])
    ensures after.out == now.out + Pages(0, 2) && At(after.pcs, u) == At(now.pcs, u)
  {
    var s1 := To(now, t, Marking(2, 0, 1)).(words := WithBit(now.words, 0));
    var s2 := To(s1, t, RunTaken(2, 0)).(words := WithBit(s1.words, 1));
    after := To(s2, t, Idle).(free := Less(s2.free, 2), out := s2.out + Pages(0, 2));
    MarksBoth(now, s1, s2, after, t);
    RunThree(s, before, Advance(t));
  }

  lemma MarksBoth(now: State, s1: State, s2: State, after: State, t: Thread)
    requires At(now.pcs, t) == Marking(2, 0, 0) && s1 == To(now, t, Marking(2, 0, 1)).(words := WithBit(now.words, 0))
    requires s2 == To(s1, t, RunTaken(2, 0)).(words := WithBit(s1.words, 1))
    requires after == To(s2, t, Idle).(free := Less(s2.free, 2), out := s2.out + Pages(0, 2))
    ensures Step(now, Advance(t)) == s1 && Step(s1, Advance(t)) == s2 && Step(s2, Advance(t)) == after
  {
    assert At(s1.pcs, t) == Marking(2, 0, 1) && At(s2.pcs, t) == RunTaken(2, 0);
  }

  // alloc_pages alone can hand out the same pages twice: both threads look before either sets a bit.
  lemma RunsTwice(s: State) returns (actions: seq<Action>)
    requires IsInit(s) && s.total >= 2
    ensures Run(s, actions).out[0] == 2 && Run(s, actions).out[1] == 2
  {
    InitKeeps(s);
    assert Owned(s, 0) && Owned(s, 1) && Holders(s.pcs, 0) == {} && Holders(s.pcs, 1) == {};
    var a, b := [] + Look(0), [Advance(0), Advance(0), Advance(0)];
    var s0 := To(s, 0, Marking(2, 0, 0));
    Looks(s, 0, [], s);
    Looks(s, 1, a, s0);
    var s1 := To(s0, 1, Marking(2, 0, 0));
    var s2 := Takes(s, 0, 1, a + Look(1), s1);
    var s3 := Takes(s, 1, 0, a + Look(1) + b, s2);
    actions := a + Look(1) + b + [Advance(1), Advance(1), Advance(1)];
    PagesSpec(0, 2, 0);
    PagesSpec(0, 2, 1);
  }
}
