/** The scheduler's state and what each operation makes of it. */
module SchedulerState {
  import opened Errors
  import Bits

  const PRIORITIES: nat := 256
  const QUEUE_SIZE: nat := 64
  const DEFAULT_QUANTUM: nat := 10
  const RT_MIN_QUANTUM: nat := 1

  type Task = nat
  type Priority = p: nat | p < 256
  type Queues = seq<seq<Task>>

  datatype State = State(
    queues: Queues,                              // by priority, oldest first
    current: Option<Task>, currentPriority: Option<Priority>, slice: nat, needResched: bool,
    ready: nat, running: nat, blocked: nat, switches: nat)

  function EmptyQueues(): (q: Queues)
    ensures |q| == PRIORITIES && forall p :: 0 <= p < PRIORITIES ==> q[p] == []
  {
    seq(PRIORITIES, _ => [])
  }

  function New(): State {
    State(EmptyQueues(), None, None, DEFAULT_QUANTUM, false, 0, 0, 0, 0)
  }

  function Decrement(n: nat): nat { if n == 0 then 0 else n - 1 }

  function Quantum(p: Priority): nat {
    if p < 32 then RT_MIN_QUANTUM + p else if p < 128 then DEFAULT_QUANTUM else DEFAULT_QUANTUM * 2
  }

  // ----- the operations -----

  // A full queue takes nothing and says so.
  predicate HasRoom(st: State, p: Priority)
    requires |st.queues| == PRIORITIES
  {
    |st.queues[p]| < QUEUE_SIZE
  }

  function Enqueue(st: State, t: Task, p: Priority): State
    requires |st.queues| == PRIORITIES
  {
    if HasRoom(st, p) then st.(queues := st.queues[p := st.queues[p] + [t]], ready := st.ready + 1) else st
  }

  function Tick(st: State): State {
    if st.current.None? then st
    else st.(slice := Decrement(st.slice), needResched := Decrement(st.slice) == 0 || st.needResched)
  }

  // The current task goes back to its queue when its slice is used up and its priority is known.
  predicate Expired(st: State) {
    st.current.Some? && st.currentPriority.Some? && st.slice == 0
  }

  function Requeue(st: State): State
    requires |st.queues| == PRIORITIES
  {
    if Expired(st) then
      var put := Enqueue(st, st.current.value, st.currentPriority.value);
      put.(current := None, currentPriority := None, running := Decrement(put.running))
    else st
  }

  // The lowest priority number from p on with a task waiting.
  function Lowest(queues: Queues, p: nat): (r: Option<nat>)
    ensures r.Some? ==> p <= r.value < |queues| && queues[r.value] != [] && forall i :: p <= i < r.value ==> queues[i] == []
    ensures r.None? ==> forall i :: p <= i < |queues| ==> queues[i] == []
    decreases |queues| - p
  {
    if p >= |queues| then None else if queues[p] != [] then Some(p) else Lowest(queues, p + 1)
  }

  function Dispatch(st: State): State
    requires |st.queues| == PRIORITIES
  {
    match Lowest(st.queues, 0)
    case None => st
    case Some(p) =>
      st.(queues := st.queues[p := st.queues[p][1..]], ready := Decrement(st.ready), running := st.running + 1, slice := Quantum(p))
  }

  function Picked(st: State): Option<Task> {
    match Lowest(st.queues, 0)
    case None => None
    case Some(p) => Some(st.queues[p][0])
  }

  function Schedule(st: State): State
    requires |st.queues| == PRIORITIES
  {
    Dispatch(Requeue(st.(needResched := false)))
  }

  function Selected(st: State): Option<Task>
    requires |st.queues| == PRIORITIES
  {
    Picked(Requeue(st.(needResched := false)))
  }

  function Yield(st: State, t: Task, p: Priority): State
    requires |st.queues| == PRIORITIES
  {
    Enqueue(if st.current == Some(t) then st.(current := None, running := Decrement(st.running)) else st, t, p)
  }

  function Block(st: State, t: Task): State {
    if st.current == Some(t) then st.(current := None, running := Decrement(st.running), blocked := st.blocked + 1) else st
  }

  function Wake(st: State, t: Task, p: Priority): State
    requires |st.queues| == PRIORITIES
  {
    Enqueue(st.(blocked := Decrement(st.blocked)), t, p)
  }

  function SetCurrent(st: State, t: Task): State {
    st.(current := Some(t), switches := st.switches + 1)
  }

  function SetCurrentWithPriority(st: State, t: Task, p: Priority): State {
    st.(current := Some(t), currentPriority := Some(p), switches := st.switches + 1)
  }

  // ----- runs -----

  datatype Op =
    | OpEnqueue(t: Task, p: Priority)
    | OpTick
    | OpSchedule
    | OpYield(t: Task, p: Priority)
    | OpBlock(t: Task)
    | OpWake(t: Task, p: Priority)
    | OpSetCurrent(t: Task)
    | OpSetCurrentWithPriority(t: Task, p: Priority)

  function Step(st: State, op: Op): (r: State)
    requires |st.queues| == PRIORITIES
    ensures |r.queues| == PRIORITIES
  {
    match op
    case OpEnqueue(t, p) => Enqueue(st, t, p)
    case OpTick => Tick(st)
    case OpSchedule => Schedule(st)
    case OpYield(t, p) => Yield(st, t, p)
    case OpBlock(t) => Block(st, t)
    case OpWake(t, p) => Wake(st, t, p)
    case OpSetCurrent(t) => SetCurrent(st, t)
    case OpSetCurrentWithPriority(t, p) => SetCurrentWithPriority(st, t, p)
  }

  function Sum(queues: Queues): nat {
    if queues == [] then 0 else |queues[0]| + Sum(queues[1..])
  }

  // The ready counter counts the waiting tasks, and no queue is longer than its ring.
  ghost predicate Inv(st: State) {
    |st.queues| == PRIORITIES && st.ready == Sum(st.queues) && forall p :: 0 <= p < PRIORITIES ==> |st.queues[p]| <= QUEUE_SIZE
  }

  lemma {:induction false} SumUpdate(queues: Queues, p: nat, q: seq<Task>)
    requires p < |queues|
    ensures Sum(queues[p := q]) == Sum(queues) - |queues[p]| + |q|
    decreases |queues|
  {
    if p == 0 {
      assert queues[0 := q][1..] == queues[1..];
    } else {
      assert queues[p := q][1..] == queues[1..][p - 1 := q];
      SumUpdate(queues[1..], p - 1, q);
    }
  }

  lemma {:induction false} SumEmpty(queues: Queues)
    requires forall p :: 0 <= p < |queues| ==> queues[p] == []
    ensures Sum(queues) == 0
    decreases |queues|
  {
    if queues != [] { SumEmpty(queues[1..]); }
  }

  lemma {:induction false} SumAtLeast(queues: Queues, p: nat)
    requires p < |queues|
    ensures Sum(queues) >= |queues[p]|
    decreases |queues|
  {
    if p > 0 { SumAtLeast(queues[1..], p - 1); }
  }

  lemma NewKeeps()
    ensures Inv(New())
  {
    SumEmpty(EmptyQueues());
  }

  lemma EnqueueKeeps(st: State, t: Task, p: Priority)
    requires Inv(st)
    ensures Inv(Enqueue(st, t, p))
  {
    SumUpdate(st.queues, p, st.queues[p] + [t]);
  }

  // The counter falls by exactly one with each task taken: the saturating subtraction never saturates.
  lemma DispatchKeeps(st: State)
    requires Inv(st)
    ensures Inv(Dispatch(st)) && (Picked(st).Some? ==> st.ready > 0)
  {
    var r := Lowest(st.queues, 0);
    if r.Some? {
      SumUpdate(st.queues, r.value, st.queues[r.value][1..]);
      SumAtLeast(st.queues, r.value);
    }
  }

  lemma RequeueKeeps(st: State)
    requires Inv(st)
    ensures Inv(Requeue(st))
  {
    if Expired(st) { EnqueueKeeps(st, st.current.value, st.currentPriority.value); }
  }

  lemma StepKeeps(st: State, op: Op)
    requires Inv(st)
    ensures Inv(Step(st, op))
  {
    match op
    case OpEnqueue(t, p) => EnqueueKeeps(st, t, p);
    case OpTick =>
    case OpSchedule =>
      RequeueKeeps(st.(needResched := false));
      DispatchKeeps(Requeue(st.(needResched := false)));
    case OpYield(t, p) =>
      EnqueueKeeps(if st.current == Some(t) then st.(current := None, running := Decrement(st.running)) else st, t, p);
    case OpBlock(t) =>
    case OpWake(t, p) => EnqueueKeeps(st.(blocked := Decrement(st.blocked)), t, p);
    case OpSetCurrent(t) =>
    case OpSetCurrentWithPriority(t, p) =>
  }

  // ----- first in, first out -----

  // What one operation puts into and takes out of queue p.
  function Ins(st: State, op: Op, p: Priority): seq<Task>
    requires |st.queues| == PRIORITIES
  {
    match op
    case OpEnqueue(t, q) => if q == p && HasRoom(st, p) then [t] else []
    case OpYield(t, q) => if q == p && HasRoom(st, p) then [t] else []
    case OpWake(t, q) => if q == p && HasRoom(st, p) then [t] else []
    case OpSchedule => if Expired(st) && st.currentPriority.value == p && HasRoom(st, p) then [st.current.value] else []
    case _ => []
  }

  function Outs(st: State, op: Op, p: Priority): seq<Task>
    requires |st.queues| == PRIORITIES
  {
    if op.OpSchedule? && Selected(st).Some? && Lowest(Requeue(st.(needResched := false)).queues, 0) == Some(p as nat) then [Selected(st).value] else []
  }

  function Run(st: State, ops: seq<Op>): (r: State)
    requires |st.queues| == PRIORITIES
    ensures |r.queues| == PRIORITIES
    decreases |ops|
  {
    if ops == [] then st else Step(Run(st, ops[..|ops| - 1]), ops[|ops| - 1])
  }

  function AllIns(st: State, ops: seq<Op>, p: Priority): seq<Task>
    requires |st.queues| == PRIORITIES
    decreases |ops|
  {
    if ops == [] then [] else AllIns(st, ops[..|ops| - 1], p) + Ins(Run(st, ops[..|ops| - 1]), ops[|ops| - 1], p)
  }

  function AllOuts(st: State, ops: seq<Op>, p: Priority): seq<Task>
    requires |st.queues| == PRIORITIES
    decreases |ops|
  {
    if ops == [] then [] else AllOuts(st, ops[..|ops| - 1], p) + Outs(Run(st, ops[..|ops| - 1]), ops[|ops| - 1], p)
  }

  lemma StepInOut(st: State, op: Op, p: Priority)
    requires |st.queues| == PRIORITIES
    ensures st.queues[p] + Ins(st, op, p) == Outs(st, op, p) + Step(st, op).queues[p]
  {
    if op.OpSchedule? { ScheduleInOut(st, st.(needResched := false), p); }
  }

  lemma ScheduleInOut(st: State, ready: State, p: Priority)
    requires |st.queues| == PRIORITIES && ready == st.(needResched := false)
    ensures st.queues[p] + Ins(st, OpSchedule, p) == Outs(st, OpSchedule, p) + Dispatch(Requeue(ready)).queues[p]
  {
    var mid := Requeue(ready);
    assert mid.queues[p] == st.queues[p] + Ins(st, OpSchedule, p);
    if Lowest(mid.queues, 0) == Some(p as nat) { assert mid.queues[p] == [mid.queues[p][0]] + mid.queues[p][1..]; }
  }

  lemma Append(ins: seq<Task>, outs: seq<Task>, q: seq<Task>, i: seq<Task>, o: seq<Task>, q': seq<Task>)
    requires ins == outs + q && q + i == o + q'
    ensures ins + i == (outs + o) + q'
  {
    assert ins + i == outs + (q + i) == outs + (o + q');
  }

  // In any run, what has been taken out of a queue followed by what still waits in it is what went in,
  // in that order; and the counter is exact.
  lemma {:induction false} RunFifo(ops: seq<Op>, p: Priority)
    ensures AllIns(New(), ops, p) == AllOuts(New(), ops, p) + Run(New(), ops).queues[p]
    ensures Inv(Run(New(), ops))
    decreases |ops|
  {
    if ops == [] {
      NewKeeps();
    } else {
      var before := ops[..|ops| - 1];
      RunFifo(before, p);
      OneMore(Run(New(), before), ops[|ops| - 1], p, AllIns(New(), before, p), AllOuts(New(), before, p));
    }
  }

  lemma OneMore(st: State, op: Op, p: Priority, ins: seq<Task>, outs: seq<Task>)
    requires Inv(st) && ins == outs + st.queues[p]
    ensures Inv(Step(st, op)) && ins + Ins(st, op, p) == outs + Outs(st, op, p) + Step(st, op).queues[p]
  {
    StepKeeps(st, op);
    StepInOut(st, op, p);
    Append(ins, outs, st.queues[p], Ins(st, op, p), Outs(st, op, p), Step(st, op).queues[p]);
  }

  // ----- what is picked, and who is lost -----

  // A task is picked exactly when one waits or an expired one has gone back, and none waits at a lower
  // priority number; it is the oldest of its queue.
  lemma SelectsOldestOfLowest(st: State, p: Priority)
    requires Inv(st)
    ensures var q := Requeue(st.(needResched := false)).queues;
            && (Selected(st).None? <==> forall i :: 0 <= i < PRIORITIES ==> q[i] == [])
            && (q[p] != [] && (forall i :: 0 <= i < p ==> q[i] == []) ==>
                  && Selected(st) == Some(q[p][0]) && Schedule(st).queues == q[p := q[p][1..]]
                  && Schedule(st).slice == (if p < 32 then 1 + p else if p < 128 then 10 else 20) && !Schedule(st).needResched)
  {
    var q := Requeue(st.(needResched := false)).queues;
    var r := Lowest(q, 0);
    if r.Some? && r.value != p { assert q[r.value] != []; }
  }

  // How often a task waits, and whether it is the given one.
  function Waits(queues: Queues, t: Task): nat {
    if queues == [] then 0 else multiset(queues[0])[t] + Waits(queues[1..], t)
  }

  function Is(own: Option<Task>, t: Task): nat { if own == Some(t) then 1 else 0 }

  lemma {:induction false} WaitsUpdate(queues: Queues, p: nat, q: seq<Task>, t: Task)
    requires p < |queues|
    ensures Waits(queues[p := q], t) + multiset(queues[p])[t] == Waits(queues, t) + multiset(q)[t]
    decreases |queues|
  {
    if p == 0 {
      assert queues[0 := q][1..] == queues[1..];
    } else {
      assert queues[p := q][1..] == queues[1..][p - 1 := q];
      WaitsUpdate(queues[1..], p - 1, q, t);
    }
  }

  // The expired task finds its queue full.
  predicate Loses(st: State)
    requires |st.queues| == PRIORITIES
  {
    Expired(st) && !HasRoom(st, st.currentPriority.value)
  }

  lemma RequeueConserves(st: State, t: Task)
    requires Inv(st)
    ensures Waits(Requeue(st).queues, t) + Is(Requeue(st).current, t) + (if Loses(st) then Is(st.current, t) else 0)
         == Waits(st.queues, t) + Is(st.current, t)
  {
    if Expired(st) && HasRoom(st, st.currentPriority.value) {
      var p, own := st.currentPriority.value, st.current.value;
      WaitsUpdate(st.queues, p, st.queues[p] + [own], t);
    }
  }

  lemma DispatchConserves(st: State, t: Task)
    requires Inv(st)
    ensures Waits(Dispatch(st).queues, t) + Is(Picked(st), t) == Waits(st.queues, t)
  {
    var r := Lowest(st.queues, 0);
    if r.Some? {
      var q := st.queues[r.value];
      WaitsUpdate(st.queues, r.value, q[1..], t);
      assert q == [q[0]] + q[1..];
    }
  }

  // A rescheduling moves tasks about; it loses one, the expired one, exactly when that task's queue is full.
  lemma ScheduleConserves(st: State, t: Task)
    requires Inv(st)
    ensures Waits(Schedule(st).queues, t) + Is(Selected(st), t) + Is(Schedule(st).current, t) + (if Loses(st) then Is(st.current, t) else 0)
         == Waits(st.queues, t) + Is(st.current, t)
  {
    var ready := st.(needResched := false);
    RequeueKeeps(ready);
    RequeueConserves(ready, t);
    DispatchConserves(Requeue(ready), t);
  }

  // How often a task is held: waiting, or as the current one.
  function Held(st: State, t: Task): nat {
    Waits(st.queues, t) + Is(st.current, t)
  }

  function One(b: bool): nat { if b then 1 else 0 }

  lemma PutHeld(st: State, u: Task, p: Priority, t: Task)
    requires Inv(st)
    ensures Held(Enqueue(st, u, p), t) == Held(st, t) + One(u == t && |st.queues[p]| < 64)
  {
    if |st.queues[p]| < 64 { WaitsUpdate(st.queues, p, st.queues[p] + [u], t); }
  }

  // What every operation does to the number of times a task is held: putting a task into a queue that has room adds
  // it once; yielding and blocking take it away where it is the current one; scheduling hands the selected one out
  // and loses the expired one if its queue is full; and a new current task takes the place of the old one.
  lemma StepHolds(st: State, op: Op, t: Task)
    requires Inv(st)
    ensures var (before, after) := (Held(st, t), Held(Step(st, op), t));
            match op
            case OpEnqueue(u, p) => after == before + One(u == t && |st.queues[p]| < 64)
            case OpWake(u, p) => after == before + One(u == t && |st.queues[p]| < 64)
            case OpYield(u, p) => after + One(u == t && st.current == Some(u)) == before + One(u == t && |st.queues[p]| < 64)
            case OpBlock(u) => after + One(u == t && st.current == Some(u)) == before
            case OpTick => after == before
            case OpSchedule => after + One(Selected(st) == Some(t)) + One(Loses(st) && st.current == Some(t)) == before
            case OpSetCurrent(u) => after + One(st.current == Some(t)) == before + One(u == t)
            case OpSetCurrentWithPriority(u, _) => after + One(st.current == Some(t)) == before + One(u == t)
  {
    match op
    case OpEnqueue(u, p) => PutHeld(st, u, p, t);
    case OpWake(u, p) => PutHeld(st.(blocked := Decrement(st.blocked)), u, p, t);
    case OpYield(u, p) =>
      PutHeld(if st.current == Some(u) then st.(current := None, running := Decrement(st.running)) else st, u, p, t);
    case OpSchedule => ScheduleConserves(st, t);
    case _ =>
  }

  // Which task is current afterwards, and with what priority.
  lemma CurrentAfter(st: State, op: Op)
    requires |st.queues| == PRIORITIES
    ensures var expired := op.OpSchedule? && st.current.Some? && st.currentPriority.Some? && st.slice == 0;
            && Step(st, op).current ==
                 (if op.OpSetCurrent? || op.OpSetCurrentWithPriority? then Some(op.t)
                  else if expired || ((op.OpYield? || op.OpBlock?) && st.current == Some(op.t)) then None
                  else st.current)
            && Step(st, op).currentPriority ==
                 (if op.OpSetCurrentWithPriority? then Some(op.p) else if expired then None else st.currentPriority)
  {
  }

  predicate Mentions(op: Op, t: Task) {
    !op.OpTick? && !op.OpSchedule? && !op.OpBlock? && op.t == t
  }

  lemma {:induction false} NotHeldStays(st: State, ops: seq<Op>, t: Task)
    requires Inv(st) && Held(st, t) == 0 && forall i :: 0 <= i < |ops| ==> !Mentions(ops[i], t)
    ensures Inv(Run(st, ops)) && Held(Run(st, ops), t) == 0
    decreases |ops|
  {
    if ops != [] {
      var before := Run(st, ops[..|ops| - 1]);
      NotHeldStays(st, ops[..|ops| - 1], t);
      StepHolds(before, ops[|ops| - 1], t);
      StepKeeps(before, ops[|ops| - 1]);
    }
  }

  // In every run: a current task that waits nowhere and is blocked is neither current nor selected again until an
  // operation that puts it back names it.
  lemma BlockedStaysOut(before: seq<Op>, t: Task, ops: seq<Op>)
    requires Run(New(), before).current == Some(t) && Waits(Run(New(), before).queues, t) == 0
    requires forall i :: 0 <= i < |ops| ==> !Mentions(ops[i], t)
    ensures var st := Run(Step(Run(New(), before), OpBlock(t)), ops);
            st.current != Some(t) && Selected(st) != Some(t) && forall p :: 0 <= p < PRIORITIES ==> t !in st.queues[p]
  {
    var st := Run(New(), before);
    RunFifo(before, 0);
    StepHolds(st, OpBlock(t), t);
    StepKeeps(st, OpBlock(t));
    NotHeldStays(Step(st, OpBlock(t)), ops, t);
    var end := Run(Step(st, OpBlock(t)), ops);
    StepHolds(end, OpSchedule, t);
    WaitsNowhere(end.queues, t);
  }

  lemma {:induction false} WaitsNowhere(queues: Queues, t: Task)
    requires Waits(queues, t) == 0
    ensures forall p :: 0 <= p < |queues| ==> t !in queues[p]
    decreases |queues|
  {
    if queues != [] {
      WaitsNowhere(queues[1..], t);
      assert t !in multiset(queues[0]);
      forall p | 0 <= p < |queues| ensures t !in queues[p] { if p > 0 { assert queues[p] == queues[1..][p - 1]; } }
    }
  }

  // ----- time slices -----

  function Ticks(st: State, n: nat): (r: State)
    ensures r == st.(slice := r.slice, needResched := r.needResched)
  {
    if n == 0 then st else Tick(Ticks(st, n - 1))
  }

  // The timer first asks to reschedule on exactly the tick that uses the slice up.
  // Without a current task it does not count.
  lemma {:induction false} TicksSpec(st: State, n: nat)
    ensures st.current.None? ==> Ticks(st, n) == st
    ensures st.current.Some? ==> Ticks(st, n).slice == if n <= st.slice then st.slice - n else 0
    ensures st.current.Some? && n > 0 ==> (Ticks(st, n).needResched <==> n >= st.slice || st.needResched)
    decreases n
  {
    if n > 0 { TicksSpec(st, n - 1); }
  }

  // ----- round robin -----

  // The current task runs its slice out, the scheduler is asked, and its answer is made current.
  function Turn(st: State, p: Priority): (r: State)
    requires |st.queues| == PRIORITIES
    ensures |r.queues| == PRIORITIES
  {
    var due := Ticks(st, st.slice);
    var next := Schedule(due);
    if Selected(due).Some? then SetCurrentWithPriority(next, Selected(due).value, p) else next
  }

  function Turns(st: State, p: Priority, k: nat): (r: State)
    requires |st.queues| == PRIORITIES
    ensures |r.queues| == PRIORITIES
  {
    if k == 0 then st else Turn(Turns(st, p, k - 1), p)
  }

  // The ring: the current task, then the ones waiting behind it; nobody waits at a lower number.
  ghost predicate Ring(st: State, p: Priority, ring: seq<Task>) {
    && |st.queues| == PRIORITIES && st.currentPriority == Some(p) && st.slice == Quantum(p)
    && (forall i :: 0 <= i < p ==> st.queues[i] == [])
    && |ring| > 0 && st.current == Some(ring[0]) && st.queues[p] == ring[1..]
  }

  function Rotated(ring: seq<Task>, k: nat): seq<Task>
    requires |ring| > 0
  {
    ring[k % |ring|..] + ring[..k % |ring|]
  }

  lemma TurnRotates(st: State, p: Priority, ring: seq<Task>)
    requires Ring(st, p, ring) && |ring| <= QUEUE_SIZE
    ensures Ring(Turn(st, p), p, ring[1..] + [ring[0]])
    ensures Turn(st, p).queues == st.queues[p := ring[1..] + [ring[0]]][p := (ring[1..] + [ring[0]])[1..]]
  {
    var due := Ticks(st, st.slice);
    TicksSpec(st, st.slice);
    var mid := Requeue(due.(needResched := false));
    assert mid.queues == st.queues[p := ring[1..] + [ring[0]]];
    var r := Lowest(mid.queues, 0);
    assert mid.queues[p] != [];
    assert r == Some(p as nat);
  }

  lemma RotateOnce(ring: seq<Task>, k: nat)
    requires |ring| > 0
    ensures var r := Rotated(ring, k); |r| == |ring| && r[0] == ring[k % |ring|] && Rotated(ring, k + 1) == r[1..] + [r[0]]
  {
    var n, m := |ring|, k % |ring|;
    assert (k + 1) % n == if m + 1 == n then 0 else m + 1 by {
      Bits.DivUnique(k + 1, n, if m + 1 == n then k / n + 1 else k / n, if m + 1 == n then 0 else m + 1);
    }
    var r := Rotated(ring, k);
    if m + 1 == n {
      assert r[1..] + [r[0]] == ring;
    } else {
      assert r[1..] + [r[0]] == ring[m + 1..] + ring[..m + 1];
    }
  }

  // What it is like after k turns: the ring is rotated by k, and all other queues are as before.
  ghost predicate AfterTurns(start: State, st: State, p: Priority, ring: seq<Task>, k: nat)
    requires |ring| > 0 && |start.queues| == PRIORITIES
  {
    && Ring(st, p, Rotated(ring, k)) && st.current == Some(ring[k % |ring|])
    && forall i :: 0 <= i < PRIORITIES && i != p ==> st.queues[i] == start.queues[i]
  }

  lemma RingTurns(start: State, st: State, p: Priority, ring: seq<Task>, k: nat)
    requires 0 < |ring| <= QUEUE_SIZE && |start.queues| == |st.queues| == PRIORITIES && AfterTurns(start, st, p, ring, k)
    ensures AfterTurns(start, Turn(st, p), p, ring, k + 1)
  {
    RotateOnce(ring, k);
    RotateOnce(ring, k + 1);
    TurnRotates(st, p, Rotated(ring, k));
  }

  // Up to 64 tasks that share the lowest priority number in use take turns with their number as the period,
  // for ever, and none of them is lost.
  lemma RoundRobin(st: State, p: Priority, ring: seq<Task>, k: nat)
    requires Ring(st, p, ring) && |ring| <= QUEUE_SIZE
    ensures AfterTurns(st, Turns(st, p, k), p, ring, k)
  {
    var f := (k: nat) => Turns(st, p, k);
    RoundRobinOf(f, st, p, ring, k);
  }

  // The same with the turns as a value f, so that the induction need not unfold them.
  lemma {:induction false} RoundRobinOf(f: nat -> State, st: State, p: Priority, ring: seq<Task>, k: nat)
    requires Ring(st, p, ring) && |ring| <= QUEUE_SIZE
    requires forall k: nat {:trigger Turns(st, p, k)} :: f(k) == Turns(st, p, k)
    ensures AfterTurns(st, f(k), p, ring, k)
    decreases k
  {
    if k == 0 {
      assert Rotated(ring, 0) == ring;
      assert Turns(st, p, 0) == st;
    } else {
      RoundRobinOf(f, st, p, ring, k - 1);
      NextTurn(f, st, p, ring, k - 1);
    }
  }

  lemma NextTurn(f: nat -> State, st: State, p: Priority, ring: seq<Task>, k: nat)
    requires 0 < |ring| <= QUEUE_SIZE && |st.queues| == |f(k).queues| == PRIORITIES && AfterTurns(st, f(k), p, ring, k)
    requires forall k: nat {:trigger Turns(st, p, k)} :: f(k) == Turns(st, p, k)
    ensures AfterTurns(st, f(k + 1), p, ring, k + 1)
  {
    RingTurns(st, f(k), p, ring, k);
    assert f(k) == Turns(st, p, k) && f(k + 1) == Turns(st, p, k + 1);
  }

  // One task more and the first to run its slice out disappears.
  lemma RoundRobinLoses(st: State, p: Priority, ring: seq<Task>)
    requires Ring(st, p, ring) && |ring| == QUEUE_SIZE + 1
    ensures Ring(Turn(st, p), p, ring[1..])
  {
    var due := Ticks(st, st.slice);
    TicksSpec(st, st.slice);
    var mid := Requeue(due.(needResched := false));
    assert mid.queues == st.queues && mid.queues[p] != [];
    assert Lowest(mid.queues, 0) == Some(p as nat);
  }

  // Both happen: the first task is scheduled and made current, then the others are enqueued behind it.
  function Filling(p: Priority, ring: seq<Task>): seq<Op>
    requires |ring| > 0
    decreases |ring|
  {
    if |ring| == 1 then [OpEnqueue(ring[0], p), OpSchedule, OpSetCurrentWithPriority(ring[0], p)]
    else Filling(p, ring[..|ring| - 1]) + [OpEnqueue(ring[|ring| - 1], p)]
  }

  // Any 65 tasks are such a ring in a run from the start, and one turn later the first of them waits nowhere.
  lemma OverfullReached(p: Priority, ring: seq<Task>)
    requires |ring| == QUEUE_SIZE + 1
    ensures var st := Run(New(), Filling(p, ring));
            Ring(st, p, ring) && Ring(Turn(st, p), p, ring[1..])
  {
    RingReached(New(), p, ring);
    RoundRobinLoses(Run(New(), Filling(p, ring)), p, ring);
  }

  lemma {:induction false} RingReached(st: State, p: Priority, ring: seq<Task>)
    requires 0 < |ring| <= QUEUE_SIZE + 1
    requires |st.queues| == PRIORITIES && !Expired(st) && forall i :: 0 <= i <= p ==> st.queues[i] == []
    ensures Ring(Run(st, Filling(p, ring)), p, ring)
    decreases |ring|
  {
    if |ring| == 1 {
      RingOfOne(st, p, ring[0]);
      assert ring == [ring[0]];
    } else {
      var before, last := ring[..|ring| - 1], ring[|ring| - 1];
      RingReached(st, p, before);
      RunOne(st, Filling(p, before), OpEnqueue(last, p), p);
      RingGrows(Run(st, Filling(p, before)), p, before, last);
      assert ring == before + [last];
    }
  }

  lemma RingGrows(st: State, p: Priority, ring: seq<Task>, t: Task)
    requires Ring(st, p, ring) && |ring| <= QUEUE_SIZE
    ensures Ring(Enqueue(st, t, p), p, ring + [t])
  {
    assert (ring + [t])[1..] == ring[1..] + [t];
  }

  lemma RingOfOne(st: State, p: Priority, t: Task)
    requires |st.queues| == PRIORITIES && !Expired(st) && forall i :: 0 <= i <= p ==> st.queues[i] == []
    ensures Ring(Run(st, [OpEnqueue(t, p), OpSchedule, OpSetCurrentWithPriority(t, p)]), p, [t])
  {
    var put := Enqueue(st, t, p);
    FirstPicked(st, t, p);
    RunThree(st, put, Schedule(put), OpEnqueue(t, p), OpSchedule, OpSetCurrentWithPriority(t, p), p);
  }

  // With nobody waiting at a lower number or before it, a task put in is the task picked.
  lemma FirstPicked(st: State, t: Task, p: Priority)
    requires |st.queues| == PRIORITIES && !Expired(st) && forall i :: 0 <= i <= p ==> st.queues[i] == []
    ensures Selected(Enqueue(st, t, p)) == Some(t)
    ensures Schedule(Enqueue(st, t, p)) == st.(needResched := false, running := st.running + 1, slice := Quantum(p))
  {
    var put := Enqueue(st, t, p).(needResched := false);
    assert put.queues[p] == [t] && Requeue(put) == put;
    assert Lowest(put.queues, 0) == Some(p as nat);
    assert [t][1..] == [] && put.queues[p := []] == st.queues;
  }

  lemma RunOne(st: State, ops: seq<Op>, op: Op, p: Priority)
    requires |st.queues| == PRIORITIES
    ensures Run(st, ops + [op]) == Step(Run(st, ops), op)
    ensures AllIns(st, ops + [op], p) == AllIns(st, ops, p) + Ins(Run(st, ops), op, p)
  {
    assert (ops + [op])[..|ops|] == ops;
  }

  lemma RunThree(st: State, s1: State, s2: State, a: Op, b: Op, c: Op, p: Priority)
    requires |st.queues| == |s1.queues| == |s2.queues| == PRIORITIES && s1 == Step(st, a) && s2 == Step(s1, b)
    ensures Run(st, [a, b, c]) == Step(s2, c)
    ensures AllIns(st, [a, b, c], p) == Ins(st, a, p) + Ins(s1, b, p) + Ins(s2, c, p)
  {
    RunOne(st, [], a, p);
    RunOne(st, [a], b, p);
    RunOne(st, [a, b], c, p);
    assert [] + [a] == [a] && [a] + [b] == [a, b] && [a, b] + [c] == [a, b, c];
  }

  // set_current leaves the priority of the task before it in place: an expired task goes back to its own
  // queue exactly when that priority happens to be its own.
  lemma SetCurrentStale(st: State, t: Task, p: Priority)
    requires Inv(st) && HasRoom(st, p)
    ensures var due := SetCurrent(st, t).(slice := 0);
            Requeue(due).queues == st.queues[p := st.queues[p] + [t]] <==> st.currentPriority == Some(p)
  {
    var due := SetCurrent(st, t).(slice := 0);
    assert |st.queues[p] + [t]| != |st.queues[p]|;
    if Requeue(due).queues == st.queues[p := st.queues[p] + [t]] {
      assert Requeue(due).queues[p] == st.queues[p] + [t];
    }
  }

  // It happens in a run of six operations and a time slice: task 2, enqueued with priority 9 alone, goes back
  // with priority 5, the one of task 1.
  function StaleRun(): seq<Op> {
    [OpEnqueue(1, 5), OpSchedule, OpSetCurrentWithPriority(1, 5)] + [OpEnqueue(2, 9), OpSchedule, OpSetCurrent(2)]
  }

  lemma StaleReached()
    ensures var due := Ticks(Run(New(), StaleRun()), 10);
            && due.current == Some(2) && Expired(due)
            && AllIns(New(), StaleRun(), 5) == [1] && AllIns(New(), StaleRun(), 9) == [2]
            && Ins(due, OpSchedule, 5) == [2] && Ins(due, OpSchedule, 9) == []
  {
    var start, mid := New(), SetCurrentWithPriority(Schedule(Enqueue(New(), 1, 5)), 1, 5);
    var first, second := [OpEnqueue(1, 5), OpSchedule, OpSetCurrentWithPriority(1, 5)], [OpEnqueue(2, 9), OpSchedule, OpSetCurrent(2)];
    FirstPart(start, mid, 1, 5, 9);
    SecondPart(mid, 2, 9, 5);
    RunAppend(start, first, second, 5);
    RunAppend(start, first, second, 9);
    assert start.queues[5] == start.queues[9] == [];
    StaleTicks(Run(start, StaleRun()));
  }

  lemma StaleTicks(st: State)
    requires st.current == Some(2) && st.currentPriority == Some(5) && st.slice == Quantum(9)
    requires |st.queues| == PRIORITIES && st.queues[5] == []
    ensures var due := Ticks(st, 10);
            due.current == Some(2) && Expired(due) && Ins(due, OpSchedule, 5) == [2] && Ins(due, OpSchedule, 9) == []
  {
    TicksSpec(st, 10);
  }

  // A task put in, picked and made current: only its own queue has seen it, and all queues are as before.
  lemma FirstPart(st: State, end: State, t: Task, p: Priority, q: Priority)
    requires |st.queues| == PRIORITIES && !Expired(st) && p != q && forall i :: 0 <= i <= p ==> st.queues[i] == []
    requires end == SetCurrentWithPriority(Schedule(Enqueue(st, t, p)), t, p)
    ensures var ops := [OpEnqueue(t, p), OpSchedule, OpSetCurrentWithPriority(t, p)];
            Run(st, ops) == end && AllIns(st, ops, p) == [t] && AllIns(st, ops, q) == []
    ensures end == st.(needResched := false, running := st.running + 1, slice := Quantum(p),
                       current := Some(t), currentPriority := Some(p), switches := st.switches + 1)
  {
    FirstPicked(st, t, p);
    RunThree(st, Enqueue(st, t, p), Schedule(Enqueue(st, t, p)), OpEnqueue(t, p), OpSchedule, OpSetCurrentWithPriority(t, p), p);
    RunThree(st, Enqueue(st, t, p), Schedule(Enqueue(st, t, p)), OpEnqueue(t, p), OpSchedule, OpSetCurrentWithPriority(t, p), q);
  }

  lemma SecondPart(st: State, t: Task, p: Priority, q: Priority)
    requires |st.queues| == PRIORITIES && !Expired(st) && p != q && forall i :: 0 <= i <= p ==> st.queues[i] == []
    ensures var ops := [OpEnqueue(t, p), OpSchedule, OpSetCurrent(t)];
            && AllIns(st, ops, p) == [t] && AllIns(st, ops, q) == []
            && Run(st, ops) == st.(needResched := false, running := st.running + 1, slice := Quantum(p),
                                   current := Some(t), switches := st.switches + 1)
  {
    FirstPicked(st, t, p);
    RunThree(st, Enqueue(st, t, p), Schedule(Enqueue(st, t, p)), OpEnqueue(t, p), OpSchedule, OpSetCurrent(t), p);
    RunThree(st, Enqueue(st, t, p), Schedule(Enqueue(st, t, p)), OpEnqueue(t, p), OpSchedule, OpSetCurrent(t), q);
  }

  lemma {:induction false} RunAppend(st: State, a: seq<Op>, b: seq<Op>, p: Priority)
    requires |st.queues| == PRIORITIES
    ensures Run(st, a + b) == Run(Run(st, a), b)
    ensures AllIns(st, a + b, p) == AllIns(st, a, p) + AllIns(Run(st, a), b, p)
    decreases |b|
  {
    if b == [] {
      assert a + b == a;
    } else {
      assert (a + b)[..|a + b| - 1] == a + b[..|b| - 1];
      RunAppend(st, a, b[..|b| - 1], p);
    }
  }
}
