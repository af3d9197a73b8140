/** The scheduler: ring queues, the bitmap over them, and the operations in place. */
module Scheduling {
  import opened Errors
  import opened SchedulerState
  import Bits

  // The k-th slot from the next one on, which is not the first.
  lemma NextSlot(head: nat, k: nat)
    requires head < QUEUE_SIZE && k < QUEUE_SIZE
    ensures ((head + 1) % QUEUE_SIZE + k) % QUEUE_SIZE == (head + (k + 1)) % QUEUE_SIZE
    ensures k + 1 < QUEUE_SIZE ==> (head + (k + 1)) % QUEUE_SIZE != head
  {
  }

  /** A ring of 64 slots. */
  class RunQueue {
    const tasks: array<Option<Task>>
    var head: nat
    var tail: nat
    var count: nat
    ghost var contents: seq<Task>

    ghost predicate Valid()
      reads this, tasks
    {
      && tasks.Length == QUEUE_SIZE && head < QUEUE_SIZE && count == |contents| <= QUEUE_SIZE
      && tail == (head + count) % QUEUE_SIZE
      && forall k :: 0 <= k < count ==> tasks[Slot(k)] == Some(contents[k])
    }

    function Slot(k: nat): nat
      reads this
    {
      (head + k) % QUEUE_SIZE
    }

    constructor ()
      ensures Valid() && fresh(tasks) && contents == []
    {
      tasks := new Option<Task>[QUEUE_SIZE](_ => None);
      head, tail, count := 0, 0, 0;
      contents := [];
    }

    method Push(t: Task) returns (ok: bool)
      requires Valid()
      modifies this, tasks
      ensures Valid() && (ok <==> |old(contents)| < QUEUE_SIZE)
      ensures contents == if ok then old(contents) + [t] else old(contents)
    {
      if count >= QUEUE_SIZE { return false; }
      tasks[tail] := Some(t);
      tail := (tail + 1) % QUEUE_SIZE;
      count := count + 1;
      contents := contents + [t];
      return true;
    }

    method Pop() returns (t: Option<Task>)
      requires Valid()
      modifies this, tasks
      ensures Valid() && t == if old(contents) == [] then None else Some(old(contents)[0])
      ensures contents == if old(contents) == [] then [] else old(contents)[1..]
    {
      if count == 0 { return None; }
      ghost var was := head;
      t := tasks[head];
      tasks[head] := None;
      head := (head + 1) % QUEUE_SIZE;
      count := count - 1;
      contents := contents[1..];
      NextSlot(was, count);
      forall k | 0 <= k < count ensures tasks[Slot(k)] == Some(contents[k]) { NextSlot(was, k); }
    }
  }

  /** One bit for each priority, in four words. */
  class PriorityBitmap {
    const bits: array<nat>

    ghost predicate Valid()
      reads this, bits
    {
      bits.Length == 4 && forall i :: 0 <= i < 4 ==> bits[i] < Bits.Pow2(64)
    }

    ghost predicate Has(p: Priority)
      requires Valid()
      reads this, bits
    {
      Bits.Bit(bits[p / 64], p % 64)
    }

    constructor ()
      ensures Valid() && fresh(bits) && forall p: Priority :: !Has(p)
    {
      bits := new nat[4](_ => 0);
      new;
      forall p: Priority ensures !Has(p) { Bits.ZeroBit(p % 64); }
    }

    method Set(p: Priority)
      requires Valid()
      modifies bits
      ensures Valid() && forall q: Priority :: Has(q) <==> q == p || old(Has(q))
    {
      var word, bit := p / 64, p % 64;
      Bits.SetBit(bits[word], bit, 64);
      bits[word] := Bits.Or(bits[word], Bits.Pow2(bit));
    }

    method Clear(p: Priority)
      requires Valid()
      modifies bits
      ensures Valid() && forall q: Priority :: Has(q) <==> q != p && old(Has(q))
    {
      var word, bit := p / 64, p % 64;
      Bits.ClearBit(bits[word], bit, 64);
      bits[word] := Bits.And(bits[word], Bits.Not(64, Bits.Pow2(bit)));
    }

    lemma LowestOfWord(i: nat)
      requires Valid() && i < 4 && bits[i] != 0
      ensures var bit := Bits.TrailingZeros(bits[i]);
              bit < 64 && Bits.Bit(bits[i], bit) && forall p: Priority :: 64 * i <= p < 64 * i + bit ==> !Has(p)
    {
      Bits.TrailingZerosSpec(bits[i]);
      var bit := Bits.TrailingZeros(bits[i]);
      if bit >= 64 { Bits.HighBitClear(bits[i], 64, bit); }
      forall p: Priority | 64 * i <= p < 64 * i + bit ensures !Has(p) { assert p / 64 == i && p % 64 < bit; }
    }

    lemma EmptyWord(i: nat)
      requires Valid() && i < 4 && bits[i] == 0
      ensures forall p: Priority :: 64 * i <= p < 64 * (i + 1) ==> !Has(p)
    {
      forall p: Priority | 64 * i <= p < 64 * (i + 1) ensures !Has(p) { Bits.ZeroBit(p % 64); }
    }

    method FindHighest() returns (r: Option<Priority>)
      requires Valid()
      ensures r.None? ==> forall p: Priority :: !Has(p)
      ensures r.Some? ==> Has(r.value) && forall p: Priority :: p < r.value ==> !Has(p)
    {
      for i := 0 to 4
        invariant forall p: Priority :: p < 64 * i ==> !Has(p)
      {
        var word := bits[i];
        if word != 0 {
          LowestOfWord(i);
          return Some(i * 64 + Bits.TrailingZeros(word));
        }
        EmptyWord(i);
      }
      return None;
    }
  }

  method NewQueues() returns (qs: seq<RunQueue>)
    ensures |qs| == PRIORITIES && forall k, m :: 0 <= k < m < |qs| ==> qs[k] != qs[m] && qs[k].tasks != qs[m].tasks
    ensures forall k :: 0 <= k < |qs| ==> fresh(qs[k]) && fresh(qs[k].tasks) && qs[k].Valid() && qs[k].contents == []
  {
    qs := [];
    for i := 0 to PRIORITIES
      invariant |qs| == i
      invariant forall k :: 0 <= k < i ==> fresh(qs[k]) && fresh(qs[k].tasks) && qs[k].Valid() && qs[k].contents == []
      invariant forall k, m :: 0 <= k < m < i ==> qs[k] != qs[m] && qs[k].tasks != qs[m].tasks
    {
      var q := new RunQueue();
      qs := qs + [q];
    }
  }

  class Scheduler {
    const runQueues: seq<RunQueue>
    const bitmap: PriorityBitmap
    var current: Option<Task>
    var currentPriority: Option<Priority>
    var slice: nat
    var needResched: bool
    var ready: nat
    var running: nat
    var blocked: nat
    var switches: nat
    ghost var queued: Queues

    ghost function Repr(): set<object> {
      {this, bitmap, bitmap.bits} + (set i | 0 <= i < |runQueues| :: runQueues[i]) + (set i | 0 <= i < |runQueues| :: runQueues[i].tasks)
    }

    ghost predicate Apart() {
      && |runQueues| == PRIORITIES
      && forall i, j :: 0 <= i < j < PRIORITIES ==> runQueues[i] != runQueues[j] && runQueues[i].tasks != runQueues[j].tasks
    }

    ghost predicate QueuesValid()
      reads Repr()
    {
      |queued| == |runQueues| && forall p :: 0 <= p < |runQueues| ==> runQueues[p].Valid() && runQueues[p].contents == queued[p]
    }

    // The bitmap and the queues agree.
    ghost predicate Valid()
      reads Repr()
    {
      && Apart() && QueuesValid() && bitmap.Valid()
      && forall p: Priority :: bitmap.Has(p) <==> queued[p] != []
    }

    ghost function Model(): State
      reads this
    {
      State(queued, current, currentPriority, slice, needResched, ready, running, blocked, switches)
    }

    constructor ()
      ensures Valid() && fresh(Repr()) && Model() == New()
    {
      var qs := NewQueues();
      runQueues := qs;
      bitmap := new PriorityBitmap();
      current, currentPriority, slice, needResched := None, None, DEFAULT_QUANTUM, false;
      ready, running, blocked, switches := 0, 0, 0, 0;
      queued := EmptyQueues();
    }

    method Enqueue(t: Task, p: Priority) returns (ok: bool)
      requires Valid()
      modifies Repr()
      ensures Valid() && Model() == SchedulerState.Enqueue(old(Model()), t, p) && (ok <==> HasRoom(old(Model()), p))
    {
      ok := PutInto(t, p);
      if ok { ready := ready + 1; }
    }

    // Pushes a task and sets the queue's bit.
    method PutInto(t: Task, p: Priority) returns (ok: bool)
      requires Valid()
      modifies Repr()
      ensures Valid() && (ok <==> HasRoom(old(Model()), p))
      ensures Model() == if ok then old(Model()).(queues := old(queued)[p := old(queued[p]) + [t]]) else old(Model())
    {
      ok := runQueues[p].Push(t);
      if !ok { return; }
      queued := queued[p := queued[p] + [t]];
      bitmap.Set(p);
    }

    // Counts a tick; true when the scheduler should be asked.
    method Tick() returns (due: bool)
      requires Valid()
      modifies this
      ensures Valid() && Model() == SchedulerState.Tick(old(Model())) && (due <==> current.Some? && needResched)
    {
      if current.None? { return false; }
      if slice > 0 { slice := slice - 1; }
      if slice == 0 { needResched := true; }
      return needResched;
    }

    // The first half of scheduling: an expired current task goes back.
    method Requeue()
      requires Valid()
      modifies Repr()
      ensures Valid() && Model() == SchedulerState.Requeue(old(Model()))
    {
      if current.Some? && currentPriority.Some? && slice == 0 {
        var _ := Enqueue(current.value, currentPriority.value);
        current := None;
        currentPriority := None;
        running := Decrement(running);
      }
    }

    // The second half: the oldest task of the lowest priority number.
    method Dispatch() returns (t: Option<Task>)
      requires Valid()
      modifies Repr()
      ensures Valid() && Model() == SchedulerState.Dispatch(old(Model())) && t == Picked(old(Model()))
    {
      var p := bitmap.FindHighest();
      LowestIsHighest(p);
      if p.None? { return None; }
      t := TakeFrom(p.value);
      Charge(p.value);
    }

    // One task fewer waits, one more runs, and it gets a slice.
    method Charge(p: Priority)
      requires Valid()
      modifies this
      ensures Valid() && Model() == old(Model()).(ready := Decrement(old(ready)), running := old(running) + 1, slice := Quantum(p))
    {
      ready := Decrement(ready);
      running := running + 1;
      slice := Quantum(p);
    }

    // Pops a task and clears the queue's bit when that empties it.
    method TakeFrom(p: Priority) returns (t: Option<Task>)
      requires Valid() && queued[p] != []
      modifies Repr()
      ensures Valid() && t == Some(old(queued[p][0]))
      ensures Model() == old(Model()).(queues := old(queued)[p := old(queued[p])[1..]])
    {
      t := runQueues[p].Pop();
      queued := queued[p := queued[p][1..]];
      if runQueues[p].count == 0 { bitmap.Clear(p); }
    }

    lemma LowestIsHighest(p: Option<Priority>)
      requires Valid()
      requires p.None? ==> forall q: Priority :: !bitmap.Has(q)
      requires p.Some? ==> bitmap.Has(p.value) && forall q: Priority :: q < p.value ==> !bitmap.Has(q)
      ensures Lowest(queued, 0) == match p case None => None case Some(q) => Some(q as nat)
    {
      var r := Lowest(queued, 0);
      if r.Some? {
        var q: Priority := r.value;
        assert bitmap.Has(q);
      }
    }

    method Schedule() returns (t: Option<Task>)
      requires Valid()
      modifies Repr()
      ensures Valid() && Model() == SchedulerState.Schedule(old(Model())) && t == Selected(old(Model()))
    {
      needResched := false;
      Requeue();
      t := Dispatch();
    }

    method Yield(t: Task, p: Priority) returns (ok: bool)
      requires Valid()
      modifies Repr()
      ensures Valid() && Model() == SchedulerState.Yield(old(Model()), t, p) && (ok <==> HasRoom(old(Model()), p))
    {
      if current == Some(t) {
        current := None;
        running := Decrement(running);
      }
      ok := Enqueue(t, p);
    }

    method Block(t: Task) returns (ok: bool)
      requires Valid()
      modifies this
      ensures Valid() && Model() == SchedulerState.Block(old(Model()), t) && (ok <==> old(current) == Some(t))
    {
      if current != Some(t) { return false; }
      current := None;
      running := Decrement(running);
      blocked := blocked + 1;
      return true;
    }

    method Wake(t: Task, p: Priority) returns (ok: bool)
      requires Valid()
      modifies Repr()
      ensures Valid() && Model() == SchedulerState.Wake(old(Model()), t, p) && (ok <==> HasRoom(old(Model()), p))
    {
      blocked := Decrement(blocked);
      ok := Enqueue(t, p);
    }

    method SetCurrent(t: Task)
      requires Valid()
      modifies this
      ensures Valid() && Model() == SchedulerState.SetCurrent(old(Model()), t)
    {
      current := Some(t);
      switches := switches + 1;
    }

    method SetCurrentWithPriority(t: Task, p: Priority)
      requires Valid()
      modifies this
      ensures Valid() && Model() == SchedulerState.SetCurrentWithPriority(old(Model()), t, p)
    {
      current := Some(t);
      currentPriority := Some(p);
      switches := switches + 1;
    }
  }
}
