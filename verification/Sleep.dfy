/** The sleep queue: a sorted array that is a stable queue by deadline. */
module Sleep {
  import opened Errors

  const MAX_SLEEPING: nat := 128

  // tag numbers the accepted entries; the kernel does not store it.
  datatype Entry = Entry(task: nat, wake: nat, tag: nat)

  // ----- on sequences -----

  // The first place whose entry wakes later.
  function Position(q: seq<Entry>, wake: nat): (pos: nat)
    ensures pos <= |q| && (forall i :: 0 <= i < pos ==> q[i].wake <= wake) && (pos < |q| ==> q[pos].wake > wake)
  {
    if q == [] || q[0].wake > wake then 0 else 1 + Position(q[1..], wake)
  }

  function Insert(q: seq<Entry>, e: Entry): seq<Entry> {
    q[..Position(q, e.wake)] + [e] + q[Position(q, e.wake)..]
  }

  // The first place of the task, or the length.
  function Find(q: seq<Entry>, task: nat): (pos: nat)
    ensures pos <= |q| && (forall i :: 0 <= i < pos ==> q[i].task != task) && (pos < |q| ==> q[pos].task == task)
  {
    if q == [] || q[0].task == task then 0 else 1 + Find(q[1..], task)
  }

  // By deadline, and among equal deadlines by age.
  predicate Before(a: Entry, b: Entry) {
    a.wake < b.wake || (a.wake == b.wake && a.tag < b.tag)
  }

  ghost predicate Sorted(q: seq<Entry>) {
    forall i, j :: 0 <= i < j < |q| ==> Before(q[i], q[j])
  }

  // ----- with history -----

  // accepted, in order; woken with the number of the tick; and for each tick how many were accepted before it.
  datatype State = State(q: seq<Entry>, accepted: seq<Entry>, woken: seq<(Entry, nat)>, cancelled: seq<Entry>, ticks: seq<(nat, nat)>)

  const EMPTY: State := State([], [], [], [], [])

  datatype Op = SleepUntil(task: nat, wake: nat) | Tick(now: nat) | Cancel(task: nat)

  function Step(s: State, op: Op): State {
    match op
    case SleepUntil(task, wake) =>
      if |s.q| >= MAX_SLEEPING then s
      else
        var e := Entry(task, wake, |s.accepted|);
        s.(q := Insert(s.q, e), accepted := s.accepted + [e])
    case Tick(now) =>
      var n := Position(s.q, now);
      s.(q := s.q[n..], woken := s.woken + Stamped(s.q[..n], |s.ticks|), ticks := s.ticks + [(|s.accepted|, now)])
    case Cancel(task) =>
      var n := Find(s.q, task);
      if n == |s.q| then s else s.(q := s.q[..n] + s.q[n + 1..], cancelled := s.cancelled + [s.q[n]])
  }

  function Stamped(es: seq<Entry>, tick: nat): (r: seq<(Entry, nat)>)
    ensures |r| == |es| && forall i :: 0 <= i < |r| ==> r[i] == (es[i], tick)
  {
    seq(|es|, i requires 0 <= i < |es| => (es[i], tick))
  }

  function Run(ops: seq<Op>): State {
    if ops == [] then EMPTY else Step(Run(ops[..|ops| - 1]), ops[|ops| - 1])
  }

  function Entries(woken: seq<(Entry, nat)>): (r: seq<Entry>)
    ensures |r| == |woken| && forall i :: 0 <= i < |r| ==> r[i] == woken[i].0
  {
    seq(|woken|, i requires 0 <= i < |woken| => woken[i].0)
  }

  // Tick t comes after e was accepted and at or after its deadline.
  predicate Due(s: State, e: Entry, t: nat)
    requires t < |s.ticks|
  {
    s.ticks[t].0 > e.tag && s.ticks[t].1 >= e.wake
  }

  ghost predicate Numbered(s: State) {
    && (forall i :: 0 <= i < |s.accepted| ==> s.accepted[i].tag == i)
    && (forall t :: 0 <= t < |s.ticks| ==> s.ticks[t].0 <= |s.accepted|)
  }

  ghost predicate InOrder(s: State) {
    Sorted(s.q) && |s.q| <= MAX_SLEEPING && forall i :: 0 <= i < |s.q| ==> s.q[i].tag < |s.accepted|
  }

  // Every accepted entry is asleep, woken or cancelled, once.
  ghost predicate AccountedFor(s: State) {
    multiset(s.accepted) == multiset(s.q) + multiset(Entries(s.woken)) + multiset(s.cancelled)
  }

  // No tick has been due for one asleep.
  ghost predicate NoneOverdue(s: State) {
    forall e, t :: e in s.q && 0 <= t < |s.ticks| ==> !Due(s, e, t)
  }

  // Each one woken was woken by the first tick due for it.
  ghost predicate WokenInTime(s: State) {
    forall i :: 0 <= i < |s.woken| ==>
      && s.woken[i].1 < |s.ticks| && Due(s, s.woken[i].0, s.woken[i].1)
      && forall t :: 0 <= t < s.woken[i].1 ==> !Due(s, s.woken[i].0, t)
  }

  // They are returned tick by tick, and by one tick in the order of deadline and age.
  ghost predicate WokenInOrder(s: State) {
    forall i, j :: 0 <= i < j < |s.woken| ==>
      s.woken[i].1 < s.woken[j].1 || (s.woken[i].1 == s.woken[j].1 && Before(s.woken[i].0, s.woken[j].0))
  }

  ghost predicate Inv(s: State) {
    Numbered(s) && InOrder(s) && AccountedFor(s) && NoneOverdue(s) && WokenInTime(s) && WokenInOrder(s)
  }

  // Stable insertion: after all entries of the same deadline.
  lemma {:induction false} InsertSorted(q: seq<Entry>, e: Entry)
    requires Sorted(q) && forall i :: 0 <= i < |q| ==> q[i].tag < e.tag
    ensures Sorted(Insert(q, e))
  {
    var pos := Position(q, e.wake);
    forall i | pos <= i < |q| ensures Before(e, q[i]) {
      if i > pos { assert Before(q[pos], q[i]); }
    }
  }

  lemma InsertAdds(q: seq<Entry>, e: Entry)
    ensures multiset(Insert(q, e)) == multiset(q) + multiset{e}
  {
    Parts(q, Position(q, e.wake));
  }

  lemma Parts(q: seq<Entry>, n: nat)
    requires n <= |q|
    ensures multiset(q) == multiset(q[..n]) + multiset(q[n..])
  {
    assert q == q[..n] + q[n..];
  }

  lemma InsertMembers(q: seq<Entry>, e: Entry)
    ensures forall x :: x in Insert(q, e) ==> x in q || x == e
  {
  }

  lemma SleepKeeps(s: State, task: nat, wake: nat)
    requires Inv(s) && |s.q| < MAX_SLEEPING
    ensures Inv(Step(s, SleepUntil(task, wake)))
  {
    var e := Entry(task, wake, |s.accepted|);
    InsertSorted(s.q, e);
    InsertMembers(s.q, e);
    SleepAccounts(s, e);
    SleepTimes(s, e);
    var s' := Step(s, SleepUntil(task, wake));
    forall i | 0 <= i < |s'.q| ensures s'.q[i].tag < |s'.accepted| { assert s'.q[i] in s'.q; }
  }

  lemma SleepAccounts(s: State, e: Entry)
    requires AccountedFor(s)
    ensures AccountedFor(s.(q := Insert(s.q, e), accepted := s.accepted + [e]))
  {
    InsertAdds(s.q, e);
    assert multiset(s.accepted + [e]) == multiset(s.accepted) + multiset{e};
  }

  lemma SleepTimes(s: State, e: Entry)
    requires Numbered(s) && NoneOverdue(s) && WokenInTime(s) && e.tag == |s.accepted|
    ensures var s' := s.(q := Insert(s.q, e), accepted := s.accepted + [e]); NoneOverdue(s') && WokenInTime(s')
  {
    var s' := s.(q := Insert(s.q, e), accepted := s.accepted + [e]);
    InsertMembers(s.q, e);
    assert forall x, t :: 0 <= t < |s.ticks| ==> Due(s', x, t) == Due(s, x, t);
  }

  // A tick takes the entries that are due, and they stand in front.
  lemma TickKeeps(s: State, now: nat)
    requires Inv(s)
    ensures Inv(Step(s, Tick(now)))
  {
    TickCounts(s, now);
    TickAccounts(s, now);
    TickOverdue(s, now);
    TickInTime(s, now);
    TickInOrder(s, now);
  }

  lemma TickCounts(s: State, now: nat)
    requires Numbered(s) && InOrder(s)
    ensures Numbered(Step(s, Tick(now))) && InOrder(Step(s, Tick(now)))
  {
  }

  lemma TickAccounts(s: State, now: nat)
    requires AccountedFor(s)
    ensures AccountedFor(Step(s, Tick(now)))
  {
    var n := Position(s.q, now);
    Parts(s.q, n);
    assert Entries(Stamped(s.q[..n], |s.ticks|)) == s.q[..n];
    Accounts(s, s.q[..n], s.q[n..], Stamped(s.q[..n], |s.ticks|));
  }

  lemma Accounts(s: State, front: seq<Entry>, back: seq<Entry>, stamped: seq<(Entry, nat)>)
    requires AccountedFor(s) && multiset(s.q) == multiset(front) + multiset(back) && Entries(stamped) == front
    ensures multiset(s.accepted) == multiset(back) + multiset(Entries(s.woken + stamped)) + multiset(s.cancelled)
  {
    assert Entries(s.woken + stamped) == Entries(s.woken) + front;
    assert multiset(Entries(s.woken) + front) == multiset(Entries(s.woken)) + multiset(front);
  }

  lemma TickOverdue(s: State, now: nat)
    requires InOrder(s) && NoneOverdue(s)
    ensures NoneOverdue(Step(s, Tick(now)))
  {
    var s' := Step(s, Tick(now));
    var n := Position(s.q, now);
    forall x, t | x in s'.q && 0 <= t < |s'.ticks| ensures !Due(s', x, t) {
      var i :| n <= i < |s.q| && s.q[i] == x;
      assert i > n ==> Before(s.q[n], s.q[i]);
      assert t < |s.ticks| ==> Due(s', x, t) == Due(s, x, t);
    }
  }

  lemma TickInTime(s: State, now: nat)
    requires InOrder(s) && NoneOverdue(s) && WokenInTime(s)
    ensures WokenInTime(Step(s, Tick(now)))
  {
    var s' := Step(s, Tick(now));
    var m := |s.ticks|;
    forall i | 0 <= i < |s'.woken|
      ensures s'.woken[i].1 < |s'.ticks| && Due(s', s'.woken[i].0, s'.woken[i].1)
      ensures forall t :: 0 <= t < s'.woken[i].1 ==> !Due(s', s'.woken[i].0, t)
    {
      assert forall t :: 0 <= t < m ==> Due(s', s'.woken[i].0, t) == Due(s, s'.woken[i].0, t);
      if i < |s.woken| {
        assert s'.woken[i] == s.woken[i];
      } else {
        assert s'.woken[i] == (s.q[i - |s.woken|], m);
      }
    }
  }

  lemma TickInOrder(s: State, now: nat)
    requires InOrder(s) && WokenInTime(s) && WokenInOrder(s)
    ensures WokenInOrder(Step(s, Tick(now)))
  {
    var s' := Step(s, Tick(now));
    var w := |s.woken|;
    assert forall i :: 0 <= i < w ==> s'.woken[i] == s.woken[i] && s.woken[i].1 < |s.ticks|;
    assert forall i :: w <= i < |s'.woken| ==> s'.woken[i] == (s.q[i - w], |s.ticks|);
  }

  lemma CancelKeeps(s: State, task: nat)
    requires Inv(s)
    ensures Inv(Step(s, Cancel(task)))
  {
    CancelAccounts(s, task);
    CancelOrder(s, task);
    CancelTimes(s, task);
  }

  lemma CancelOrder(s: State, task: nat)
    requires Numbered(s) && InOrder(s)
    ensures Numbered(Step(s, Cancel(task))) && InOrder(Step(s, Cancel(task)))
  {
  }

  lemma CancelTimes(s: State, task: nat)
    requires NoneOverdue(s) && WokenInTime(s) && WokenInOrder(s)
    ensures NoneOverdue(Step(s, Cancel(task))) && WokenInTime(Step(s, Cancel(task))) && WokenInOrder(Step(s, Cancel(task)))
  {
    var s' := Step(s, Cancel(task));
    assert forall x :: x in s'.q ==> x in s.q;
    assert forall x, t :: 0 <= t < |s.ticks| ==> Due(s', x, t) == Due(s, x, t);
  }

  lemma CancelAccounts(s: State, task: nat)
    requires AccountedFor(s)
    ensures AccountedFor(Step(s, Cancel(task)))
  {
    var n := Find(s.q, task);
    if n < |s.q| {
      Parts(s.q, n);
      Parts(s.q[n..], 1);
      assert s.q[n..][1..] == s.q[n + 1..] && s.q[n..][..1] == [s.q[n]];
      assert multiset(s.q[..n] + s.q[n + 1..]) == multiset(s.q[..n]) + multiset(s.q[n + 1..]);
      assert multiset(s.cancelled + [s.q[n]]) == multiset(s.cancelled) + multiset{s.q[n]};
    }
  }

  lemma {:induction false} RunKeeps(ops: seq<Op>)
    ensures Inv(Run(ops))
    decreases |ops|
  {
    if ops != [] {
      var s, op := Run(ops[..|ops| - 1]), ops[|ops| - 1];
      RunKeeps(ops[..|ops| - 1]);
      match op
      case SleepUntil(task, wake) => if |s.q| < MAX_SLEEPING { SleepKeeps(s, task, wake); }
      case Tick(now) => TickKeeps(s, now);
      case Cancel(task) => CancelKeeps(s, task);
    }
  }

  // ----- what each operation does -----

  // Below 128 sleepers one more is taken, with the task and the deadline asked for, and none is lost.
  lemma SleepTakes(s: State, task: nat, wake: nat)
    ensures var (s', e) := (Step(s, SleepUntil(task, wake)), Entry(task, wake, |s.accepted|));
            if |s.q| >= 128 then s' == s
            else
              && s'.accepted == s.accepted + [e] && multiset(s'.q) == multiset(s.q) + multiset{e}
              && s'.woken == s.woken && s'.cancelled == s.cancelled && s'.ticks == s.ticks
  {
    InsertAdds(s.q, Entry(task, wake, |s.accepted|));
  }

  // A tick takes exactly the sleepers whose deadline has come, and the others stay in order.
  lemma TickTakes(s: State, now: nat)
    requires Sorted(s.q)
    ensures var s' := Step(s, Tick(now));
            && s'.ticks == s.ticks + [(|s.accepted|, now)] && s'.accepted == s.accepted && s'.cancelled == s.cancelled
            && s.woken <= s'.woken && s.q == Entries(s'.woken[|s.woken|..]) + s'.q
            && (forall i :: |s.woken| <= i < |s'.woken| ==> s'.woken[i].0.wake <= now && s'.woken[i].1 == |s.ticks|)
            && forall i :: 0 <= i < |s'.q| ==> s'.q[i].wake > now
  {
    var s', n := Step(s, Tick(now)), Position(s.q, now);
    assert s'.woken[|s.woken|..] == Stamped(s.q[..n], |s.ticks|);
    assert Entries(Stamped(s.q[..n], |s.ticks|)) == s.q[..n];
    forall i | 0 <= i < |s'.q| ensures s'.q[i].wake > now { assert i > 0 ==> Before(s.q[n], s.q[n + i]); }
  }

  // Cancelling takes out the first sleeper of that task, the one with the earliest deadline, and no other; without
  // one it does nothing.
  lemma CancelTakes(s: State, task: nat) returns (i: nat)
    ensures var s' := Step(s, Cancel(task));
            if forall k :: 0 <= k < |s.q| ==> s.q[k].task != task then s' == s
            else
              && i < |s.q| && s.q[i].task == task && (forall k :: 0 <= k < i ==> s.q[k].task != task)
              && s'.cancelled == s.cancelled + [s.q[i]] && |s'.q| == |s.q| - 1
              && (forall k :: 0 <= k < i ==> s'.q[k] == s.q[k]) && (forall k :: i <= k < |s'.q| ==> s'.q[k] == s.q[k + 1])
              && s'.accepted == s.accepted && s'.woken == s.woken && s'.ticks == s.ticks
  {
    i := Find(s.q, task);
  }

  lemma {:induction false} OneEach(accepted: seq<Entry>, k: nat)
    requires k < |accepted| && forall i :: 0 <= i < |accepted| ==> accepted[i].tag == i
    ensures multiset(accepted)[accepted[k]] == 1
  {
    var e := accepted[k];
    assert accepted == accepted[..k] + [e] + accepted[k + 1..];
    assert e !in accepted[..k] && e !in accepted[k + 1..];
  }

  // In every run, each accepted entry is asleep, returned or cancelled, exactly one of these and once. One that
  // is asleep has seen no tick at or past its deadline, and one that was returned was returned by the first.
  lemma EachWokenOnce(ops: seq<Op>, k: nat)
    requires k < |Run(ops).accepted|
    ensures var s := Run(ops);
            var e := s.accepted[k];
            && e.tag == k
            && multiset(s.q)[e] + multiset(Entries(s.woken))[e] + multiset(s.cancelled)[e] == 1
            && (e in s.q ==> forall t :: 0 <= t < |s.ticks| ==> !Due(s, e, t))
            && (forall i :: 0 <= i < |s.woken| && s.woken[i].0 == e ==>
                  s.woken[i].1 < |s.ticks| && Due(s, e, s.woken[i].1) && forall t :: 0 <= t < s.woken[i].1 ==> !Due(s, e, t))
  {
    RunKeeps(ops);
    OneEach(Run(ops).accepted, k);
  }

  // ----- in place -----

  datatype SleepEntry = SleepEntry(taskId: nat, wakeupTick: nat)

  function Stored(e: Entry): Option<SleepEntry> {
    Some(SleepEntry(e.task, e.wake))
  }

  class SleepQueue {
    const entries: array<Option<SleepEntry>>
    var count: nat
    ghost var state: State

    // At the front, in order, and empty behind.
    ghost predicate Packed(q: seq<Entry>)
      reads this, entries
    {
      entries.Length == MAX_SLEEPING && count == |q| && Holds(entries[..], q)
    }

    ghost predicate Valid()
      reads this, entries
    {
      Packed(state.q) && Inv(state)
    }

    constructor ()
      ensures Valid() && fresh(entries) && state == EMPTY
    {
      entries := new Option<SleepEntry>[MAX_SLEEPING](_ => None);
      count := 0;
      state := EMPTY;
      new;
      RunKeeps([]);
    }

    // The entries hold the queue of the next state already.
    ghost method Become(next: State)
      requires Packed(next.q) && Inv(next)
      modifies `state
      ensures Valid() && state == next
    {
      state := next;
    }

    method SleepUntil(task: nat, wake: nat) returns (ok: bool)
      requires Valid()
      modifies this, entries
      ensures Valid() && state == Step(old(state), Op.SleepUntil(task, wake)) && (ok <==> |old(state).q| < MAX_SLEEPING)
    {
      if count >= MAX_SLEEPING { return false; }
      ghost var q := state.q;
      var pos := count;
      for i := 0 to count
        invariant pos == count < MAX_SLEEPING && forall k :: 0 <= k < i ==> q[k].wake <= wake
      {
        if entries[i].value.wakeupTick > wake {
          pos := i;
          break;
        }
      }
      PositionIs(q, wake, pos);
      InsertAt(q, pos, task, wake, |state.accepted|);
      SleepKeeps(state, task, wake);
      Become(Step(state, Op.SleepUntil(task, wake)));
      return true;
    }

    // Shifts the entries from pos on to the right and puts the new one there.
    method InsertAt(ghost q: seq<Entry>, pos: nat, task: nat, wake: nat, ghost tag: nat)
      requires Packed(q) && count < MAX_SLEEPING && pos == Position(q, wake)
      modifies `count, entries
      ensures Packed(Insert(q, Entry(task, wake, tag)))
    {
      ghost var before := entries[..];
      ShiftRight(pos);
      entries[pos] := Some(SleepEntry(task, wake));
      count := count + 1;
      InsertHolds(before, entries[..], q, Entry(task, wake, tag), pos);
    }

    // The entries from pos on, each one place further.
    method ShiftRight(pos: nat)
      requires entries.Length == MAX_SLEEPING && pos <= count < MAX_SLEEPING
      modifies entries
      ensures forall k :: pos <= k < count ==> entries[k + 1] == old(entries[k])
      ensures forall k :: (0 <= k < pos || count < k < MAX_SLEEPING) ==> entries[k] == old(entries[k])
    {
      var i := count;
      while i > pos
        invariant pos <= i <= count
        invariant forall k :: 0 <= k < MAX_SLEEPING && !(i < k <= count) ==> entries[k] == old(entries[k])
        invariant forall k :: i <= k < count ==> entries[k + 1] == old(entries[k])
      {
        i := i - 1;
        entries[i + 1] := entries[i];
      }
    }

    // The tasks that are due, in the order of deadline and age.
    method Tick(now: nat) returns (woken: seq<nat>)
      requires Valid()
      modifies this, entries
      ensures Valid() && state == Step(old(state), Op.Tick(now))
      ensures var n := Position(old(state).q, now);
              |woken| == n && forall i :: 0 <= i < n ==> woken[i] == old(state).q[i].task
    {
      ghost var q := state.q;
      woken := CollectDue(q, now);
      TickKeeps(state, now);
      if |woken| > 0 { DropFront(q, |woken|); }
      assert |woken| == 0 ==> q[0..] == q;
      Become(Step(state, Op.Tick(now)));
    }

    // The tasks at the front that are due.
    method CollectDue(ghost q: seq<Entry>, now: nat) returns (woken: seq<nat>)
      requires Packed(q)
      ensures |woken| == Position(q, now) && forall i :: 0 <= i < |woken| ==> woken[i] == q[i].task
    {
      woken := [];
      for i := 0 to count
        invariant |woken| == i
        invariant forall k :: 0 <= k < i ==> q[k].wake <= now && woken[k] == q[k].task
      {
        if entries[i].value.wakeupTick > now { break; }
        woken := woken + [entries[i].value.taskId];
      }
      PositionIs(q, now, |woken|);
    }

    // Shifts what is left to the front and empties the rest.
    method DropFront(ghost q: seq<Entry>, n: nat)
      requires Packed(q) && n <= count
      modifies `count, entries
      ensures Packed(q[n..])
    {
      ghost var before := entries[..];
      for i := 0 to count - n
        invariant count == old(count)
        invariant forall k :: 0 <= k < i ==> entries[k] == before[k + n]
        invariant forall k :: i <= k < MAX_SLEEPING ==> entries[k] == before[k]
      {
        entries[i] := entries[i + n];
      }
      for i := count - n to count
        invariant count == old(count)
        invariant forall k :: 0 <= k < count - n ==> entries[k] == before[k + n]
        invariant forall k :: count - n <= k < i ==> entries[k] == None
        invariant forall k :: i <= k < MAX_SLEEPING ==> entries[k] == before[k]
      {
        entries[i] := None;
      }
      count := count - n;
      DropHolds(before, entries[..], q, n);
    }

    method CancelSleep(task: nat) returns (ok: bool)
      requires Valid()
      modifies this, entries
      ensures Valid() && state == Step(old(state), Cancel(task))
      ensures ok <==> Find(old(state).q, task) < |old(state).q|
    {
      ghost var q := state.q;
      var i := IndexOf(q, task);
      if i == count { return false; }
      CloseGap(q, i);
      CancelKeeps(state, task);
      Become(Step(state, Cancel(task)));
      return true;
    }

    method IndexOf(ghost q: seq<Entry>, task: nat) returns (i: nat)
      requires Packed(q)
      ensures i == Find(q, task)
    {
      i := 0;
      while i < count
        invariant i <= count && forall k :: 0 <= k < i ==> q[k].task != task
      {
        if entries[i].value.taskId == task { break; }
        i := i + 1;
      }
      FindIs(q, task, i);
    }

    method CloseGap(ghost q: seq<Entry>, i: nat)
      requires Packed(q) && i < count
      modifies `count, entries
      ensures Packed(q[..i] + q[i + 1..])
    {
      for j := i to count - 1
        invariant count == old(count)
        invariant forall k :: 0 <= k < i || j <= k < MAX_SLEEPING ==> entries[k] == old(entries[k])
        invariant forall k :: i <= k < j ==> entries[k] == old(entries[k + 1])
      {
        entries[j] := entries[j + 1];
      }
      entries[count - 1] := None;
      count := count - 1;
    }
  }

  ghost predicate Holds(slots: seq<Option<SleepEntry>>, q: seq<Entry>) {
    && |q| <= |slots|
    && forall k :: 0 <= k < |slots| ==> slots[k] == if k < |q| then Stored(q[k]) else None
  }

  // The entries shifted right from pos on, and the new one put there.
  lemma {:induction false} InsertHolds(before: seq<Option<SleepEntry>>, after: seq<Option<SleepEntry>>, q: seq<Entry>, e: Entry, pos: nat)
    requires Holds(before, q) && pos == Position(q, e.wake) && |q| < |before| == |after|
    requires after[pos] == Stored(e) && forall k :: pos <= k < |q| ==> after[k + 1] == before[k]
    requires forall k :: (0 <= k < pos || |q| < k < |after|) ==> after[k] == before[k]
    ensures Holds(after, Insert(q, e))
  {
    var r := Insert(q, e);
    forall k | 0 <= k < |after| ensures after[k] == if k < |r| then Stored(r[k]) else None {
      if pos < k <= |q| {
        assert after[(k - 1) + 1] == before[k - 1];
      }
    }
  }

  // The entries from n on shifted to the front, and the rest emptied.
  lemma DropHolds(before: seq<Option<SleepEntry>>, after: seq<Option<SleepEntry>>, q: seq<Entry>, n: nat)
    requires Holds(before, q) && n <= |q| && |after| == |before|
    requires forall k :: 0 <= k < |q| - n ==> after[k] == before[k + n]
    requires forall k :: |q| - n <= k < |after| ==> after[k] == if k < |q| then None else before[k]
    ensures Holds(after, q[n..])
  {
  }

  lemma FindIs(q: seq<Entry>, task: nat, pos: nat)
    requires pos <= |q| && (forall i :: 0 <= i < pos ==> q[i].task != task) && (pos < |q| ==> q[pos].task == task)
    ensures pos == Find(q, task)
  {
  }

  lemma PositionIs(q: seq<Entry>, wake: nat, pos: nat)
    requires pos <= |q| && (forall i :: 0 <= i < pos ==> q[i].wake <= wake) && (pos < |q| ==> q[pos].wake > wake)
    ensures pos == Position(q, wake)
  {
  }
}
