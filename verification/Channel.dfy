/** The asynchronous channel: every atomic operation and every locked section is one step. */
module Channel {
  type Thread = nat
  type Message = int

  const CHANNEL_CAPACITY: nat := 64

  datatype SendError = Closed | Full

  datatype Pc =
    | Idle
    | Sending(msg: Message)      // about to look at the closed flag
    | Pushing(msg: Message)      // about to push
    | Draining                   // has pushed, or has closed, and is about to wake everyone
    | Failed(error: SendError)   // send has returned an error
    | Closing                    // about to set the flag
    | Polling                    // a future's first try
    | Checking                   // about to look at the closed flag
    | Registering                // about to leave its waker
    | Retrying                   // about to try again
    | Pending                    // poll has returned Pending
    | Got(msg: Message)          // poll has returned a message
    | GotClosed                  // poll has returned that the channel is closed

  // sent and received are the whole history; woken holds the tasks woken since they last polled.
  datatype State = State(
    queue: seq<Message>, wakers: seq<Thread>, closed: bool, woken: set<Thread>,
    pcs: map<Thread, Pc>, sent: seq<Message>, received: seq<Message>)

  datatype Action =
    | StartSend(t: Thread, msg: Message)
    | StartClose(t: Thread)
    | StartPoll(t: Thread)       // at first, when woken, or for no reason at all
    | TryRecv(t: Thread)         // outside of any future
    | Advance(t: Thread)

  const INIT: State := State([], [], false, {}, map[], [], [])

  function At(pcs: map<Thread, Pc>, t: Thread): Pc {
    if t in pcs then pcs[t] else Idle
  }

  function To(s: State, t: Thread, pc: Pc): State {
    s.(pcs := s.pcs[t := pc])
  }

  // A thread that is inside none of the operations.
  predicate Resting(pc: Pc) {
    pc.Idle? || pc.Failed? || pc.Pending? || pc.Got? || pc.GotClosed?
  }

  function Pop(s: State): State
    requires s.queue != []
  {
    s.(queue := s.queue[1..], received := s.received + [s.queue[0]])
  }

  function WakeAll(s: State): State {
    s.(wakers := [], woken := s.woken + (set t | t in s.wakers))
  }

  // An action that the thread is not ready for changes nothing.
  function Step(s: State, a: Action): State {
    match a
    case StartSend(t, msg) => if Resting(At(s.pcs, t)) then To(s, t, Sending(msg)) else s
    case StartClose(t) => if Resting(At(s.pcs, t)) then To(s, t, Closing) else s
    case StartPoll(t) => if Resting(At(s.pcs, t)) then To(s, t, Polling).(woken := s.woken - {t}) else s
    case TryRecv(t) => if Resting(At(s.pcs, t)) && s.queue != [] then To(Pop(s), t, Got(s.queue[0])) else s
    case Advance(t) =>
      match At(s.pcs, t)
      case Sending(msg) => To(s, t, if s.closed then Failed(Closed) else Pushing(msg))
      case Pushing(msg) =>
        if |s.queue| >= CHANNEL_CAPACITY then To(s, t, Failed(Full))
        else To(s, t, Draining).(queue := s.queue + [msg], sent := s.sent + [msg])
      case Draining => To(WakeAll(s), t, Idle)
      case Closing => To(s, t, Draining).(closed := true)
      case Polling => if s.queue != [] then To(Pop(s), t, Got(s.queue[0])) else To(s, t, Checking)
      case Checking => To(s, t, if s.closed then GotClosed else Registering)
      case Registering => To(s, t, Retrying).(wakers := s.wakers + [t])
      case Retrying => if s.queue != [] then To(Pop(s), t, Got(s.queue[0])) else To(s, t, Pending)
      case _ => s
  }

  function Run(s: State, actions: seq<Action>): State
    decreases |actions|
  {
    if actions == [] then s else Step(Run(s, actions[..|actions| - 1]), actions[|actions| - 1])
  }

  // A receiver that has registered and not yet been polled again.
  predicate Registered(pc: Pc) { pc.Retrying? || pc.Pending? }

  // First in, first out: what has been received and what is queued is what has been sent, in that order.
  ghost predicate Fifo(s: State) {
    s.sent == s.received + s.queue && |s.queue| <= CHANNEL_CAPACITY
  }

  ghost predicate SomeoneDrains(pcs: map<Thread, Pc>) {
    exists u: Thread :: At(pcs, u).Draining?
  }

  // A registered receiver has its waker in the list or has been woken.
  ghost predicate Registers(s: State) {
    forall t: Thread :: Registered(At(s.pcs, t)) ==> t in s.wakers || t in s.woken
  }

  predicate ToBeWoken(s: State, t: Thread) {
    At(s.pcs, t).Pending? && t in s.wakers && s.queue != []
  }

  // If messages wait while a receiver with its waker in the list does, someone is about to wake it.
  ghost predicate Wakes(s: State) {
    forall t: Thread :: ToBeWoken(s, t) ==> SomeoneDrains(s.pcs)
  }

  lemma StepFifo(s: State, a: Action)
    requires Fifo(s)
    ensures Fifo(Step(s, a))
  {
  }

  lemma StepRegisters(s: State, a: Action)
    requires Registers(s)
    ensures Registers(Step(s, a))
  {
    forall t: Thread | Registered(At(Step(s, a).pcs, t)) ensures t in Step(s, a).wakers || t in Step(s, a).woken {
      StepRegistersOne(s, a, t);
    }
  }

  lemma StepRegistersOne(s: State, a: Action, t: Thread)
    requires Registered(At(s.pcs, t)) ==> t in s.wakers || t in s.woken
    ensures var s' := Step(s, a); Registered(At(s'.pcs, t)) ==> t in s'.wakers || t in s'.woken
  {
    if a.t != t { Elsewhere(s, a, t); }
  }

  // What another thread does leaves a thread where it is, and takes no waker away without waking.
  lemma Elsewhere(s: State, a: Action, t: Thread)
    requires a.t != t
    ensures var s' := Step(s, a);
            At(s'.pcs, t) == At(s.pcs, t) && (t in s.wakers || t in s.woken ==> t in s'.wakers || t in s'.woken)
  {
  }

  lemma StepWakes(s: State, a: Action)
    requires Wakes(s)
    ensures Wakes(Step(s, a))
  {
    forall t: Thread | ToBeWoken(Step(s, a), t) ensures SomeoneDrains(Step(s, a).pcs) {
      StepWakesOne(s, a, t);
    }
  }

  lemma StepWakesOne(s: State, a: Action, t: Thread)
    requires ToBeWoken(s, t) ==> SomeoneDrains(s.pcs)
    requires ToBeWoken(Step(s, a), t)
    ensures SomeoneDrains(Step(s, a).pcs)
  {
    var s' := Step(s, a);
    if ToBeWoken(s, t) {
      var u: Thread :| At(s.pcs, u).Draining?;
      assert At(s'.pcs, u).Draining?;
    } else {
      assert At(s'.pcs, a.t).Draining?;
    }
  }

  lemma {:induction false} RunKeeps(actions: seq<Action>)
    ensures Fifo(Run(INIT, actions)) && Registers(Run(INIT, actions)) && Wakes(Run(INIT, actions))
    decreases |actions|
  {
    if actions != [] {
      var before := Run(INIT, actions[..|actions| - 1]);
      RunKeeps(actions[..|actions| - 1]);
      StepFifo(before, actions[|actions| - 1]);
      StepRegisters(before, actions[|actions| - 1]);
      StepWakes(before, actions[|actions| - 1]);
    }
  }

  // No message wake-up is lost: a receiver that waits unwoken has its waker in the list, and if a message
  // is there, a thread stands between its push and its drain.
  lemma NoLostWakeup(actions: seq<Action>, t: Thread)
    ensures var s := Run(INIT, actions);
            At(s.pcs, t).Pending? && t !in s.woken ==>
              t in s.wakers && (s.queue == [] || SomeoneDrains(s.pcs))
  {
    RunKeeps(actions);
    assert ToBeWoken(Run(INIT, actions), t) ==> SomeoneDrains(Run(INIT, actions).pcs);
  }

  // That drain then wakes every receiver that waits.
  lemma DrainWakesAll(actions: seq<Action>, t: Thread, u: Thread)
    requires At(Run(INIT, actions).pcs, u).Draining? && At(Run(INIT, actions).pcs, t).Pending?
    ensures t in Run(INIT, actions + [Advance(u)]).woken
  {
    RunKeeps(actions);
    RunOne(INIT, actions, Advance(u));
  }

  // Messages come out in the order they went in, each once, and never more than 64 wait.
  lemma ReceivedIsPrefix(actions: seq<Action>)
    ensures var s := Run(INIT, actions);
            s.received <= s.sent && s.sent[|s.received|..] == s.queue && |s.sent| - |s.received| <= CHANNEL_CAPACITY
  {
    RunKeeps(actions);
  }

  lemma RunOne(s: State, before: seq<Action>, a: Action)
    ensures Run(s, before + [a]) == Step(Run(s, before), a)
  {
    assert (before + [a])[..|before|] == before;
  }

  // ----- what the operations answer -----

  // Only the other threads act.
  predicate Others(t: Thread, actions: seq<Action>) {
    forall i :: 0 <= i < |actions| ==> actions[i].t != t
  }

  lemma {:induction false} OthersRun(s: State, t: Thread, actions: seq<Action>)
    requires Others(t, actions)
    ensures At(Run(s, actions).pcs, t) == At(s.pcs, t) && (Fifo(s) ==> Fifo(Run(s, actions))) && (s.closed ==> Run(s, actions).closed)
    decreases |actions|
  {
    if actions != [] {
      var before := Run(s, actions[..|actions| - 1]);
      OthersRun(s, t, actions[..|actions| - 1]);
      Elsewhere(before, actions[|actions| - 1], t);
      CloseSpec(before, actions[|actions| - 1]);
      if Fifo(s) { StepFifo(before, actions[|actions| - 1]); }
    }
  }

  // A channel is closed by the store of a close and by nothing else, and never opens again.
  lemma CloseSpec(s: State, a: Action)
    ensures Step(s, a).closed <==> s.closed || (a.Advance? && At(s.pcs, a.t).Closing?)
  {
  }

  // A send, whatever the other threads do before each of its steps: it fails with Closed exactly if the channel was
  // closed when it looked, and else with Full exactly if 64 messages waited when it came to push; a send that fails
  // leaves queue and history alone, and one that does not has put exactly its message at their ends.
  lemma SendAnswers(before: seq<Action>, m1: seq<Action>, m2: seq<Action>, m3: seq<Action>, t: Thread, msg: Message)
    requires Resting(At(Run(INIT, before).pcs, t)) && Others(t, m1) && Others(t, m2) && Others(t, m3)
    ensures var look := Run(Step(Run(INIT, before), StartSend(t, msg)), m1);
            var looked := Step(look, Advance(t));
            var push := Run(looked, m2);
            var pushed := Step(push, Advance(t));
            var drain := Run(pushed, m3);
            var end := Step(drain, Advance(t));
            && looked.queue == look.queue && looked.sent == look.sent
            && (At(push.pcs, t) == Failed(Closed) <==> look.closed)
            && (At(pushed.pcs, t) == Failed(Full) <==> !look.closed && |push.queue| == 64)
            && (look.closed || |push.queue| == 64 ==> pushed.queue == push.queue && pushed.sent == push.sent)
            && (!look.closed && |push.queue| < 64 ==>
                  && pushed.queue == push.queue + [msg] && pushed.sent == push.sent + [msg]
                  && At(end.pcs, t) == Idle && end.queue == drain.queue && end.sent == drain.sent)
  {
    RunKeeps(before);
    var s0 := Run(INIT, before);
    var s1 := Step(s0, StartSend(t, msg));
    StepFifo(s0, StartSend(t, msg));
    OthersRun(s1, t, m1);
    var look := Run(s1, m1);
    assert At(look.pcs, t) == Sending(msg);
    var looked := Step(look, Advance(t));
    StepFifo(look, Advance(t));
    OthersRun(looked, t, m2);
    var push := Run(looked, m2);
    Pushes(push, t, msg);
    OthersRun(Step(push, Advance(t)), t, m3);
  }

  lemma Pushes(s: State, t: Thread, msg: Message)
    requires Fifo(s) && (At(s.pcs, t) == Pushing(msg) || At(s.pcs, t) == Failed(Closed))
    ensures var s' := Step(s, Advance(t));
            if At(s.pcs, t).Failed? then s' == s
            else if |s.queue| == 64 then s' == To(s, t, Failed(Full))
            else s'.queue == s.queue + [msg] && s'.sent == s.sent + [msg] && At(s'.pcs, t) == Draining
  {
  }

  // A message taken: the oldest that waits, and no other.
  predicate TakesOldest(s: State, s': State, t: Thread) {
    && s.queue != [] && At(s'.pcs, t) == Got(s.queue[0])
    && s'.queue == s.queue[1..] && s'.received == s.received + [s.queue[0]]
  }

  lemma FirstTry(s: State, t: Thread)
    requires At(s.pcs, t) == Polling
    ensures if s.queue != [] then TakesOldest(s, Step(s, Advance(t)), t) else At(Step(s, Advance(t)).pcs, t) == Checking
  {
  }

  lemma Looks(s: State, t: Thread)
    requires At(s.pcs, t) == Checking
    ensures var s' := Step(s, Advance(t));
            At(s'.pcs, t) == (if s.closed then GotClosed else Registering) && s'.received == s.received && s'.queue == s.queue
  {
  }

  lemma Leaves(s: State, t: Thread)
    requires At(s.pcs, t) == Registering
    ensures At(Step(s, Advance(t)).pcs, t) == Retrying && Step(s, Advance(t)).wakers == s.wakers + [t]
  {
  }

  lemma SecondTry(s: State, t: Thread)
    requires At(s.pcs, t) == Retrying
    ensures var s' := Step(s, Advance(t));
            if s.queue != [] then TakesOldest(s, s', t)
            else At(s'.pcs, t) == Pending && s'.received == s.received && s'.queue == []
  {
  }

  // A poll, whatever the other threads do before each of its steps: it returns the oldest message if one waits at
  // its first try; else that the channel is closed if it is when it looks; else it leaves its waker, and returns the
  // oldest message if one waits at its second try; and else Pending.
  lemma PollAnswers(before: seq<Action>, m1: seq<Action>, m2: seq<Action>, m3: seq<Action>, m4: seq<Action>, t: Thread)
    requires Resting(At(Run(INIT, before).pcs, t)) && Others(t, m1) && Others(t, m2) && Others(t, m3) && Others(t, m4)
    ensures var first := Run(Step(Run(INIT, before), StartPoll(t)), m1);
            var tried := Step(first, Advance(t));
            var look := Run(tried, m2);
            var looked := Step(look, Advance(t));
            var leave := Run(looked, m3);
            var left := Step(leave, Advance(t));
            var second := Run(left, m4);
            var end := Step(second, Advance(t));
            if first.queue != [] then TakesOldest(first, tried, t)
            else if look.closed then At(looked.pcs, t) == GotClosed && looked.received == look.received && looked.queue == look.queue
            else
              && left.wakers == leave.wakers + [t]
              && if second.queue != [] then TakesOldest(second, end, t)
                 else At(end.pcs, t) == Pending && end.received == second.received && end.queue == []
  {
    var s1 := Step(Run(INIT, before), StartPoll(t));
    OthersRun(s1, t, m1);
    var first := Run(s1, m1);
    FirstTry(first, t);
    if first.queue == [] {
      var look := Run(Step(first, Advance(t)), m2);
      OthersRun(Step(first, Advance(t)), t, m2);
      Looks(look, t);
      if !look.closed {
        var leave := Run(Step(look, Advance(t)), m3);
        OthersRun(Step(look, Advance(t)), t, m3);
        Leaves(leave, t);
        OthersRun(Step(leave, Advance(t)), t, m4);
        SecondTry(Run(Step(leave, Advance(t)), m4), t);
      }
    }
  }

  // Outside of a future the same try, and nothing happens when nothing waits.
  lemma TryRecvAnswers(s: State, t: Thread)
    requires Resting(At(s.pcs, t))
    ensures if s.queue == [] then Step(s, TryRecv(t)) == s else TakesOldest(s, Step(s, TryRecv(t)), t)
  {
  }

  // What a state must be like for receiver 0 to miss the closing, and what it is like afterwards.
  ghost predicate Exposed(s: State) {
    && !s.closed && s.queue == [] && s.wakers == [] && s.woken == {} && At(s.pcs, 0).Registering?
    && forall u: Thread :: u != 0 ==> At(s.pcs, u).Idle?
  }

  lemma Opening()
    ensures Exposed(Step(Step(Step(INIT, StartPoll(0)), Advance(0)), Advance(0)))
  {
  }

  lemma Shutting(s: State)
    requires Exposed(s)
    ensures var s' := Step(Step(Step(s, StartClose(1)), Advance(1)), Advance(1));
            s'.closed && Exposed(s'.(closed := false))
  {
    var s1 := To(s, 1, Closing);
    var s2 := To(s1, 1, Draining).(closed := true);
    var s3 := To(s2.(woken := {}), 1, Idle);
    assert Step(s, StartClose(1)) == s1 && Step(s1, Advance(1)) == s2;
    assert Step(s2, Advance(1)) == s3 by { assert (set t | t in s.wakers) == {}; }
    forall u: Thread | u != 0 ensures At(s3.pcs, u).Idle? { assert At(s.pcs, u).Idle?; }
  }

  lemma Missing(s: State)
    requires Exposed(s.(closed := false))
    ensures var s' := Step(Step(s, Advance(0)), Advance(0));
            s'.closed == s.closed && At(s'.pcs, 0).Pending? && 0 !in s'.woken && forall u: Thread :: u != 0 ==> At(s'.pcs, u).Idle?
  {
    var s' := Step(Step(s, Advance(0)), Advance(0));
    forall u: Thread | u != 0 ensures At(s'.pcs, u).Idle? { assert At(s.pcs, u).Idle?; }
  }

  lemma RunTwo(s: State, before: seq<Action>, a: Action, b: Action)
    ensures Run(s, before + [a, b]) == Step(Step(Run(s, before), a), b)
  {
    assert before + [a, b] == before + [a] + [b];
    RunOne(s, before + [a], b);
    RunOne(s, before, a);
  }

  // Word of closing can be lost: a receiver that has looked at the flag before and leaves its waker after
  // the drain of close waits on a closed channel, and nobody is left to wake it.
  lemma CloseCanBeMissed() returns (actions: seq<Action>)
    ensures var s := Run(INIT, actions);
            && s.closed && At(s.pcs, 0).Pending? && 0 !in s.woken
            && forall u: Thread :: u != 0 ==> At(s.pcs, u).Idle?
  {
    var a, b := [StartPoll(0), Advance(0)], [Advance(0), StartClose(1)];
    var c, d := [Advance(1), Advance(1)], [Advance(0), Advance(0)];
    actions := [] + a + b + c + d;
    RunTwo(INIT, [], StartPoll(0), Advance(0));
    RunTwo(INIT, [] + a, Advance(0), StartClose(1));
    RunTwo(INIT, [] + a + b, Advance(1), Advance(1));
    RunTwo(INIT, [] + a + b + c, Advance(0), Advance(0));
    var open := Step(Step(Step(INIT, StartPoll(0)), Advance(0)), Advance(0));
    Opening();
    Shutting(open);
    Missing(Step(Step(Step(open, StartClose(1)), Advance(1)), Advance(1)));
  }

  // A receiver that waits and that nothing has woken.
  predicate Waits(s: State, t: Thread) {
    At(s.pcs, t).Pending? && t !in s.woken
  }

  // Past its look at the flag, its waker not left, and none there from before.
  predicate Between(s: State, t: Thread) {
    At(s.pcs, t).Registering? && t !in s.wakers && t !in s.woken
  }

  // Closed, and the receiver, if it is past its look at the flag, woken.
  predicate Told(s: State, t: Thread) {
    s.closed && (At(s.pcs, t).Registering? || Registered(At(s.pcs, t)) ==> t in s.woken)
  }

  lemma {:induction false} ToldStays(s: State, t: Thread, more: seq<Action>)
    requires Told(s, t)
    ensures Told(Run(s, more), t)
    decreases |more|
  {
    if more != [] {
      ToldStays(s, t, more[..|more| - 1]);
      StepTold(Run(s, more[..|more| - 1]), t, more[|more| - 1]);
    }
  }

  lemma StepTold(s: State, t: Thread, a: Action)
    requires Told(s, t)
    ensures Told(Step(s, a), t)
  {
  }

  // Takes what is queued, one message after the other.
  function Takes(u: Thread, n: nat): seq<Action> {
    if n == 0 then [] else Takes(u, n - 1) + [TryRecv(u)]
  }

  // n messages have gone to thread u and nothing else has happened.
  predicate HasTaken(s: State, s': State, u: Thread, t: Thread, n: nat) {
    && n <= |s.queue| && s'.queue == s.queue[n..] && s'.wakers == s.wakers && s'.woken == s.woken
    && At(s'.pcs, t) == At(s.pcs, t) && Resting(At(s'.pcs, u))
  }

  lemma OneTaken(s: State, s': State, u: Thread, t: Thread, n: nat)
    requires HasTaken(s, s', u, t, n) && n < |s.queue| && u != t
    ensures HasTaken(s, Step(s', TryRecv(u)), u, t, n + 1)
  {
    assert s'.queue[1..] == s.queue[n + 1..];
  }

  lemma {:induction false} Taken(s: State, u: Thread, t: Thread, n: nat)
    requires n <= |s.queue| && Resting(At(s.pcs, u)) && u != t
    ensures HasTaken(s, Run(s, Takes(u, n)), u, t, n)
    decreases n
  {
    if n > 0 {
      Taken(s, u, t, n - 1);
      RunOne(s, Takes(u, n - 1), TryRecv(u));
      OneTaken(s, Run(s, Takes(u, n - 1)), u, t, n - 1);
    }
  }

  // The drain of close reaches a receiver exactly if it does not come between its look at the flag and the leaving
  // of its waker, with no waker from before: then, whatever any thread does afterwards, the receiver never
  // waits unwoken; and otherwise there is a way to go on in which it does.
  lemma CloseMissedIff(actions: seq<Action>, closer: Thread, t: Thread)
    requires var s := Run(INIT, actions); s.closed && At(s.pcs, closer).Draining?
    ensures var s := Run(INIT, actions);
            (exists more: seq<Action> :: Waits(Run(Step(s, Advance(closer)), more), t)) <==> Between(s, t)
  {
    var s := Run(INIT, actions);
    var s0 := Step(s, Advance(closer));
    RunKeeps(actions);
    assert forall u :: u in s.wakers ==> u in s0.woken;
    if Between(s, t) {
      var n := |s0.queue|;
      Taken(s0, closer, t, n);
      RunTwo(s0, Takes(closer, n), Advance(t), Advance(t));
      assert Waits(Run(s0, Takes(closer, n) + [Advance(t), Advance(t)]), t);
    } else {
      forall more: seq<Action> ensures !Waits(Run(s0, more), t) { ToldStays(s0, t, more); }
    }
  }
}
