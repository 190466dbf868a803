/** muduo's EventLoop: other threads push functors on a locked queue and write to an
    eventfd; the loop thread polls, handles events, swaps the queue out and runs it. */
module EventLoops {
  import opened Basics

  type Functor = nat
  type Thread = nat

  /** Where the loop thread is. */
  datatype Phase =
    | NotStarted                       // before loop()
    | Polling
    | Handling(wakeupReadable: bool)   // the events that poll returned
    | Swapping                         // doPendingFunctors, before the swap
    | Running(todo: seq<Functor>)      // ... and after it

  datatype Loop = Loop(phase: Phase,
                       pending: seq<Functor>,   // pendingFunctors_
                       calling: bool,           // callingPendingFunctors_
                       counter: nat,            // of the eventfd
                       queueing: set<Thread>,   // other threads between push and wakeup
                       loopQueueing: bool,      // the loop thread between push and wakeup
                       pushed: seq<Functor>,    // history: every functor ever queued
                       ran: seq<Functor>,       // ... and every functor called from the queue
                       rounds: nat)             // ... and the rounds completed

  datatype Action =
    | Push(t: Thread, f: Functor)      // queueInLoop on another thread, up to the unlock
    | Wakeup(t: Thread)                // ... its write to the eventfd
    | LoopPush(f: Functor)             // queueInLoop on the loop thread
    | LoopWakeup
    | Start                            // loop() is called
    | PollReturns(otherEvent: bool)    // some other channel is active, or the poll timed out
    | HandleWakeup                     // reads the eventfd, which resets it
    | FinishHandling
    | Swap
    | RunNext
    | FinishRound

  function Initial(): Loop {
    Loop(NotStarted, [], false, 0, {}, false, [], [], 0)
  }

  function Step(s: Loop, a: Action): Option<Loop> {
    match a
    case Push(t, f) =>
      if t in s.queueing then None
      else Some(s.(pending := s.pending + [f], pushed := s.pushed + [f], queueing := s.queueing + {t}))
    case Wakeup(t) =>
      if t in s.queueing then Some(s.(counter := s.counter + 1, queueing := s.queueing - {t})) else None
    case LoopPush(f) =>
      if s.loopQueueing || !(s.phase.NotStarted? || s.phase.Handling? || s.phase.Running?) then None
      else Some(s.(pending := s.pending + [f], pushed := s.pushed + [f], loopQueueing := s.calling))
    case LoopWakeup =>
      if s.loopQueueing then Some(s.(counter := s.counter + 1, loopQueueing := false)) else None
    case Start =>
      if s.phase.NotStarted? then Some(s.(phase := Polling)) else None
    case PollReturns(otherEvent) =>
      if s.phase.Polling? && (s.counter > 0 || otherEvent) then Some(s.(phase := Handling(s.counter > 0))) else None
    case HandleWakeup =>
      if s.phase == Handling(true) then Some(s.(phase := Handling(false), counter := 0)) else None
    case FinishHandling =>
      if s.phase == Handling(false) && !s.loopQueueing then Some(s.(phase := Swapping, calling := true)) else None
    case Swap =>
      if s.phase.Swapping? then Some(s.(phase := Running(s.pending), pending := [])) else None
    case RunNext =>
      if s.phase.Running? && s.phase.todo != [] && !s.loopQueueing
      then Some(s.(phase := Running(s.phase.todo[1..]), ran := s.ran + [s.phase.todo[0]])) else None
    case FinishRound =>
      if s.phase == Running([]) && !s.loopQueueing
      then Some(s.(phase := Polling, calling := false, rounds := s.rounds + 1)) else None
  }

  function Run(s: Loop, actions: seq<Action>): Option<Loop>
    decreases |actions|
  {
    if actions == [] then Some(s)
    else
      match Step(s, actions[0])
      case None => None
      case Some(s') => Run(s', actions[1..])
  }

  /** Swapped out, not yet called. */
  function Todo(s: Loop): seq<Functor> {
    if s.phase.Running? then s.phase.todo else []
  }

  /** A write to the eventfd has been made, or some thread is on its way to it. */
  predicate WakeupComing(s: Loop) {
    s.counter > 0 || s.queueing != {} || s.loopQueueing
  }

  /** From the first swap on, whatever is queued has a wakeup on its way, unless the loop
      has yet to swap in this round. */
  predicate NothingStranded(s: Loop) {
    s.pending != [] && (s.phase.Running? || (s.phase.Polling? && s.rounds > 0)) ==> WakeupComing(s)
  }

  ghost predicate Inv(s: Loop) {
    && NothingStranded(s)
    && s.calling == (s.phase.Swapping? || s.phase.Running?)
    && (s.loopQueueing ==> s.phase.Running?)
    && (s.phase.NotStarted? ==> s.rounds == 0)
    && s.pushed == s.ran + Todo(s) + s.pending
  }

  lemma StepKeepsInv(s: Loop, a: Action)
    requires Inv(s) && Step(s, a).Some?
    ensures Inv(Step(s, a).value)
  {
    var s' := Step(s, a).value;
    match a {
      case Push(t, f) => assert s.ran + Todo(s) + (s.pending + [f]) == s.ran + Todo(s) + s.pending + [f]; assert t in s'.queueing;
      case LoopPush(f) => assert s.ran + Todo(s) + (s.pending + [f]) == s.ran + Todo(s) + s.pending + [f];
      case RunNext => assert s.ran + [s.phase.todo[0]] + s.phase.todo[1..] == s.ran + s.phase.todo;
      case _ =>
    }
  }

  lemma {:induction false} RunKeepsInv(s: Loop, actions: seq<Action>)
    requires Inv(s) && Run(s, actions).Some?
    ensures Inv(Run(s, actions).value)
    decreases |actions|
  {
    if actions != [] {
      StepKeepsInv(s, actions[0]);
      RunKeepsInv(Step(s, actions[0]).value, actions[1..]);
    }
  }

  ghost predicate Reachable(s: Loop) {
    exists actions: seq<Action> :: Run(Initial(), actions) == Some(s)
  }

  lemma ReachableInv(s: Loop)
    requires Reachable(s)
    ensures Inv(s)
  {
    var actions: seq<Action> :| Run(Initial(), actions) == Some(s);
    RunKeepsInv(Initial(), actions);
  }

  /** Poll returns at once, or some thread's next step makes it return. */
  ghost predicate SureToEnd(s: Loop) {
    Step(s, PollReturns(false)).Some? || exists t :: t in s.queueing && Step(s, Wakeup(t)).Some?
  }

  lemma SureIffComing(s: Loop)
    requires s.phase.Polling? && !s.loopQueueing
    ensures SureToEnd(s) <==> WakeupComing(s)
  {
    if s.queueing != {} {
      var t :| t in s.queueing;
      assert Step(s, Wakeup(t)).Some?;
    }
  }

  /** No lost wakeup: from the first swap on, work that is queued while functors run or
      while the loop polls has its wakeup, so that a poll is sure to end. */
  lemma NoLostWakeup(s: Loop)
    requires Reachable(s) && s.pending != [] && (s.phase.Running? || (s.phase.Polling? && s.rounds > 0))
    ensures WakeupComing(s) && (s.phase.Polling? ==> SureToEnd(s))
  {
    ReachableInv(s);
    if s.phase.Polling? {
      SureIffComing(s);
    }
  }

  // ---- the first poll ----

  predicate PushedByOthers(actions: seq<Action>) {
    exists k :: 0 <= k < |actions| && actions[k].Push?
  }

  predicate InRound(s: Loop) { s.phase.Handling? || s.phase.Swapping? || s.phase.Running? }

  /** Whoever has left the first poll polls again only in a later round. */
  lemma {:induction false} RoundsGrow(s: Loop, actions: seq<Action>)
    requires Run(s, actions).Some?
    ensures var s' := Run(s, actions).value;
      s'.rounds >= s.rounds && (InRound(s) && s'.phase.Polling? ==> s'.rounds > s.rounds)
    decreases |actions|
  {
    if actions != [] {
      RoundsGrow(Step(s, actions[0]).value, actions[1..]);
    }
  }

  lemma {:induction false} FirstPoll(s: Loop, actions: seq<Action>)
    requires Inv(s) && s.rounds == 0 && !InRound(s) && Run(s, actions).Some?
    requires var s' := Run(s, actions).value; s'.rounds == 0 && s'.phase.Polling?
    ensures WakeupComing(Run(s, actions).value) <==> WakeupComing(s) || PushedByOthers(actions)
    decreases |actions|
  {
    if actions != [] {
      var a, s1, more := actions[0], Step(s, actions[0]).value, actions[1..];
      StepKeepsInv(s, a);
      if InRound(s1) {
        RoundsGrow(s1, more);
      } else {
        FirstPoll(s1, more);
        if PushedByOthers(actions) {
          var k :| 0 <= k < |actions| && actions[k].Push?;
          assert k > 0 ==> more[k - 1].Push?;
          if a.Push? {
            assert a.t in s1.queueing;
          }
        }
        if PushedByOthers(more) {
          var k :| 0 <= k < |more| && more[k].Push?;
          assert actions[k + 1].Push?;
        }
        assert a.Push? ==> actions[0].Push?;
      }
    }
  }

  /** A poll with work queued is sure to end if and only if it is not the first one, or some
      thread other than the loop's own has queued something. */
  lemma PollEndsIff(actions: seq<Action>, s: Loop)
    requires Run(Initial(), actions) == Some(s) && s.phase.Polling? && s.pending != []
    ensures SureToEnd(s) <==> s.rounds > 0 || PushedByOthers(actions)
  {
    RunKeepsInv(Initial(), actions);
    SureIffComing(s);
    if s.rounds == 0 {
      FirstPoll(Initial(), actions);
    }
  }

  function LoopPushes(fs: seq<Functor>): seq<Action> {
    if fs == [] then [] else LoopPushes(fs[..|fs| - 1]) + [LoopPush(fs[|fs| - 1])]
  }

  lemma PushedSnoc(actions: seq<Action>, a: Action)
    ensures PushedByOthers(actions + [a]) <==> PushedByOthers(actions) || a.Push?
  {
    var all := actions + [a];
    assert forall k :: 0 <= k < |actions| ==> all[k] == actions[k];
    assert all[|actions|] == a;
  }

  lemma {:induction false} LoopPushesRun(fs: seq<Functor>)
    ensures Run(Initial(), LoopPushes(fs)) == Some(Initial().(pending := fs, pushed := fs))
    ensures !PushedByOthers(LoopPushes(fs))
  {
    if fs != [] {
      var n := |fs| - 1;
      LoopPushesRun(fs[..n]);
      RunConcat(Initial(), LoopPushes(fs[..n]), [LoopPush(fs[n])]);
      assert fs[..n] + [fs[n]] == fs;
      OneStep(Initial().(pending := fs[..n], pushed := fs[..n]), LoopPush(fs[n]));
      PushedSnoc(LoopPushes(fs[..n]), LoopPush(fs[n]));
    }
  }

  lemma OneStep(s: Loop, a: Action)
    ensures Run(s, [a]) == Step(s, a)
  {
    assert [a][1..] == [];
    if Step(s, a).Some? {
      assert Run(Step(s, a).value, []) == Step(s, a);
    }
  }

  lemma {:induction false} RunConcat(s: Loop, a: seq<Action>, b: seq<Action>)
    requires Run(s, a).Some?
    ensures Run(s, a + b) == Run(Run(s, a).value, b)
    decreases |a|
  {
    if a == [] {
      assert a + b == b;
    } else {
      assert (a + b)[1..] == a[1..] + b && (a + b)[0] == a[0];
      RunConcat(Step(s, a[0]).value, a[1..], b);
    }
  }

  /** The failing family: whatever the loop's own thread queues before loop(), when nobody
      else queues anything, the first poll waits for an event or its timeout. */
  lemma PreLoopPushesAreNotWoken(fs: seq<Functor>)
    requires fs != []
    ensures var s := Initial().(phase := Polling, pending := fs, pushed := fs);
      Reachable(s) && !SureToEnd(s)
  {
    var before, s := LoopPushes(fs), Initial().(phase := Polling, pending := fs, pushed := fs);
    LoopPushesRun(fs);
    RunConcat(Initial(), before, [Start]);
    OneStep(Initial().(pending := fs, pushed := fs), Start);
    assert Run(Initial(), before + [Start]) == Some(s);
    PushedSnoc(before, Start);
    PollEndsIff(before + [Start], s);
  }

  // ---- what runs ----

  // What a run did, read off its list of actions alone.

  /** Every functor that some thread queued, in order. */
  function QueuedBy(actions: seq<Action>): seq<Functor> {
    if actions == [] then []
    else
      var a := actions[|actions| - 1];
      QueuedBy(actions[..|actions| - 1]) + if a.Push? || a.LoopPush? then [a.f] else []
  }

  /** How many functors were called, and how many rounds came to their end. */
  function Calls(actions: seq<Action>): nat {
    if actions == [] then 0
    else Calls(actions[..|actions| - 1]) + if actions[|actions| - 1].RunNext? then 1 else 0
  }

  function Rounds(actions: seq<Action>): nat {
    if actions == [] then 0
    else Rounds(actions[..|actions| - 1]) + if actions[|actions| - 1].FinishRound? then 1 else 0
  }

  /** Writes to the eventfd since it was last read. */
  function Written(actions: seq<Action>): nat {
    if actions == [] then 0
    else
      var a, before := actions[|actions| - 1], actions[..|actions| - 1];
      if a.HandleWakeup? then 0 else Written(before) + if a.Wakeup? || a.LoopWakeup? then 1 else 0
  }

  /** Threads that have pushed and not yet written to the eventfd. */
  function Between(actions: seq<Action>): set<Thread> {
    if actions == [] then {}
    else
      var a, before := actions[|actions| - 1], actions[..|actions| - 1];
      if a.Push? then Between(before) + {a.t} else if a.Wakeup? then Between(before) - {a.t} else Between(before)
  }

  lemma {:induction false} RunLast(s: Loop, actions: seq<Action>)
    requires actions != [] && Run(s, actions).Some?
    ensures var n := |actions| - 1;
      Run(s, actions[..n]).Some? && Step(Run(s, actions[..n]).value, actions[n]) == Run(s, actions)
    decreases |actions|
  {
    hide Step;
    var n := |actions| - 1;
    if n == 0 {
      assert actions == [actions[0]];
      OneStep(s, actions[0]);
    } else {
      RunLast(Step(s, actions[0]).value, actions[1..]);
      assert actions[..n][1..] == actions[1..][..n - 1] && actions[..n][0] == actions[0];
    }
  }

  /** One step records exactly what its action says. */
  lemma HistoryOfStep(s: Loop, a: Action)
    requires Step(s, a).Some?
    ensures var s' := Step(s, a).value;
      && s'.pushed == s.pushed + (if a.Push? || a.LoopPush? then [a.f] else [])
      && |s'.ran| == |s.ran| + (if a.RunNext? then 1 else 0)
      && s'.rounds == s.rounds + (if a.FinishRound? then 1 else 0)
      && s'.counter == (if a.HandleWakeup? then 0 else s.counter + if a.Wakeup? || a.LoopWakeup? then 1 else 0)
      && s'.queueing == (if a.Push? then s.queueing + {a.t} else if a.Wakeup? then s.queueing - {a.t} else s.queueing)
  {
  }

  /** The state records exactly what the actions say: no push, call or wakeup is lost or made
      up, whoever else stands where. */
  lemma {:induction false} HistoryOfRun(actions: seq<Action>, s: Loop)
    requires Run(Initial(), actions) == Some(s)
    ensures s.pushed == QueuedBy(actions) && |s.ran| == Calls(actions) && s.rounds == Rounds(actions)
    ensures s.counter == Written(actions) && s.queueing == Between(actions)
    decreases |actions|
  {
    hide Run, Step;
    if actions == [] {
      RunNothing(Initial());
    } else {
      var n := |actions| - 1;
      RunLast(Initial(), actions);
      var before := Run(Initial(), actions[..n]).value;
      HistoryOfRun(actions[..n], before);
      HistoryOfStep(before, actions[n]);
    }
  }

  /** Nobody keeps a thread from queueing, in any state, except itself. */
  lemma PushIsAlwaysPossible(s: Loop, t: Thread, f: Functor)
    requires t !in s.queueing
    ensures Step(s, Push(t, f)).Some? && Step(s, Push(t, f)).value.pending == s.pending + [f]
  {
  }

  /** The functors called are the first of those that all threads queued, in order and each
      once, and the others are still there. */
  lemma RunsInQueueOrder(actions: seq<Action>, s: Loop)
    requires Run(Initial(), actions) == Some(s)
    ensures s.ran <= QueuedBy(actions) && |s.ran| == Calls(actions)
    ensures QueuedBy(actions)[|s.ran|..] == Todo(s) + s.pending
  {
    HistoryOfRun(actions, s);
    RunKeepsInv(Initial(), actions);
    assert s.pushed == s.ran + (Todo(s) + s.pending);
  }

  /** What is known r rounds later about the first n functors. */
  ghost predicate Drained(s: Loop, n: nat, r: nat) {
    && |s.pushed| >= n && s.rounds >= r
    && (s.rounds == r + 1 && s.phase.Running? ==> |s.ran| + |s.phase.todo| >= n)
    && (s.rounds >= r + 2 ==> |s.ran| >= n)
  }

  lemma {:induction false} RunDrains(s: Loop, n: nat, r: nat, actions: seq<Action>)
    requires Inv(s) && Drained(s, n, r) && Run(s, actions).Some?
    ensures Drained(Run(s, actions).value, n, r)
    decreases |actions|
  {
    if actions != [] {
      var s' := Step(s, actions[0]).value;
      StepKeepsInv(s, actions[0]);
      assert |s.pushed| == |s.ran| + |Todo(s)| + |s.pending|;
      assert Drained(s', n, r);
      RunDrains(s', n, r, actions[1..]);
    }
  }

  /** Whatever any thread has queued by some moment has been called, in order, by the time
      the loop has finished the round it is in and the next. */
  lemma CalledWithinTwoRounds(before: seq<Action>, s: Loop, after: seq<Action>, s': Loop)
    requires Run(Initial(), before) == Some(s) && Run(s, after) == Some(s')
    requires Rounds(before + after) >= Rounds(before) + 2
    ensures QueuedBy(before) <= s'.ran
  {
    hide Run, Step, QueuedBy, Rounds, Calls, Written, Between;
    RunConcat(Initial(), before, after);
    HistoryOfRun(before, s);
    HistoryOfRun(before + after, s');
    RunKeepsInv(Initial(), before);
    RunKeepsInv(s, after);
    RunDrains(s, |s.pushed|, s.rounds, after);
    HistoryGrows(s, after);
    assert s'.pushed == s'.ran + (Todo(s') + s'.pending);
    ShorterPrefix(s.pushed, s'.ran, Todo(s') + s'.pending);
  }

  lemma ShorterPrefix(a: seq<Functor>, b: seq<Functor>, c: seq<Functor>)
    requires a <= b + c && |a| <= |b|
    ensures a <= b
  {
  }

  lemma {:induction false} HistoryGrows(s: Loop, actions: seq<Action>)
    requires Run(s, actions).Some?
    ensures s.pushed <= Run(s, actions).value.pushed
    decreases |actions|
  {
    if actions != [] {
      HistoryGrows(Step(s, actions[0]).value, actions[1..]);
    }
  }

  lemma ReachableRun(s: Loop, actions: seq<Action>)
    requires Reachable(s) && Run(s, actions).Some?
    ensures Reachable(Run(s, actions).value)
  {
    var before: seq<Action> :| Run(Initial(), before) == Some(s);
    RunConcat(Initial(), before, actions);
    assert Run(Initial(), before + actions) == Run(s, actions);
  }

  // ---- the code itself, with nobody else running: what it does are steps of the protocol ----

  /** queueInLoop: the push and, except for the loop's own thread outside doPendingFunctors,
      the write to the eventfd. */
  function QueueSteps(cb: Functor, isInLoopThread: bool, calling: bool, t: Thread): seq<Action> {
    if !isInLoopThread then [Push(t, cb), Wakeup(t)]
    else if calling then [LoopPush(cb), LoopWakeup]
    else [LoopPush(cb)]
  }

  /** The loop's own thread queues several functors. */
  function QueueAllSteps(cbs: seq<Functor>, calling: bool): seq<Action> {
    if cbs == [] then []
    else QueueAllSteps(cbs[..|cbs| - 1], calling) + QueueSteps(cbs[|cbs| - 1], true, calling, 0)
  }

  /** Functors run in turn, and each queues others while it runs. */
  function RunSteps(functors: seq<Functor>, requeued: Functor -> seq<Functor>): seq<Action> {
    if functors == [] then []
    else
      var n := |functors| - 1;
      RunSteps(functors[..n], requeued) + [RunNext] + QueueAllSteps(requeued(functors[n]), true)
  }

  function DoPendingSteps(functors: seq<Functor>, requeued: Functor -> seq<Functor>): seq<Action> {
    [FinishHandling, Swap] + RunSteps(functors, requeued) + [FinishRound]
  }

  /** What functors queue while they run. */
  function Requeued(functors: seq<Functor>, requeued: Functor -> seq<Functor>): seq<Functor> {
    if functors == [] then []
    else Requeued(functors[..|functors| - 1], requeued) + requeued(functors[|functors| - 1])
  }

  lemma RunOn(s: Loop, a: seq<Action>, m: Loop, b: seq<Action>)
    requires Run(s, a) == Some(m)
    ensures Run(s, a + b) == Run(m, b)
  {
    RunConcat(s, a, b);
  }

  lemma RunNothing(s: Loop)
    ensures Run(s, []) == Some(s)
  {
  }

  lemma TwoSteps(s: Loop, a: Action, b: Action)
    requires Step(s, a).Some?
    ensures Run(s, [a, b]) == Step(Step(s, a).value, b)
  {
    assert [a, b] == [a] + [b];
    OneStep(s, a);
    RunOn(s, [a], Step(s, a).value, [b]);
    OneStep(Step(s, a).value, b);
  }

  /** More functors in the queue, each with its write to the eventfd if `woken`. */
  function Queued(s: Loop, cbs: seq<Functor>, woken: bool): Loop {
    s.(pending := s.pending + cbs, pushed := s.pushed + cbs, counter := s.counter + if woken then |cbs| else 0)
  }

  lemma QueuedNext(s: Loop, cbs: seq<Functor>, cb: Functor, woken: bool)
    ensures Queued(Queued(s, cbs, woken), [cb], woken) == Queued(s, cbs + [cb], woken)
  {
    assert s.pending + cbs + [cb] == s.pending + (cbs + [cb]);
    assert s.pushed + cbs + [cb] == s.pushed + (cbs + [cb]);
  }

  class EventLoop {
    var pendingFunctors: seq<Functor>
    var callingPendingFunctors: bool
    var counter: nat           // of the eventfd
    var called: seq<Functor>   // what ran, in order
    ghost var model: Loop      // the state of the protocol

    /** The fields are those of a reachable state in which no thread is inside queueInLoop. */
    ghost predicate Valid()
      reads this
    {
      && Reachable(model) && model.queueing == {} && !model.loopQueueing
      && model.pending == pendingFunctors && model.calling == callingPendingFunctors && model.counter == counter
    }

    constructor ()
      ensures Valid() && model == Initial() && called == []
    {
      pendingFunctors, callingPendingFunctors, counter, called, model := [], false, 0, [], Initial();
      assert Run(Initial(), []) == Some(Initial());
    }

    /** queueInLoop takes exactly the steps of the protocol; after it, a poll of the loop is
        sure to end if another thread queued, and also if a running functor did. */
    method QueueInLoop(cb: Functor, isInLoopThread: bool, ghost t: Thread)
      requires Valid() && (isInLoopThread ==> !model.phase.Polling? && !model.phase.Swapping?)
      modifies this`pendingFunctors, this`counter, this`model
      ensures Valid() && model == old(Queued(model, [cb], !isInLoopThread || model.calling))
      ensures Run(old(model), QueueSteps(cb, isInLoopThread, old(model.calling), t)) == Some(model)
      ensures !isInLoopThread || old(model.calling) ==> WakeupComing(model)
      ensures model.phase.Polling? ==> SureToEnd(model)
    {
      ghost var s := model;
      ghost var push := if isInLoopThread then LoopPush(cb) else Push(t, cb);
      ghost var wake := if isInLoopThread then LoopWakeup else Wakeup(t);
      pendingFunctors := pendingFunctors + [cb];
      model := Step(model, push).value;
      OneStep(s, push);
      if !isInLoopThread || callingPendingFunctors {
        counter := counter + 1;
        TwoSteps(s, push, wake);
        model := Step(model, wake).value;
      }
      ReachableRun(s, QueueSteps(cb, isInLoopThread, s.calling, t));
    }

    /** runInLoop: on the loop's own thread the functor runs at once and the protocol does not
        move; from another thread it is queued, and a poll of the loop is sure to end. */
    method RunInLoop(cb: Functor, isInLoopThread: bool, ghost t: Thread)
      requires Valid()
      modifies this`pendingFunctors, this`counter, this`called, this`model
      ensures Valid()
      ensures called == old(called) + if isInLoopThread then [cb] else []
      ensures Run(old(model), if isInLoopThread then [] else [Push(t, cb), Wakeup(t)]) == Some(model)
      ensures !isInLoopThread ==> WakeupComing(model) && (model.phase.Polling? ==> SureToEnd(model))
    {
      if isInLoopThread {
        called := called + [cb];
      } else {
        QueueInLoop(cb, false, t);
      }
    }

    /** A functor, or an event handler, queues others from the loop's own thread. */
    method QueueAll(cbs: seq<Functor>)
      requires Valid() && (model.phase.Handling? || model.phase.Running?)
      modifies this`pendingFunctors, this`counter, this`model
      ensures Valid() && model == old(Queued(model, cbs, model.calling))
      ensures Run(old(model), QueueAllSteps(cbs, old(model.calling))) == Some(model)
      ensures model.phase.Running? ==> NothingStranded(model)
    {
      ghost var s := model;
      for i := 0 to |cbs|
        invariant Valid() && model == Queued(s, cbs[..i], s.calling)
        invariant Run(s, QueueAllSteps(cbs[..i], s.calling)) == Some(model)
      {
        ghost var m := model;
        QueueInLoop(cbs[i], true, 0);
        assert cbs[..i + 1] == cbs[..i] + [cbs[i]] && cbs[..i + 1][..i] == cbs[..i];
        QueuedNext(s, cbs[..i], cbs[i], s.calling);
        RunOn(s, QueueAllSteps(cbs[..i], s.calling), m, QueueSteps(cbs[i], true, s.calling, 0));
      }
      assert cbs[..|cbs|] == cbs;
      ReachableInv(model);
    }

    /** doPendingFunctors; functor f queues requeued(f) while it runs.  Every functor that was
        queued runs, in order; those queued meanwhile wait, and the next poll is sure to end. */
    method DoPendingFunctors(requeued: Functor -> seq<Functor>)
      requires Valid() && model.phase == Handling(false)
      modifies this
      ensures Valid() && model.phase.Polling? && model.rounds == old(model.rounds) + 1
      ensures Run(old(model), DoPendingSteps(old(pendingFunctors), requeued)) == Some(model)
      ensures called == old(called) + old(pendingFunctors) && model.ran == old(model.ran) + old(pendingFunctors)
      ensures pendingFunctors == Requeued(old(pendingFunctors), requeued)
      ensures pendingFunctors != [] ==> SureToEnd(model)
    {
      hide Run, Step, Reachable, NothingStranded;
      ghost var s := model;
      var functors := SwapOut();
      ghost var swapped := model;
      RunFunctors(functors, requeued);
      ghost var m := model;
      RunOn(s, [FinishHandling, Swap], swapped, RunSteps(functors, requeued));
      FinishCalling();
      RunOn(s, [FinishHandling, Swap] + RunSteps(functors, requeued), m, [FinishRound]);
    }

    /** Up to the end of the block that holds the mutex. */
    method SwapOut() returns (functors: seq<Functor>)
      requires Valid() && model.phase == Handling(false)
      modifies this`pendingFunctors, this`callingPendingFunctors, this`model
      ensures Valid() && functors == old(pendingFunctors) && pendingFunctors == []
      ensures Run(old(model), [FinishHandling, Swap]) == Some(model) && model.phase == Running(functors)
      ensures model.rounds == old(model.rounds) && model.ran == old(model.ran)
    {
      ghost var s := model;
      callingPendingFunctors := true;
      functors := pendingFunctors;
      pendingFunctors := [];
      TwoSteps(s, FinishHandling, Swap);
      model := Step(Step(s, FinishHandling).value, Swap).value;
      ReachableRun(s, [FinishHandling, Swap]);
    }

    method FinishCalling()
      requires Valid() && model.phase == Running([])
      modifies this`callingPendingFunctors, this`model
      ensures Valid() && Run(old(model), [FinishRound]) == Some(model) && model.phase.Polling?
      ensures model.rounds == old(model.rounds) + 1 && model.ran == old(model.ran)
      ensures pendingFunctors != [] ==> SureToEnd(model)
    {
      ghost var s := model;
      callingPendingFunctors := false;
      model := Step(s, FinishRound).value;
      OneStep(s, FinishRound);
      ReachableRun(s, [FinishRound]);
      if pendingFunctors != [] {
        NoLostWakeup(model);
      }
    }

    /** The loop of doPendingFunctors. */
    method RunFunctors(functors: seq<Functor>, requeued: Functor -> seq<Functor>)
      requires Valid() && model.phase == Running(functors) && pendingFunctors == []
      modifies this`pendingFunctors, this`counter, this`called, this`model
      ensures Valid() && model.phase == Running([]) && model.rounds == old(model.rounds)
      ensures Run(old(model), RunSteps(functors, requeued)) == Some(model)
      ensures called == old(called) + functors && model.ran == old(model.ran) + functors
      ensures pendingFunctors == Requeued(functors, requeued)
    {
      hide Run, Step, Reachable;
      ghost var s := model;
      assert functors[0..] == functors;
      RunNothing(s);
      for i := 0 to |functors|
        invariant Valid() && model.phase == Running(functors[i..]) && model.rounds == s.rounds
        invariant Run(s, RunSteps(functors[..i], requeued)) == Some(model)
        invariant called == old(called) + functors[..i] && model.ran == s.ran + functors[..i]
        invariant pendingFunctors == Requeued(functors[..i], requeued)
      {
        ghost var m, before := model, RunSteps(functors[..i], requeued);
        assert functors[..i + 1] == functors[..i] + [functors[i]] && functors[..i + 1][..i] == functors[..i];
        assert functors[i..][0] == functors[i] && functors[i..][1..] == functors[i + 1..];
        RunOne(functors[i], requeued(functors[i]));
        RunOn(s, before, m, [RunNext] + QueueAllSteps(requeued(functors[i]), true));
        assert before + ([RunNext] + QueueAllSteps(requeued(functors[i]), true))
            == before + [RunNext] + QueueAllSteps(requeued(functors[i]), true);
      }
      assert functors[..|functors|] == functors;
    }

    /** One functor, with what it queues. */
    method RunOne(functor: Functor, more: seq<Functor>)
      requires Valid() && model.phase.Running? && model.phase.todo != [] && model.phase.todo[0] == functor
      modifies this`pendingFunctors, this`counter, this`called, this`model
      ensures Valid() && model.phase == Running(old(model.phase.todo)[1..]) && model.rounds == old(model.rounds)
      ensures Run(old(model), [RunNext] + QueueAllSteps(more, true)) == Some(model)
      ensures called == old(called) + [functor] && model.ran == old(model.ran) + [functor]
      ensures pendingFunctors == old(pendingFunctors) + more
    {
      ghost var s := model;
      ReachableInv(s);
      called := called + [functor];
      model := Step(model, RunNext).value;
      OneStep(s, RunNext);
      ReachableRun(s, [RunNext]);
      ghost var m := model;
      QueueAll(more);
      RunOn(s, [RunNext], m, QueueAllSteps(more, true));
    }

    /** loop() is called. */
    method EnterLoop()
      requires Valid() && model.phase.NotStarted?
      modifies this`model
      ensures Valid() && model == old(model).(phase := Polling)
    {
      ghost var s := model;
      model := Step(s, Start).value;
      OneStep(s, Start);
      ReachableRun(s, [Start]);
    }

    /** poll returns and its events are handled; the one of the eventfd is read, which resets it. */
    method Poll(otherEvent: bool)
      requires Valid() && model.phase.Polling? && (counter > 0 || otherEvent)
      modifies this`counter, this`model
      ensures Valid() && counter == 0 && model == old(model).(phase := Handling(false), counter := 0)
    {
      ghost var s := model;
      OneStep(s, PollReturns(otherEvent));
      model := Step(s, PollReturns(otherEvent)).value;
      ReachableRun(s, [PollReturns(otherEvent)]);
      if counter > 0 {
        ghost var m := model;
        OneStep(m, HandleWakeup);
        counter := 0;
        model := Step(m, HandleWakeup).value;
        ReachableRun(m, [HandleWakeup]);
      }
    }

    /** One iteration of loop(), in which the event handlers queue `handled`: it runs whatever
        was queued before and while it handled events, in order, once; and it leaves what
        was queued later, if anything, for a poll that is sure to end. */
    method Iterate(otherEvent: bool, handled: seq<Functor>, requeued: Functor -> seq<Functor>)
      requires Valid() && model.phase.Polling? && (counter > 0 || otherEvent)
      modifies this
      ensures Valid() && model.phase.Polling? && model.rounds == old(model.rounds) + 1
      ensures called == old(called) + (old(pendingFunctors) + handled)
      ensures pendingFunctors == Requeued(old(pendingFunctors) + handled, requeued)
      ensures pendingFunctors != [] ==> SureToEnd(model)
    {
      hide Run, Step, Reachable;
      Poll(otherEvent);
      QueueAll(handled);
      DoPendingFunctors(requeued);
    }
  }
}
