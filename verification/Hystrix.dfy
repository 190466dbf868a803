/** hystrix's GoC: each command runs two goroutines, a worker that asks the circuit, takes
    a ticket and runs the user's function, and a watcher that waits for the worker, the
    context or the timer.  Whoever comes first to the sync.Once returns the ticket and
    settles the command.  Any number of commands share one pool of tickets. */
module Hystrix {
  import opened Basics
  import opened Sums

  /** Why a command is settled. */
  datatype Cause = CircuitOpen | MaxConcurrency | RunFailed | Succeeded | TimedOut | Cancelled

  datatype Event = Settling(cause: Cause) | FallbackSuccess | FallbackFailure

  /** What tryFallback meets. */
  datatype Fallback = NoFallback | FallbackReturns | FallbackFails

  /** Inside the function given to Once.Do. */
  datatype Body =
    | ReturningTicket(cause: Cause)   // returnTicket: wait for ticketChecked, then Return
    | SendingTicket(cause: Cause)     // in Return, after the update for the metrics
    | Reporting(cause: Cause)         // reportEvent
    | TryingFallback(cause: Cause)    // tryFallback and the send on errChan
    | Leaving                         // reportAllEvent

  datatype Worker =
    | Asking                          // AllowRequest
    | Acquiring                       // the select on Tickets
    | Running                         // run(ctx)
    | WorkerAtOnce(cause: Cause)      // calls returnOnce.Do
    | WorkerInOnce(body: Body)
    | Finishing                       // the deferred `finished <- true`
    | WorkerGone

  datatype Watcher =
    | Watching                        // the select on finished, ctx.Done and the timer
    | WatcherAtOnce(cause: Cause)
    | WatcherInOnce(body: Body)
    | WatcherGone

  datatype Once = Fresh | Busy | Done

  /** What the worker was told: by the circuit, by the ticket channel, by the function. */
  datatype Heard = Nothing | Denied | NoTicket | Returned(failed: bool)

  datatype Command = Command(worker: Worker, watcher: Watcher, once: Once,
                             checked: bool,      // ticketChecked
                             ticket: bool,       // cmd.ticket != nil
                             returned: nat,      // sends of the ticket back to the pool
                             errors: nat,        // sends on errChan, which buffers one
                             finished: bool,     // the channel `finished` holds its one value
                             events: seq<Event>,
                             heard: Heard,       // history: what the worker got to know
                             gaveUp: Option<bool>)   // ... and whether the watcher saw a timeout

  /** executorPool: `free` of `max` tickets are in the channel; `monitoring` while the
      goroutine that receives the metrics updates is dealing with one. */
  datatype Pool = Pool(max: nat, free: nat, monitoring: bool)

  /** Receive a ticket, if there is one. */
  function TakeTicket(p: Pool): Option<Pool> {
    if p.free > 0 then Some(p.(free := p.free - 1)) else None
  }

  /** Return's send on the unbuffered Metrics.Updates; None while nobody receives. */
  function Announce(p: Pool): Option<Pool> {
    if p.monitoring then None else Some(p.(monitoring := true))
  }

  /** Return's send on Tickets; None while the channel is full. */
  function GiveTicket(p: Pool): Option<Pool> {
    if p.free < p.max then Some(p.(free := p.free + 1)) else None
  }

  /** Monitor is ready for the next update. */
  function MonitorReady(p: Pool): Option<Pool> {
    if p.monitoring then Some(p.(monitoring := false)) else None
  }

  datatype State = State(pool: Pool, commands: seq<Command>)

  const NewCommand := Command(Asking, Watching, Fresh, false, false, 0, 0, false, [], Nothing, None)

  datatype Action =
    | Go                                      // GoC starts a command
    | Monitor                                 // poolMetrics.Monitor is done with an update
    | AllowRequest(i: nat, allowed: bool)
    | SelectTicket(i: nat)
    | RunReturns(i: nat, failed: bool)
    | WorkerStep(i: nat)
    | FallbackEnds(i: nat, fallback: Fallback)
    | SeeFinished(i: nat)
    | GiveUp(i: nat, timedOut: bool)          // the timer, or ctx.Done
    | WatcherStep(i: nat)

  function Initial(max: nat): State { State(Pool(max, max, false), []) }

  /** One step inside Once.Do: the new body, and what it does to pool and command.  None
      while it has to wait: for ticketChecked, for the metrics, for room in Tickets, or for the user's fallback. */
  function BodyStep(s: State, c: Command, b: Body): Option<(Pool, Command, Body)> {
    match b
    case ReturningTicket(cause) =>
      if !c.checked then None
      else if !c.ticket then Some((s.pool, c, Reporting(cause)))
      else
        (match Announce(s.pool)
         case None => None
         case Some(p) => Some((p, c, SendingTicket(cause))))
    case SendingTicket(cause) =>
      (match GiveTicket(s.pool)
       case None => None
       case Some(p) => Some((p, c.(returned := c.returned + 1), Reporting(cause))))
    case Reporting(cause) =>
      Some((s.pool, c.(events := c.events + [Settling(cause)]), if cause.Succeeded? then Leaving else TryingFallback(cause)))
    case TryingFallback(_) => None
    case Leaving => Some((s.pool, c.(once := Done), Leaving))
  }

  /** What tryFallback returned: the event, and the error for errChan; None while that is full. */
  function AfterFallback(c: Command, f: Fallback): Option<Command> {
    match f
    case FallbackReturns => Some(c.(events := c.events + [FallbackSuccess]))
    case FallbackFails =>
      if c.errors == 0 then Some(c.(events := c.events + [FallbackFailure], errors := c.errors + 1)) else None
    case NoFallback => if c.errors == 0 then Some(c.(errors := c.errors + 1)) else None
  }

  predicate Trying(c: Command) {
    (c.worker.WorkerInOnce? && c.worker.body.TryingFallback?) || (c.watcher.WatcherInOnce? && c.watcher.body.TryingFallback?)
  }

  /** The goroutine that tries the fallback gets on. */
  function FallbackMoves(c: Command, f: Fallback): Option<Command> {
    if !Trying(c) then None
    else
      match AfterFallback(c, f)
      case None => None
      case Some(c') =>
        if c.worker.WorkerInOnce? && c.worker.body.TryingFallback? then Some(c'.(worker := WorkerInOnce(Leaving)))
        else Some(c'.(watcher := WatcherInOnce(Leaving)))
  }

  /** The command after the worker's next step on its own, with the free tickets. */
  function WorkerMoves(s: State, c: Command): Option<(Pool, Command)> {
    match c.worker
    case WorkerAtOnce(cause) =>
      if c.once.Fresh? then Some((s.pool, c.(once := Busy, worker := WorkerInOnce(ReturningTicket(cause)))))
      else if c.once.Done? then Some((s.pool, c.(worker := Finishing)))
      else None
    case WorkerInOnce(b) =>
      (match BodyStep(s, c, b)
       case None => None
       case Some((p, c', b')) => Some((p, c'.(worker := if b.Leaving? then Finishing else WorkerInOnce(b')))))
    case Finishing =>
      if c.finished then None else Some((s.pool, c.(finished := true, worker := WorkerGone)))
    case _ => None
  }

  function WatcherMoves(s: State, c: Command): Option<(Pool, Command)> {
    match c.watcher
    case WatcherAtOnce(cause) =>
      if c.once.Fresh? then Some((s.pool, c.(once := Busy, watcher := WatcherInOnce(ReturningTicket(cause)))))
      else if c.once.Done? then Some((s.pool, c.(watcher := WatcherGone)))
      else None
    case WatcherInOnce(b) =>
      (match BodyStep(s, c, b)
       case None => None
       case Some((p, c', b')) => Some((p, c'.(watcher := if b.Leaving? then WatcherGone else WatcherInOnce(b')))))
    case _ => None
  }

  /** What an action does to its command. */
  function CommandStep(s: State, c: Command, a: Action): Option<(Pool, Command)> {
    match a
    case Go => None
    case Monitor => None
    case AllowRequest(_, allowed) =>
      if !c.worker.Asking? then None
      else if allowed then Some((s.pool, c.(worker := Acquiring)))
      else Some((s.pool, c.(checked := true, heard := Denied, worker := WorkerAtOnce(CircuitOpen))))
    case SelectTicket(_) =>
      if !c.worker.Acquiring? then None
      else
        (match TakeTicket(s.pool)
         case Some(p) => Some((p, c.(checked := true, ticket := true, worker := Running)))
         case None => Some((s.pool, c.(checked := true, heard := NoTicket, worker := WorkerAtOnce(MaxConcurrency)))))
    case RunReturns(_, failed) =>
      if !c.worker.Running? then None
      else Some((s.pool, c.(heard := Returned(failed), worker := WorkerAtOnce(if failed then RunFailed else Succeeded))))
    case WorkerStep(_) => WorkerMoves(s, c)
    case FallbackEnds(_, f) =>
      (match FallbackMoves(c, f)
       case None => None
       case Some(c') => Some((s.pool, c')))
    case SeeFinished(_) =>
      if c.watcher.Watching? && c.finished then Some((s.pool, c.(finished := false, watcher := WatcherGone))) else None
    case GiveUp(_, timedOut) =>
      if !c.watcher.Watching? then None
      else Some((s.pool, c.(gaveUp := Some(timedOut), watcher := WatcherAtOnce(if timedOut then TimedOut else Cancelled))))
    case WatcherStep(_) => WatcherMoves(s, c)
  }

  function Step(s: State, a: Action): Option<State> {
    if a.Go? then Some(s.(commands := s.commands + [NewCommand]))
    else if a.Monitor? then
      (match MonitorReady(s.pool)
       case None => None
       case Some(p) => Some(s.(pool := p)))
    else if a.i >= |s.commands| then None
    else
      match CommandStep(s, s.commands[a.i], a)
      case None => None
      case Some((p, c)) => Some(s.(pool := p, commands := s.commands[a.i := c]))
  }

  function Run(s: State, actions: seq<Action>): Option<State>
    decreases |actions|
  {
    if actions == [] then Some(s)
    else
      match Step(s, actions[0])
      case None => None
      case Some(s') => Run(s', actions[1..])
  }

  // ---- the invariant of one command ----

  /** The outcome a settled command reports: the true cause, at most one fallback event, and
      one error exactly when it neither succeeded nor fell back. */
  predicate Settled(c: Command) {
    && c.events != [] && c.events[0].Settling? && Honest(c, c.events[0].cause)
    && Reported(c)
  }

  predicate Reported(c: Command) {
    || (c.events == [Settling(Succeeded)] && c.errors == 0)
    || (|c.events| == 1 && c.events[0].Settling? && !c.events[0].cause.Succeeded? && c.errors == 1)
    || (|c.events| == 2 && c.events[0].Settling? && !c.events[0].cause.Succeeded?
        && ((c.events[1] == FallbackSuccess && c.errors == 0) || (c.events[1] == FallbackFailure && c.errors == 1)))
  }

  /** The cause is what really happened. */
  predicate Honest(c: Command, cause: Cause) {
    match cause
    case CircuitOpen => c.heard.Denied? && !c.ticket
    case MaxConcurrency => c.heard.NoTicket? && !c.ticket
    case RunFailed => c.heard == Returned(true) && c.ticket
    case Succeeded => c.heard == Returned(false) && c.ticket
    case TimedOut => c.gaveUp == Some(true)
    case Cancelled => c.gaveUp == Some(false)
  }

  predicate BodyOk(c: Command, b: Body) {
    match b
    case ReturningTicket(cause) => Honest(c, cause) && c.returned == 0 && c.events == [] && c.errors == 0
    case SendingTicket(cause) =>
      Honest(c, cause) && c.checked && c.ticket && c.returned == 0 && c.events == [] && c.errors == 0
    case Reporting(cause) =>
      Honest(c, cause) && c.checked && c.returned == (if c.ticket then 1 else 0) && c.events == [] && c.errors == 0
    case TryingFallback(cause) =>
      && Honest(c, cause) && c.checked && c.returned == (if c.ticket then 1 else 0)
      && c.events == [Settling(cause)] && !cause.Succeeded? && c.errors == 0
    case Leaving => c.checked && c.returned == (if c.ticket then 1 else 0) && Settled(c)
  }

  predicate CommandOk(c: Command) {
    && c.checked == !(c.worker.Asking? || c.worker.Acquiring?)
    && (c.ticket ==> c.checked) && (c.worker.Running? ==> c.ticket)
    && (c.once.Fresh? ==>
          !c.worker.WorkerInOnce? && !c.watcher.WatcherInOnce? && c.returned == 0 && c.events == [] && c.errors == 0)
    && (c.once.Busy? ==> c.worker.WorkerInOnce? != c.watcher.WatcherInOnce?)
    && (c.once.Done? ==> !c.worker.WorkerInOnce? && !c.watcher.WatcherInOnce?
                         && c.checked && c.returned == (if c.ticket then 1 else 0) && Settled(c))
    && (c.worker.WorkerAtOnce? ==> Honest(c, c.worker.cause))
    && (c.watcher.WatcherAtOnce? ==> Honest(c, c.watcher.cause))
    && (c.heard.Nothing? <==> c.worker.Asking? || c.worker.Acquiring? || c.worker.Running?)
    && (c.watcher.Watching? ==> c.gaveUp.None?)
    && (c.worker.WorkerInOnce? ==> BodyOk(c, c.worker.body))
    && (c.watcher.WatcherInOnce? ==> BodyOk(c, c.watcher.body))
    && (c.worker.Finishing? || c.worker.WorkerGone? ==> c.once.Done?)
    && (c.finished ==> c.worker.WorkerGone?)
    && (c.watcher.Watching? && c.worker.WorkerGone? ==> c.finished)
    && (c.watcher.WatcherGone? ==> c.once.Done?)
  }

  /** The command holds a ticket of the pool. */
  function Holds(c: Command): int {
    if c.ticket && c.returned == 0 then 1 else 0
  }

  ghost predicate Inv(s: State) {
    && s.pool.free + Sum(s.commands, Holds) == s.pool.max
    && forall k :: 0 <= k < |s.commands| ==> CommandOk(s.commands[k])
  }

  lemma BodyStepOk(s: State, c: Command, b: Body)
    requires BodyOk(c, b) && BodyStep(s, c, b).Some?
    ensures var (p, c', b') := BodyStep(s, c, b).value;
      && p.free + Holds(c') == s.pool.free + Holds(c) && p.max == s.pool.max
      && (if b.Leaving? then c' == c.(once := Done) && BodyOk(c, b) else BodyOk(c', b') && c'.once == c.once)
      && c' == c.(events := c'.events, errors := c'.errors, returned := c'.returned, once := c'.once)
  {
  }

  lemma WorkerMovesOk(s: State, c: Command)
    requires CommandOk(c) && WorkerMoves(s, c).Some?
    ensures var (p, c') := WorkerMoves(s, c).value;
      CommandOk(c') && p.free + Holds(c') == s.pool.free + Holds(c) && p.max == s.pool.max
  {
    if c.worker.WorkerInOnce? {
      BodyStepOk(s, c, c.worker.body);
    }
  }

  lemma WatcherMovesOk(s: State, c: Command)
    requires CommandOk(c) && WatcherMoves(s, c).Some?
    ensures var (p, c') := WatcherMoves(s, c).value;
      CommandOk(c') && p.free + Holds(c') == s.pool.free + Holds(c) && p.max == s.pool.max
  {
    if c.watcher.WatcherInOnce? {
      BodyStepOk(s, c, c.watcher.body);
    }
  }

  lemma FallbackMovesOk(c: Command, f: Fallback)
    requires CommandOk(c) && FallbackMoves(c, f).Some?
    ensures CommandOk(FallbackMoves(c, f).value) && Holds(FallbackMoves(c, f).value) == Holds(c)
  {
  }

  lemma CommandStepOk(s: State, c: Command, a: Action)
    requires CommandOk(c) && CommandStep(s, c, a).Some?
    ensures var (p, c') := CommandStep(s, c, a).value;
      CommandOk(c') && p.free + Holds(c') == s.pool.free + Holds(c) && p.max == s.pool.max
  {
    hide WorkerMoves, WatcherMoves, FallbackMoves;
    match a {
      case WorkerStep(_) => WorkerMovesOk(s, c);
      case WatcherStep(_) => WatcherMovesOk(s, c);
      case FallbackEnds(_, f) => FallbackMovesOk(c, f);
      case _ =>
    }
  }

  lemma {:induction false} StepKeepsInv(s: State, a: Action)
    requires Inv(s) && Step(s, a).Some?
    ensures Inv(Step(s, a).value) && Step(s, a).value.pool.max == s.pool.max
  {
    if a.Go? {
      SumSnoc(s.commands, NewCommand, Holds);
    } else if !a.Monitor? {
      CommandStepOk(s, s.commands[a.i], a);
      SumUpdate(s.commands, a.i, CommandStep(s, s.commands[a.i], a).value.1, Holds);
    }
  }

  lemma {:induction false} RunKeepsInv(s: State, actions: seq<Action>)
    requires Inv(s) && Run(s, actions).Some?
    ensures Inv(Run(s, actions).value) && Run(s, actions).value.pool.max == s.pool.max
    decreases |actions|
  {
    if actions != [] {
      StepKeepsInv(s, actions[0]);
      RunKeepsInv(Step(s, actions[0]).value, actions[1..]);
    }
  }

  ghost predicate Reachable(max: nat, s: State) {
    exists actions: seq<Action> :: Run(Initial(max), actions) == Some(s)
  }

  lemma ReachableInv(max: nat, s: State)
    requires Reachable(max, s)
    ensures Inv(s) && s.pool.max == max
  {
    var actions: seq<Action> :| Run(Initial(max), actions) == Some(s);
    RunKeepsInv(Initial(max), actions);
  }

  // ---- what holds in every state of every run ----

  /** Tickets are conserved: free ones and held ones add up to Max, whoever wins which race. */
  lemma TicketsConserved(max: nat, s: State)
    requires Reachable(max, s)
    ensures s.pool.free + Sum(s.commands, Holds) == max
  {
    ReachableInv(max, s);
  }

  /** A command is turned away for concurrency exactly when all Max tickets are held. */
  lemma RejectedIffAllHeld(max: nat, s: State, i: nat)
    requires Reachable(max, s) && i < |s.commands| && s.commands[i].worker.Acquiring?
    ensures Step(s, SelectTicket(i)).Some?
    ensures Step(s, SelectTicket(i)).value.commands[i].worker == WorkerAtOnce(MaxConcurrency)
       <==> Sum(s.commands, Holds) == max
  {
    ReachableInv(max, s);
  }

  predicate Over(c: Command) { c.worker.WorkerGone? && c.watcher.WatcherGone? }

  /** No ticket is returned twice or by a command that has none, errChan gets at most one
      error; and when both goroutines are gone the ticket is back and the command has
      exactly one outcome, whose cause is what really happened. */
  lemma SettledOnce(max: nat, s: State, i: nat)
    requires Reachable(max, s) && i < |s.commands|
    ensures var c := s.commands[i];
      && c.returned <= (if c.ticket then 1 else 0) && c.errors <= 1
      && (c.once.Done? ==> c.returned == (if c.ticket then 1 else 0) && Settled(c))
      && (Over(c) ==> c.once.Done?)
  {
    ReachableInv(max, s);
  }

  /** A goroutine about to return a ticket has its turn once the metrics goroutine, which can
      go on, is ready for the update. */
  predicate WaitsForMetrics(s: State, c: Command, b: Body) {
    b.ReturningTicket? && c.checked && c.ticket && Step(s, Monitor).Some?
  }

  predicate WorkerCan(s: State, i: nat)
    requires i < |s.commands|
  {
    || Step(s, AllowRequest(i, true)).Some? || Step(s, SelectTicket(i)).Some?
    || Step(s, RunReturns(i, true)).Some? || Step(s, WorkerStep(i)).Some?
    || (s.commands[i].worker.WorkerInOnce? && Step(s, FallbackEnds(i, NoFallback)).Some?)
    || (s.commands[i].worker.WorkerInOnce? && WaitsForMetrics(s, s.commands[i], s.commands[i].worker.body))
  }

  predicate WatcherCan(s: State, i: nat)
    requires i < |s.commands|
  {
    || Step(s, GiveUp(i, true)).Some? || Step(s, WatcherStep(i)).Some?
    || (s.commands[i].watcher.WatcherInOnce? && Step(s, FallbackEnds(i, NoFallback)).Some?)
    || (s.commands[i].watcher.WatcherInOnce? && WaitsForMetrics(s, s.commands[i], s.commands[i].watcher.body))
  }

  /** Nothing gets stuck.  A send on Tickets, errChan or finished always finds room, and one on
      Metrics.Updates waits at most for the goroutine that receives them; whoever else waits,
      waits for the other goroutine of the same command, and that one can go on. */
  lemma NeverStuck(max: nat, s: State, i: nat)
    requires Reachable(max, s) && i < |s.commands|
    ensures s.commands[i].worker.WorkerGone? || WorkerCan(s, i)
         || (s.commands[i].worker.WorkerAtOnce? && s.commands[i].once.Busy? && WatcherCan(s, i))
    ensures s.commands[i].watcher.WatcherGone? || WatcherCan(s, i)
         || (((s.commands[i].watcher.WatcherAtOnce? && s.commands[i].once.Busy?)
              || (s.commands[i].watcher.WatcherInOnce? && !s.commands[i].checked)) && WorkerCan(s, i))
  {
    ReachableInv(max, s);
    assert CommandOk(s.commands[i]);
    SumAtLeast(s.commands, i, Holds);
  }

  /** Steps a command can still take, at most. */
  function Rank(c: Command): int {
    WorkerRank(c.worker) + WatcherRank(c.watcher)
  }

  function BodyRank(b: Body): nat {
    match b
    case ReturningTicket(_) => 5
    case SendingTicket(_) => 4
    case Reporting(_) => 3
    case TryingFallback(_) => 2
    case Leaving => 1
  }

  function WorkerRank(w: Worker): nat {
    match w
    case Asking => 10
    case Acquiring => 9
    case Running => 8
    case WorkerAtOnce(_) => 7
    case WorkerInOnce(b) => 1 + BodyRank(b)
    case Finishing => 1
    case WorkerGone => 0
  }

  function WatcherRank(w: Watcher): nat {
    match w
    case Watching => 7
    case WatcherAtOnce(_) => 6
    case WatcherInOnce(b) => BodyRank(b)
    case WatcherGone => 0
  }

  /** Every step of a command brings it nearer to its end, by at least one of at most 17. */
  lemma StepsRunOut(s: State, a: Action)
    requires !a.Go? && !a.Monitor? && Step(s, a).Some?
    ensures Rank(Step(s, a).value.commands[a.i]) < Rank(s.commands[a.i]) <= 17
    ensures forall k :: 0 <= k < |s.commands| && k != a.i ==> Step(s, a).value.commands[k] == s.commands[k]
  {
  }

  /** Steps that all commands and the metrics goroutine can still take, at most. */
  function Left(s: State): int {
    2 * Sum(s.commands, Rank) + if s.pool.monitoring then 1 else 0
  }

  /** Without new commands every run ends. */
  lemma {:induction false} RunsEnd(s: State, actions: seq<Action>)
    requires (forall a <- actions :: !a.Go?) && Run(s, actions).Some?
    ensures |actions| <= Left(s)
    decreases |actions|
  {
    SumNonNegative(s.commands, Rank);
    if actions != [] {
      var a, s' := actions[0], Step(s, actions[0]).value;
      if !a.Monitor? {
        StepsRunOut(s, a);
        SumUpdate(s.commands, a.i, s'.commands[a.i], Rank);
      }
      RunsEnd(s', actions[1..]);
    }
  }

  // ---- what tickets do not promise ----

  function IsRunning(c: Command): int { if c.worker.Running? then 1 else 0 }

  /** Its ticket went back to the pool while its function is still running. */
  function IsAbandoned(c: Command): int { if c.worker.Running? && c.returned > 0 then 1 else 0 }

  function IsRunningHolding(c: Command): int { IsRunning(c) - IsAbandoned(c) }

  lemma {:induction false} SumDifference(cs: seq<Command>)
    ensures Sum(cs, IsRunning) == Sum(cs, IsRunningHolding) + Sum(cs, IsAbandoned)
  {
    if cs != [] {
      SumDifference(cs[1..]);
    }
  }

  /** Max bounds the functions running at once only up to those that were given up on. */
  lemma RunningBound(max: nat, s: State)
    requires Reachable(max, s)
    ensures Sum(s.commands, IsRunning) <= max + Sum(s.commands, IsAbandoned)
  {
    ReachableInv(max, s);
    SumDifference(s.commands);
    SumMonotone(s.commands, IsRunningHolding, Holds);
  }

  /** A run is known by the states it passes through. */
  lemma {:induction false} RunAlong(states: seq<State>, actions: seq<Action>)
    requires |states| == |actions| + 1
    requires forall k :: 0 <= k < |actions| ==> Step(states[k], actions[k]) == Some(states[k + 1])
    ensures Run(states[0], actions) == Some(states[|actions|])
  {
    if actions != [] {
      RunAlong(states[1..], actions[1..]);
    }
  }

  lemma {:induction false} RunConcat(s: State, a: seq<Action>, b: seq<Action>)
    requires Run(s, a).Some?
    ensures Run(s, a + b) == Run(Run(s, a).value, b)
    decreases |a|
  {
    if a == [] {
      assert a + b == b;
    } else {
      assert (a + b)[1..] == a[1..] + b && (a + b)[0] == a[0];
      RunConcat(Step(s, a[0]).value, a[1..], b);
    }
  }

  /** A command whose function still runs after the timer settled it. */
  const Abandoned := Command(Running, WatcherGone, Done, true, true, 1, 1, false, [Settling(TimedOut)],
                             Nothing, Some(true))

  function AllAbandoned(max: nat, n: nat): State {
    State(Pool(max, max, false), seq(n, _ => Abandoned))
  }

  /** How one more command, number i, comes to be abandoned: it runs until the timer fires ... */
  function TimeoutActions(i: nat): seq<Action> {
    [Go, AllowRequest(i, true), SelectTicket(i), GiveUp(i, true), WatcherStep(i)]
  }

  /** ... and the watcher settles it. */
  function SettleActions(i: nat): seq<Action> {
    [WatcherStep(i), Monitor, WatcherStep(i), WatcherStep(i), FallbackEnds(i, NoFallback), WatcherStep(i)]
  }

  const TimedOutCommand := Command(Running, WatcherInOnce(ReturningTicket(TimedOut)), Busy, true, true, 0, 0, false, [],
                                   Nothing, Some(true))

  lemma StepOfLast(p: Pool, before: seq<Command>, c: Command, a: Action, p': Pool, c': Command)
    requires !a.Go? && !a.Monitor? && a.i == |before|
    requires CommandStep(State(p, before + [c]), c, a) == Some((p', c'))
    ensures Step(State(p, before + [c]), a) == Some(State(p', before + [c']))
  {
    assert (before + [c])[a.i := c'] == before + [c'];
  }

  lemma TimeOut(max: nat, before: seq<Command>)
    requires max > 0
    ensures Run(State(Pool(max, max, false), before), TimeoutActions(|before|))
         == Some(State(Pool(max, max - 1, false), before + [TimedOutCommand]))
  {
    var n, all, less := |before|, Pool(max, max, false), Pool(max, max - 1, false);
    var c1 := NewCommand.(worker := Acquiring);
    var c2 := c1.(worker := Running, checked := true, ticket := true);
    var c3 := c2.(gaveUp := Some(true), watcher := WatcherAtOnce(TimedOut));
    var states := [State(all, before), State(all, before + [NewCommand]), State(all, before + [c1]),
                   State(less, before + [c2]), State(less, before + [c3]), State(less, before + [TimedOutCommand])];
    StepOfLast(all, before, NewCommand, AllowRequest(n, true), all, c1);
    StepOfLast(all, before, c1, SelectTicket(n), less, c2);
    StepOfLast(less, before, c2, GiveUp(n, true), less, c3);
    StepOfLast(less, before, c3, WatcherStep(n), less, TimedOutCommand);
    RunAlong(states, TimeoutActions(n));
  }

  lemma Settle(max: nat, before: seq<Command>)
    requires max > 0
    ensures Run(State(Pool(max, max - 1, false), before + [TimedOutCommand]), SettleActions(|before|))
         == Some(State(Pool(max, max, false), before + [Abandoned]))
  {
    var n, a := |before|, WatcherStep(|before|);
    var all, less, told := Pool(max, max, false), Pool(max, max - 1, false), Pool(max, max - 1, true);
    var c5 := TimedOutCommand.(watcher := WatcherInOnce(SendingTicket(TimedOut)));
    var c6 := c5.(returned := 1, watcher := WatcherInOnce(Reporting(TimedOut)));
    var c7 := c6.(events := [Settling(TimedOut)], watcher := WatcherInOnce(TryingFallback(TimedOut)));
    var c8 := c7.(errors := 1, watcher := WatcherInOnce(Leaving));
    var states := [State(less, before + [TimedOutCommand]), State(told, before + [c5]), State(less, before + [c5]),
                   State(all, before + [c6]), State(all, before + [c7]), State(all, before + [c8]),
                   State(all, before + [Abandoned])];
    assert [] + [Settling(TimedOut)] == [Settling(TimedOut)];
    StepOfLast(less, before, TimedOutCommand, a, told, c5);
    StepOfLast(less, before, c5, a, all, c6);
    StepOfLast(all, before, c6, a, all, c7);
    StepOfLast(all, before, c7, FallbackEnds(n, NoFallback), all, c8);
    StepOfLast(all, before, c8, a, all, Abandoned);
    RunAlong(states, SettleActions(n));
  }

  lemma AbandonOneMore(max: nat, n: nat)
    requires max > 0
    ensures Run(AllAbandoned(max, n), TimeoutActions(n) + SettleActions(n)) == Some(AllAbandoned(max, n + 1))
  {
    hide Run, TimeoutActions, SettleActions;
    var before := AllAbandoned(max, n).commands;
    TimeOut(max, before);
    Settle(max, before);
    RunConcat(AllAbandoned(max, n), TimeoutActions(n), SettleActions(n));
    assert before + [Abandoned] == AllAbandoned(max, n + 1).commands;
  }

  /** Without the timer's help Max would bound the running functions; with it nothing does:
      as soon as there is a ticket at all, any number of functions can run at once. */
  lemma {:induction false} RunningIsUnbounded(max: nat, n: nat)
    requires max > 0
    ensures Reachable(max, AllAbandoned(max, n))
    ensures Sum(AllAbandoned(max, n).commands, IsRunning) == n
  {
    if n == 0 {
      assert Run(Initial(max), []) == Some(AllAbandoned(max, 0));
    } else {
      RunningIsUnbounded(max, n - 1);
      var actions: seq<Action> :| Run(Initial(max), actions) == Some(AllAbandoned(max, n - 1));
      var more := TimeoutActions(n - 1) + SettleActions(n - 1);
      RunConcat(Initial(max), actions, more);
      AbandonOneMore(max, n - 1);
      assert Run(Initial(max), actions + more) == Some(AllAbandoned(max, n));
      assert AllAbandoned(max, n).commands == AllAbandoned(max, n - 1).commands + [Abandoned];
      SumSnoc(AllAbandoned(max, n - 1).commands, Abandoned, IsRunning);
    }
  }

  /** There is no ticket, and nobody has one or runs. */
  ghost predicate NoTickets(s: State) {
    && s.pool.max == s.pool.free == 0
    && forall k :: 0 <= k < |s.commands| ==> !s.commands[k].ticket && !s.commands[k].worker.Running? && !Sending(s.commands[k])
  }

  predicate Sending(c: Command) {
    (c.worker.WorkerInOnce? && c.worker.body.SendingTicket?) || (c.watcher.WatcherInOnce? && c.watcher.body.SendingTicket?)
  }

  lemma NoTicketsStep(s: State, a: Action)
    requires NoTickets(s) && Step(s, a).Some?
    ensures NoTickets(Step(s, a).value)
  {
    if !a.Go? && !a.Monitor? {
      var c := s.commands[a.i];
      assert !c.ticket && !c.worker.Running? && !Sending(c);
    }
  }

  lemma {:induction false} NoTicketsNoRuns(s: State, actions: seq<Action>)
    requires NoTickets(s) && Run(s, actions).Some?
    ensures Sum(Run(s, actions).value.commands, IsRunning) == 0
    decreases |actions|
  {
    hide Step, Sending;
    if actions == [] {
      SumZero(s.commands, IsRunning);
    } else {
      NoTicketsStep(s, actions[0]);
      NoTicketsNoRuns(Step(s, actions[0]).value, actions[1..]);
    }
  }

  /** So Max caps the running functions in every reachable state only when it is 0. */
  lemma MaxCapsRunningOnlyAtZero(max: nat)
    ensures (forall s :: Reachable(max, s) ==> Sum(s.commands, IsRunning) <= max) <==> max == 0
  {
    if max == 0 {
      forall s | Reachable(max, s) ensures Sum(s.commands, IsRunning) <= max {
        var actions: seq<Action> :| Run(Initial(max), actions) == Some(s);
        NoTicketsNoRuns(Initial(max), actions);
      }
    } else {
      RunningIsUnbounded(max, max + 1);
    }
  }

  // ---- the outcome of a command, by what its actions supplied ----

  // What the circuit, the function, the timer and the fallback said, read off the actions.

  predicate DeniedBy(actions: seq<Action>, i: nat) {
    exists k :: 0 <= k < |actions| && actions[k] == AllowRequest(i, false)
  }

  /** Whether the function failed. */
  function ResultOf(actions: seq<Action>, i: nat): Option<bool> {
    if actions == [] then None
    else
      var a := actions[|actions| - 1];
      if a.RunReturns? && a.i == i then Some(a.failed) else ResultOf(actions[..|actions| - 1], i)
  }

  /** Whether the watcher saw the timer, or else the context's end. */
  function TimeoutOf(actions: seq<Action>, i: nat): Option<bool> {
    if actions == [] then None
    else
      var a := actions[|actions| - 1];
      if a.GiveUp? && a.i == i then Some(a.timedOut) else TimeoutOf(actions[..|actions| - 1], i)
  }

  function FallbackOf(actions: seq<Action>, i: nat): Option<Fallback> {
    if actions == [] then None
    else
      var a := actions[|actions| - 1];
      if a.FallbackEnds? && a.i == i then Some(a.fallback) else FallbackOf(actions[..|actions| - 1], i)
  }

  /** What these actions made of a command so far. */
  predicate MadeBy(c: Command, denied: bool, result: Option<bool>, timeout: Option<bool>, fallback: Option<Fallback>) {
    && (c.heard.Denied? <==> denied)
    && (if c.heard.Returned? then result == Some(c.heard.failed) else result == None)
    && c.gaveUp == timeout
    && match fallback
       case None => |c.events| <= 1 && c.errors == 0
       case Some(FallbackReturns) => |c.events| == 2 && c.events[1] == FallbackSuccess && c.errors == 0
       case Some(FallbackFails) => |c.events| == 2 && c.events[1] == FallbackFailure && c.errors == 1
       case Some(NoFallback) => |c.events| == 1 && c.errors == 1
  }

  predicate Made(c: Command, actions: seq<Action>, i: nat) {
    MadeBy(c, DeniedBy(actions, i), ResultOf(actions, i), TimeoutOf(actions, i), FallbackOf(actions, i))
  }

  lemma BodyMakes(s: State, c: Command, b: Body, denied: bool, result: Option<bool>, timeout: Option<bool>, fallback: Option<Fallback>)
    requires CommandOk(c) && BodyOk(c, b) && BodyStep(s, c, b).Some? && MadeBy(c, denied, result, timeout, fallback)
    ensures MadeBy(BodyStep(s, c, b).value.1, denied, result, timeout, fallback)
  {
  }

  lemma CommandMakes(s: State, c: Command, a: Action, denied: bool, result: Option<bool>, timeout: Option<bool>, fallback: Option<Fallback>)
    requires CommandOk(c) && CommandStep(s, c, a).Some? && MadeBy(c, denied, result, timeout, fallback)
    ensures MadeBy(CommandStep(s, c, a).value.1,
                   denied || (a.AllowRequest? && !a.allowed), if a.RunReturns? then Some(a.failed) else result,
                   if a.GiveUp? then Some(a.timedOut) else timeout, if a.FallbackEnds? then Some(a.fallback) else fallback)
  {
    if a.WorkerStep? && c.worker.WorkerInOnce? {
      BodyMakes(s, c, c.worker.body, denied, result, timeout, fallback);
    } else if a.WatcherStep? && c.watcher.WatcherInOnce? {
      BodyMakes(s, c, c.watcher.body, denied, result, timeout, fallback);
    }
  }

  lemma {:induction false} RunLast(s: State, actions: seq<Action>)
    requires actions != [] && Run(s, actions).Some?
    ensures var n := |actions| - 1;
      Run(s, actions[..n]).Some? && Step(Run(s, actions[..n]).value, actions[n]) == Run(s, actions)
    decreases |actions|
  {
    hide Step;
    var n := |actions| - 1;
    if n == 0 {
      assert actions == [actions[0]];
      OneStep(s, actions[0]);
    } else {
      RunLast(Step(s, actions[0]).value, actions[1..]);
      assert actions[..n][1..] == actions[1..][..n - 1] && actions[..n][0] == actions[0];
    }
  }

  lemma DeniedSnoc(actions: seq<Action>, a: Action, i: nat)
    ensures DeniedBy(actions + [a], i) <==> DeniedBy(actions, i) || a == AllowRequest(i, false)
  {
    var all := actions + [a];
    assert all[|actions|] == a;
    assert forall k :: 0 <= k < |actions| ==> all[k] == actions[k];
  }

  /** Nothing is said about a command before it starts. */
  predicate Unsaid(actions: seq<Action>, i: nat) {
    !DeniedBy(actions, i) && ResultOf(actions, i) == None && TimeoutOf(actions, i) == None && FallbackOf(actions, i) == None
  }

  lemma MadeNext(s: State, before: seq<Action>, a: Action, i: nat)
    requires Inv(s) && Step(s, a).Some?
    requires if i < |s.commands| then Made(s.commands[i], before, i) else Unsaid(before, i)
    ensures var s' := Step(s, a).value;
      if i < |s'.commands| then Made(s'.commands[i], before + [a], i) else Unsaid(before + [a], i)
  {
    var all := before + [a];
    assert all[..|all| - 1] == before && all[|all| - 1] == a;
    DeniedSnoc(before, a, i);
    if !a.Go? && !a.Monitor? && a.i == i {
      hide CommandStep, MadeBy;
      CommandMakes(s, s.commands[i], a, DeniedBy(before, i), ResultOf(before, i), TimeoutOf(before, i), FallbackOf(before, i));
    }
  }

  lemma {:induction false} MadeByRun(max: nat, actions: seq<Action>, s: State, i: nat)
    requires Run(Initial(max), actions) == Some(s)
    ensures if i < |s.commands| then Made(s.commands[i], actions, i) else Unsaid(actions, i)
    decreases |actions|
  {
    if actions != [] {
      var n := |actions| - 1;
      hide Run, Step;
      RunLast(Initial(max), actions);
      var before := Run(Initial(max), actions[..n]).value;
      MadeByRun(max, actions[..n], before, i);
      RunKeepsInv(Initial(max), actions[..n]);
      MadeNext(before, actions[..n], actions[n], i);
      assert actions == actions[..n] + [actions[n]];
    }
  }

  /** The cause that a settled command reports is what the actions of the run supplied. */
  predicate CauseSupplied(cause: Cause, actions: seq<Action>, i: nat, ticket: bool) {
    match cause
    case CircuitOpen => DeniedBy(actions, i) && !ticket
    case MaxConcurrency => !DeniedBy(actions, i) && ResultOf(actions, i) == None && !ticket
    case RunFailed => ResultOf(actions, i) == Some(true) && ticket
    case Succeeded => ResultOf(actions, i) == Some(false) && ticket
    case TimedOut => TimeoutOf(actions, i) == Some(true)
    case Cancelled => TimeoutOf(actions, i) == Some(false)
  }

  /** In every run: a settled command's first event is a cause that its actions supplied; if
      that is success there is no other event and no error; and otherwise its fallback was
      tried, and a fallback that returned leaves its success event and no error, one that
      failed its failure event and one error, and a missing one just the error. */
  lemma OutcomeIsSupplied(max: nat, actions: seq<Action>, s: State, i: nat)
    requires Run(Initial(max), actions) == Some(s) && i < |s.commands| && s.commands[i].once.Done?
    ensures var c := s.commands[i];
      && c.events != [] && c.events[0].Settling? && CauseSupplied(c.events[0].cause, actions, i, c.ticket)
      && (c.events[0].cause.Succeeded? ==> c.events[1..] == [] && c.errors == 0)
      && (!c.events[0].cause.Succeeded? ==>
            && FallbackOf(actions, i).Some?
            && (c.events[1..] == [FallbackSuccess] && c.errors == 0 <==> FallbackOf(actions, i) == Some(FallbackReturns))
            && (c.events[1..] == [FallbackFailure] && c.errors == 1 <==> FallbackOf(actions, i) == Some(FallbackFails))
            && (c.events[1..] == [] && c.errors == 1 <==> FallbackOf(actions, i) == Some(NoFallback)))
  {
    RunKeepsInv(Initial(max), actions);
    MadeByRun(max, actions, s, i);
    assert CommandOk(s.commands[i]);
  }

  // ---- the executor pool itself, while nobody else runs: what it does are steps of the protocol ----

  lemma ReachableRun(max: nat, s: State, actions: seq<Action>)
    requires Reachable(max, s) && Run(s, actions).Some?
    ensures Reachable(max, Run(s, actions).value)
  {
    var before: seq<Action> :| Run(Initial(max), before) == Some(s);
    RunConcat(Initial(max), before, actions);
    assert Run(Initial(max), before + actions) == Run(s, actions);
  }

  /** ActiveCount reports the tickets that commands hold. */
  lemma ActiveCountIsHeld(max: nat, s: State)
    requires Reachable(max, s)
    ensures 0 <= s.pool.max - s.pool.free == Sum(s.commands, Holds)
  {
    ReachableInv(max, s);
    SumNonNegative(s.commands, Holds);
  }

  /** The goroutine whose step is a stands before Return in returnTicket, of a command that
      has a ticket or has none. */
  predicate AboutToReturn(s: State, a: Action, ticket: bool) {
    && (a.WorkerStep? || a.WatcherStep?) && a.i < |s.commands|
    && var c := s.commands[a.i];
    && c.checked && c.ticket == ticket
    && (if a.WorkerStep? then c.worker.WorkerInOnce? && c.worker.body.ReturningTicket?
        else c.watcher.WatcherInOnce? && c.watcher.body.ReturningTicket?)
  }

  /** What Return does: nothing for nil; otherwise, once the metrics goroutine is ready, the
      update and the ticket. */
  function ReturnSteps(s: State, a: Action, ticket: bool): seq<Action> {
    if !ticket then [a] else (if s.pool.monitoring then [Monitor] else []) + [a, a]
  }

  lemma OneStep(s: State, a: Action)
    ensures Run(s, [a]) == Step(s, a)
  {
    assert [a][1..] == [];
  }

  lemma StepThen(s: State, a: Action, more: seq<Action>)
    requires Step(s, a).Some?
    ensures Run(s, [a] + more) == Run(Step(s, a).value, more)
  {
    assert ([a] + more)[1..] == more;
  }

  /** The update for the metrics and the ticket. */
  lemma TicketRuns(s: State, a: Action)
    requires AboutToReturn(s, a, true) && !s.pool.monitoring && s.pool.free < s.pool.max
    ensures Run(s, [a, a]).Some?
    ensures Run(s, [a, a]).value.pool == s.pool.(free := s.pool.free + 1, monitoring := true)
  {
    var s' := Step(s, a).value;
    StepThen(s, a, [a]);
    OneStep(s', a);
    assert [a] + [a] == [a, a];
  }

  /** In a reachable state Return runs to its end. */
  lemma ReturnRuns(max: nat, s: State, a: Action, ticket: bool)
    requires Reachable(max, s) && AboutToReturn(s, a, ticket)
    ensures Run(s, ReturnSteps(s, a, ticket)).Some?
    ensures var s' := Run(s, ReturnSteps(s, a, ticket)).value;
      && s'.pool.free == s.pool.free + (if ticket then 1 else 0) <= max
      && (ticket ==> s.pool.free < max && s'.pool.monitoring) && (!ticket ==> s'.pool == s.pool)
  {
    ReachableInv(max, s);
    assert CommandOk(s.commands[a.i]);
    SumAtLeast(s.commands, a.i, Holds);
    hide Run;
    if !ticket {
      OneStep(s, a);
    } else if s.pool.monitoring {
      StepThen(s, Monitor, [a, a]);
      TicketRuns(Step(s, Monitor).value, a);
    } else {
      TicketRuns(s, a);
      assert [] + [a, a] == [a, a];
    }
  }

  /** pool.go's executorPool: a buffered channel of Max tickets, here their number. */
  class ExecutorPool {
    const Max: nat
    var Tickets: nat
    var updates: seq<int>      // sent on Metrics.Updates
    ghost var state: State     // the state of the protocol

    ghost predicate Valid()
      reads this
    {
      Reachable(Max, state) && state.pool.max == Max && state.pool.free == Tickets
    }

    constructor (max: nat)
      ensures Valid() && Max == max && state == Initial(max) && updates == []
    {
      Max := max;
      Tickets, updates, state := 0, [], Initial(max);
      new;
      for i := 0 to Max
        invariant Tickets == i && state == Initial(max) && updates == []
      {
        Tickets := Tickets + 1;
      }
      assert Run(Initial(max), []) == Some(Initial(max));
    }

    /** A step that neither takes nor returns a ticket. */
    ghost method Elsewhere(a: Action)
      requires Valid() && Step(state, a).Some? && Step(state, a).value.pool.free == Tickets
      modifies this`state
      ensures Valid() && Some(state) == Step(old(state), a)
    {
      ghost var s := state;
      ReachableInv(Max, s);
      StepKeepsInv(s, a);
      OneStep(s, a);
      ReachableRun(Max, s, [a]);
      state := Step(s, a).value;
    }

    /** GoC's select on Tickets for command i: a ticket unless commands hold them all. */
    method Select(i: nat) returns (ticket: bool)
      requires Valid() && i < |state.commands| && state.commands[i].worker.Acquiring?
      modifies this`Tickets, this`state
      ensures Valid() && Some(state) == Step(old(state), SelectTicket(i))
      ensures ticket == state.commands[i].ticket && (!ticket <==> Sum(old(state).commands, Holds) == Max)
    {
      ghost var s, a := state, SelectTicket(i);
      ticket := Tickets > 0;
      if ticket {
        Tickets := Tickets - 1;
      }
      ReachableInv(Max, s);
      StepKeepsInv(s, a);
      assert CommandOk(s.commands[i]);
      OneStep(s, a);
      ReachableRun(Max, s, [a]);
      state := Step(s, a).value;
    }

    /** Return, called by the goroutine whose steps are `a`.  It never blocks for good: the
        channel has room for the ticket of every command that holds one.  The metrics hear
        how many tickets commands held, and ActiveCount is what they hold then. */
    method Return(ticket: bool, ghost a: Action)
      requires Valid() && AboutToReturn(state, a, ticket)
      modifies this
      ensures Valid() && Run(old(state), ReturnSteps(old(state), a, ticket)) == Some(state)
      ensures updates == old(updates) + if ticket then [Sum(old(state).commands, Holds)] else []
      ensures ActiveCount() == Sum(state.commands, Holds)
    {
      ghost var s := state;
      ReturnRuns(Max, s, a, ticket);
      ReachableRun(Max, s, ReturnSteps(s, a, ticket));
      ActiveCountIsHeld(Max, s);
      state := Run(s, ReturnSteps(s, a, ticket)).value;
      ReachableInv(Max, state);
      ActiveCountIsHeld(Max, state);
      if !ticket {
        return;
      }
      updates := updates + [ActiveCount()];
      assert Tickets < Max;
      Tickets := Tickets + 1;
    }

    function ActiveCount(): int
      reads this
    {
      Max - Tickets
    }
  }
}
