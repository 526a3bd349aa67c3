/**
 The lifecycle of a run: compare-and-swap transitions between states by trusted actor categories.
 Time 0 is the zero timestamp.
 */
module RunLifecycle {
  import opened Base

  datatype State = Pending | Rejected | Admitted | Running | Completed | Failed | Cancelled | TimedOut
                 | BudgetExhausted | PausedForBudget | FailedBudget | UnknownState(text: string)

  datatype Actor = Caller | Worker | Governor | Operator | System | UnknownActor(name: string)

  datatype Lifecycle = Lifecycle(state: State, version: int, updatedAt: int, terminalAt: Option<int>)

  datatype Command = Command(to: State, actor: Actor, expectedVersion: int, at: int)

  datatype Failure = InvalidRun | InvalidState | InvalidActor | InvalidTime | VersionConflict | TerminalRun | NotAllowed | NotPermitted

  datatype Transitioned = Transitioned(next: Lifecycle, changed: bool)

  predicate Terminal(s: State) {
    s in {Rejected, Completed, Failed, Cancelled, TimedOut, FailedBudget}
  }

  predicate Valid(r: Lifecycle) {
    && !r.state.UnknownState? && r.version > 0 && r.updatedAt != 0
    && (Terminal(r.state) <==> r.terminalAt.Some?)
    && (r.terminalAt.Some? ==> r.terminalAt.value == r.updatedAt)
  }

  predicate TransitionAllowed(from: State, to: State) {
    match from
    case Pending => to in {Admitted, Rejected}
    case Admitted => to in {Running, Cancelled, TimedOut}
    case Running => to in {Completed, Failed, Cancelled, TimedOut, BudgetExhausted}
    case BudgetExhausted => to in {PausedForBudget, FailedBudget}
    case PausedForBudget => to in {Running, Cancelled, TimedOut}
    case _ => false
  }

  predicate ActorAllowed(from: State, to: State, actor: Actor) {
    if from == Pending then actor == System
    else if from == Admitted && to == Running then actor == Worker
    else if to == Completed || to == Failed then actor == Worker
    else if to == Cancelled then actor in {Caller, Operator, System}
    else if to in {TimedOut, BudgetExhausted, FailedBudget} then actor in {Governor, System}
    else if from == BudgetExhausted && to == PausedForBudget then actor == Governor
    else if from == PausedForBudget && to == Running then actor == Governor
    else false
  }

  predicate ActorCanEstablishTerminal(actor: Actor, state: State) {
    match state
    case Rejected => actor == System
    case Completed => actor == Worker
    case Failed => actor == Worker
    case Cancelled => actor in {Caller, Operator, System}
    case TimedOut => actor in {Governor, System}
    case FailedBudget => actor in {Governor, System}
    case _ => false
  }

  function Transition(r: Lifecycle, c: Command): Result<Transitioned, Failure> {
    if !Valid(r) then Err(InvalidRun)
    else if c.to.UnknownState? then Err(InvalidState)
    else if c.actor.UnknownActor? then Err(InvalidActor)
    else if c.at == 0 || c.at < r.updatedAt then Err(InvalidTime)
    else if c.expectedVersion <= 0 then Err(VersionConflict)
    else if Terminal(r.state) then
      if r.state == c.to && ActorCanEstablishTerminal(c.actor, c.to) then Ok(Transitioned(r, false)) else Err(TerminalRun)
    else if c.expectedVersion != r.version then Err(VersionConflict)
    else if !TransitionAllowed(r.state, c.to) then Err(NotAllowed)
    else if !ActorAllowed(r.state, c.to, c.actor) then Err(NotPermitted)
    else if r.version == MaxInt64 then Err(VersionConflict)
    else Ok(Transitioned(Lifecycle(c.to, r.version + 1, c.at, if Terminal(c.to) then Some(c.at) else None), true))
  }

  /** The documented moves: from where, to where, and by whom. */
  const Documented: set<(State, State, Actor)> := {
    (Pending, Admitted, System), (Pending, Rejected, System),
    (Admitted, Running, Worker),
    (Admitted, Cancelled, Caller), (Admitted, Cancelled, Operator), (Admitted, Cancelled, System),
    (Running, Cancelled, Caller), (Running, Cancelled, Operator), (Running, Cancelled, System),
    (PausedForBudget, Cancelled, Caller), (PausedForBudget, Cancelled, Operator), (PausedForBudget, Cancelled, System),
    (Admitted, TimedOut, Governor), (Admitted, TimedOut, System),
    (Running, TimedOut, Governor), (Running, TimedOut, System),
    (PausedForBudget, TimedOut, Governor), (PausedForBudget, TimedOut, System),
    (Running, Completed, Worker), (Running, Failed, Worker),
    (Running, BudgetExhausted, Governor), (Running, BudgetExhausted, System),
    (BudgetExhausted, PausedForBudget, Governor),
    (BudgetExhausted, FailedBudget, Governor), (BudgetExhausted, FailedBudget, System),
    (PausedForBudget, Running, Governor) }

  /** The two switches together allow exactly the documented moves. */
  lemma MovesAreDocumented(from: State, to: State, actor: Actor)
    ensures TransitionAllowed(from, to) && ActorAllowed(from, to, actor) <==> (from, to, actor) in Documented
  {
  }

  /** A command changes a run exactly as a documented move, at its expected version and not before its last update. */
  lemma ChangesIffDocumented(r: Lifecycle, c: Command)
    requires Valid(r) && r.version <= MaxInt64
    ensures Changes(r, c) <==>
            (r.state, c.to, c.actor) in Documented && c.expectedVersion == r.version < MaxInt64 && c.at != 0 && c.at >= r.updatedAt
    ensures Changes(r, c) ==>
            Step(r, c) == Lifecycle(c.to, r.version + 1, c.at,
                                    if c.to in {Rejected, Completed, Failed, Cancelled, TimedOut, FailedBudget} then Some(c.at) else None)
    ensures !Changes(r, c) ==> Step(r, c) == r
  {
    MovesAreDocumented(r.state, c.to, c.actor);
  }

  /** Rejected commands leave the stored lifecycle as it was. */
  function Step(r: Lifecycle, c: Command): Lifecycle {
    var t := Transition(r, c);
    if t.Ok? then t.value.next else r
  }

  predicate Changes(r: Lifecycle, c: Command) {
    var t := Transition(r, c);
    t.Ok? && t.value.changed
  }

  function Run(r: Lifecycle, commands: seq<Command>): Lifecycle
    decreases |commands|
  {
    if commands == [] then r
    else Step(Run(r, commands[..|commands| - 1]), commands[|commands| - 1])
  }

  function ChangeCount(r: Lifecycle, commands: seq<Command>): nat
    decreases |commands|
  {
    if commands == [] then 0
    else
      var before := commands[..|commands| - 1];
      ChangeCount(r, before) + if Changes(Run(r, before), commands[|commands| - 1]) then 1 else 0
  }

  /** The i-th command of the run changed the state. */
  predicate ChangesAt(r: Lifecycle, commands: seq<Command>, i: int) {
    0 <= i < |commands| && Changes(Run(r, commands[..i]), commands[i])
  }

  lemma PrefixOfPrefix(commands: seq<Command>, i: int)
    requires 0 <= i < |commands|
    ensures commands[..i + 1][..i] == commands[..i] && commands[..i + 1][i] == commands[i]
  {
  }

  lemma RunExtends(r: Lifecycle, commands: seq<Command>, i: int)
    requires 0 <= i < |commands|
    ensures Run(r, commands[..i + 1]) == Step(Run(r, commands[..i]), commands[i])
    ensures Run(r, commands[..i]).version <= Run(r, commands[..i + 1]).version
  {
    PrefixOfPrefix(commands, i);
  }

  /** Every run keeps the lifecycle valid, its clock monotone, and one version per change. */
  lemma {:induction false} RunKeepsValid(r: Lifecycle, commands: seq<Command>)
    requires Valid(r)
    ensures Valid(Run(r, commands)) && Run(r, commands).updatedAt >= r.updatedAt
    ensures Run(r, commands).updatedAt != 0 && !Run(r, commands).state.UnknownState?
    ensures Run(r, commands).terminalAt == if Terminal(Run(r, commands).state) then Some(Run(r, commands).updatedAt) else None
    ensures Run(r, commands).version == r.version + ChangeCount(r, commands)
    ensures r.version <= MaxInt64 ==> Run(r, commands).version <= MaxInt64
    decreases |commands|
  {
    if commands != [] { RunKeepsValid(r, commands[..|commands| - 1]); }
  }

  lemma {:induction false} VersionsGrow(r: Lifecycle, commands: seq<Command>, i: int, j: int)
    requires Valid(r) && 0 <= i <= j <= |commands|
    ensures Run(r, commands[..i]).version <= Run(r, commands[..j]).version
    decreases j - i
  {
    if i < j {
      VersionsGrow(r, commands, i, j - 1);
      RunExtends(r, commands, j - 1);
    }
  }

  /** Of all commands with one expected version, at most one changes the run. */
  lemma AtMostOneChangePerVersion(r: Lifecycle, commands: seq<Command>, i: int, j: int)
    requires Valid(r) && ChangesAt(r, commands, i) && ChangesAt(r, commands, j)
    requires commands[i].expectedVersion == commands[j].expectedVersion
    ensures i == j
  {
    if i < j {
      PrefixOfPrefix(commands, i);
      VersionsGrow(r, commands, i + 1, j);
    } else if j < i {
      PrefixOfPrefix(commands, j);
      VersionsGrow(r, commands, j + 1, i);
    }
  }

  lemma {:induction false} TerminalIsAbsorbing(r: Lifecycle, commands: seq<Command>)
    requires Terminal(r.state)
    ensures Run(r, commands) == r && ChangeCount(r, commands) == 0
    decreases |commands|
  {
    if commands != [] { TerminalIsAbsorbing(r, commands[..|commands| - 1]); }
  }

  /** The i-th command moved the run from one given state to another, by the given actor. */
  predicate Moves(r: Lifecycle, commands: seq<Command>, i: int, from: State, to: State, actor: Actor) {
    ChangesAt(r, commands, i) && Run(r, commands[..i]).state == from && commands[i].to == to && commands[i].actor == actor
  }

  lemma MovesExtends(r: Lifecycle, commands: seq<Command>, i: int, from: State, to: State, actor: Actor)
    requires |commands| > 0 && Moves(r, commands[..|commands| - 1], i, from, to, actor)
    ensures Moves(r, commands, i, from, to, actor)
  {
    assert commands[..|commands| - 1][..i] == commands[..i];
  }

  lemma StepWithoutChange(r: Lifecycle, c: Command)
    ensures if Changes(r, c) then Step(r, c).state == c.to else Step(r, c) == r
  {
  }

  lemma {:induction false} EnteredByMove(r: Lifecycle, commands: seq<Command>) returns (i: nat, from: State, actor: Actor)
    requires r.state == Pending && Run(r, commands).state != Pending
    ensures Moves(r, commands, i, from, Run(r, commands).state, actor)
    ensures forall j :: i < j < |commands| ==> !ChangesAt(r, commands, j)
    decreases |commands|
  {
    var n := |commands| - 1;
    var before := Run(r, commands[..n]);
    StepWithoutChange(before, commands[n]);
    if Changes(before, commands[n]) {
      i, from, actor := n, before.state, commands[n].actor;
    } else {
      i, from, actor := EnteredByMove(r, commands[..n]);
      MovesExtends(r, commands, i, from, before.state, actor);
      forall j | i < j < |commands| ensures !ChangesAt(r, commands, j) {
        if j < n { assert commands[..n][..j] == commands[..j] && !ChangesAt(r, commands[..n], j); }
      }
    }
  }

  lemma MoveIsAllowed(r: Lifecycle, commands: seq<Command>, i: int, from: State, to: State, actor: Actor)
    requires Moves(r, commands, i, from, to, actor)
    ensures TransitionAllowed(from, to) && ActorAllowed(from, to, actor)
  {
  }

  /** Whatever state a run is in, it got there by a documented move, and nothing has changed it since. */
  lemma EnteredByDocumentedMove(r: Lifecycle, commands: seq<Command>) returns (i: nat, from: State, actor: Actor)
    requires r.state == Pending && Run(r, commands).state != Pending
    ensures Moves(r, commands, i, from, Run(r, commands).state, actor) && (from, Run(r, commands).state, actor) in Documented
    ensures forall j :: i < j < |commands| ==> !ChangesAt(r, commands, j)
  {
    i, from, actor := EnteredByMove(r, commands);
    MoveIsAllowed(r, commands, i, from, Run(r, commands).state, actor);
    MovesAreDocumented(from, Run(r, commands).state, actor);
  }

  /** Work has begun: the run is in a state only reachable after a worker started it. */
  predicate Started(s: State) {
    s in {Running, Completed, Failed, BudgetExhausted, PausedForBudget, FailedBudget}
  }

  lemma {:induction false} StartedByWorker(r: Lifecycle, commands: seq<Command>) returns (i: nat)
    requires Valid(r) && r.state == Pending && Started(Run(r, commands).state)
    ensures Moves(r, commands, i, Admitted, Running, Worker)
    decreases |commands|
  {
    var n := |commands| - 1;
    if Started(Run(r, commands[..n]).state) {
      i := StartedByWorker(r, commands[..n]);
      MovesExtends(r, commands, i, Admitted, Running, Worker);
    } else {
      i := n;
    }
  }

  /** A completed run was started by a worker and, later, completed by a worker. */
  lemma {:induction false} CompletedByWorker(r: Lifecycle, commands: seq<Command>) returns (i: nat, j: nat)
    requires Valid(r) && r.state == Pending && Run(r, commands).state == Completed
    ensures i < j && Moves(r, commands, i, Admitted, Running, Worker) && Moves(r, commands, j, Running, Completed, Worker)
    decreases |commands|
  {
    var n := |commands| - 1;
    if Run(r, commands[..n]).state == Completed {
      i, j := CompletedByWorker(r, commands[..n]);
      MovesExtends(r, commands, i, Admitted, Running, Worker);
      MovesExtends(r, commands, j, Running, Completed, Worker);
    } else {
      j := n;
      i := StartedByWorker(r, commands[..n]);
      MovesExtends(r, commands, i, Admitted, Running, Worker);
    }
  }

  /** The actor could have moved some live run into this terminal state. */
  ghost predicate CanEstablish(actor: Actor, to: State) {
    exists from :: TransitionAllowed(from, to) && ActorAllowed(from, to, actor)
  }

  /** A command on a terminal run succeeds exactly as a timely replay by an actor able to establish that state. */
  lemma ReplayIffCanEstablish(r: Lifecycle, c: Command)
    requires Valid(r) && Terminal(r.state)
    ensures Transition(r, c).Ok? <==>
            c.to == r.state && c.at != 0 && c.at >= r.updatedAt && c.expectedVersion > 0 && CanEstablish(c.actor, c.to)
    ensures Transition(r, c).Ok? ==> Transition(r, c).value == Transitioned(r, false)
  {
    var from := match r.state
      case Rejected => Pending
      case FailedBudget => BudgetExhausted
      case _ => Running;
    assert ActorCanEstablishTerminal(c.actor, r.state) ==> TransitionAllowed(from, r.state) && ActorAllowed(from, r.state, c.actor);
    if c.to == r.state && CanEstablish(c.actor, c.to) {
      var f :| TransitionAllowed(f, c.to) && ActorAllowed(f, c.to, c.actor);
      assert ActorCanEstablishTerminal(c.actor, c.to);
    }
  }
}
