/**
 The train controller (client/main/train_controller/train_controller_task.cpp) and the motor task's command loop
 (client/main/motor/tasks/motor_task.cpp), joined by one-slot mailboxes (client/main/rtos/mailbox.hpp) that a new
 message overwrites. The TCP task and the NFC task write to the same mailboxes at any time.

 Both loops are endless, so a run is any sequence of atomic actions; an action that would block changes nothing.
 */
module TrainController {
  import opened Wrappers
  import Runs
  import opened Motor

  datatype Controller = AwaitingTarget | AwaitingRail(target: nat)

  /** Where the motor task is: blocked on its mailbox, holding a command, or done switching and ramping. */
  datatype MotorTask = Blocked | Received(command: Command) | Ramping(command: Command)

  /** A command the controller sent: for which target, and after reading which rail, if any. */
  datatype Event = Event(target: nat, rail: Option<nat>, command: Command)

  /** `lastCommand` and `log` are history. */
  datatype State = State(
    stationTarget: Option<nat>,
    currentRail: Option<nat>,
    motorCommand: Option<Command>,
    controller: Controller,
    motor: MotorTask,
    active: bool,
    lastCommand: Option<Command>,
    log: seq<Event>)

  const INIT := State(None, None, None, AwaitingTarget, Blocked, true, None, [])

  const START := Command(600, 1023, 7500, true)

  datatype Action =
    | WriteTarget(rail: nat)
    | WriteRail(rail: nat)
    | WriteCommand(command: Command)
    | ControllerStep
    | MotorStep

  function SendCommand(s: State, c: Command): State {
    s.(motorCommand := Some(c), lastCommand := Some(c))
  }

  function ControllerSends(s: State, target: nat, rail: Option<nat>, c: Command): State {
    SendCommand(s, c).(log := s.log + [Event(target, rail, c)])
  }

  function ControllerMove(s: State): State {
    match s.controller
    case AwaitingTarget =>
      if s.stationTarget.None? then s
      else
        var target := s.stationTarget.value;
        ControllerSends(s, target, None, START).(stationTarget := None, controller := AwaitingRail(target))
    case AwaitingRail(target) =>
      if s.currentRail.None? then s
      else if s.currentRail.value != target then s.(currentRail := None)
      else ControllerSends(s, target, s.currentRail, STOP).(currentRail := None, controller := AwaitingTarget)
  }

  function MotorMove(s: State): State {
    match s.motor
    case Blocked =>
      if s.motorCommand.None? then s else s.(motor := Received(s.motorCommand.value), motorCommand := None)
    case Received(c) => s.(active := c.isActive, motor := Ramping(c))
    case Ramping(_) => s.(motor := Blocked)
  }

  function Step(s: State, a: Action): State {
    match a
    case WriteTarget(rail) => s.(stationTarget := Some(rail))
    case WriteRail(rail) => s.(currentRail := Some(rail))
    case WriteCommand(c) => SendCommand(s, c)
    case ControllerStep => ControllerMove(s)
    case MotorStep => MotorMove(s)
  }

  function Run(s: State, actions: seq<Action>): State {
    Runs.Run(Step, s, actions)
  }

  ghost predicate Reachable(s: State) {
    exists actions :: s == Run(INIT, actions)
  }

  /** An even entry is a start; an odd one stops for the target of the start before it, on reading that very rail. */
  ghost predicate InOrder(log: seq<Event>, i: nat)
    requires i < |log|
  {
    if i % 2 == 0 then log[i].command == START && log[i].rail.None?
    else log[i].command == STOP && log[i].rail == Some(log[i].target) && log[i - 1].target == log[i].target
  }

  ghost predicate Alternates(log: seq<Event>) {
    forall i: nat :: i < |log| ==> InOrder(log, i)
  }

  ghost predicate LogInv(s: State) {
    && Alternates(s.log)
    && match s.controller
       case AwaitingTarget => |s.log| % 2 == 0
       case AwaitingRail(target) => |s.log| % 2 == 1 && s.log[|s.log| - 1].target == target
  }

  /** A command not yet received is the last one written; once the mailbox is empty, the motor task has it. */
  ghost predicate MailboxInv(s: State) {
    && (s.motorCommand.Some? ==> s.lastCommand == s.motorCommand)
    && (s.lastCommand.Some? && s.motorCommand.None? ==>
          match s.motor
          case Blocked => s.active == s.lastCommand.value.isActive
          case Received(c) => c == s.lastCommand.value
          case Ramping(c) => c == s.lastCommand.value && s.active == c.isActive)
  }

  lemma OneMoreEvent(log: seq<Event>, e: Event)
    requires Alternates(log) && InOrder(log + [e], |log|)
    ensures Alternates(log + [e])
  {
    forall i: nat | i < |log| ensures InOrder(log + [e], i) {
      assert InOrder(log, i);
    }
  }

  lemma StepKeepsInv(s: State, a: Action)
    requires LogInv(s) && MailboxInv(s)
    ensures LogInv(Step(s, a)) && MailboxInv(Step(s, a))
  {
    if a.ControllerStep? {
      match s.controller
      case AwaitingTarget =>
        if s.stationTarget.Some? {
          OneMoreEvent(s.log, Event(s.stationTarget.value, None, START));
        }
      case AwaitingRail(target) =>
        if s.currentRail == Some(target) {
          OneMoreEvent(s.log, Event(target, s.currentRail, STOP));
        }
    }
  }

  lemma {:induction false} InvHolds(s: State, actions: seq<Action>)
    requires LogInv(s) && MailboxInv(s)
    ensures LogInv(Run(s, actions)) && MailboxInv(Run(s, actions))
    decreases |actions|
  {
    if actions != [] {
      StepKeepsInv(s, actions[0]);
      InvHolds(Step(s, actions[0]), actions[1..]);
    }
  }

  /** In every run starts and stops alternate, each stop on its own target rail. */
  lemma StartsAndStopsAlternate(s: State)
    requires Reachable(s)
    ensures Alternates(s.log)
  {
    var actions :| s == Run(INIT, actions);
    InvHolds(INIT, actions);
  }

  /** Whenever the motor task is blocked on an empty mailbox, the motor is as the last command written asked. */
  lemma LastCommandWins(s: State)
    requires Reachable(s) && s.motor == Blocked && s.motorCommand.None? && s.lastCommand.Some?
    ensures s.active == s.lastCommand.value.isActive
  {
    var actions :| s == Run(INIT, actions);
    InvHolds(INIT, actions);
  }

  // ----- every start has its own target -----

  /** The targets written in a run, oldest first. */
  function Written(actions: seq<Action>): seq<nat> {
    if actions == [] then []
    else
      var last := actions[|actions| - 1];
      Written(actions[..|actions| - 1]) + (if last.WriteTarget? then [last.rail] else [])
  }

  /** The targets of the starts in a log, oldest first. */
  function Started(log: seq<Event>): seq<nat> {
    if log == [] then []
    else
      var last := log[|log| - 1];
      Started(log[..|log| - 1]) + (if last.command == START then [last.target] else [])
  }

  /** The elements of `xs` occur among those of `ys`, each in a place of its own and in the same order. */
  predicate Subsequence(xs: seq<nat>, ys: seq<nat>)
    decreases |ys|
  {
    || xs == []
    || (ys != [] &&
        var front := ys[..|ys| - 1];
        || Subsequence(xs, front)
        || (xs[|xs| - 1] == ys[|ys| - 1] && Subsequence(xs[..|xs| - 1], front)))
  }

  lemma {:induction false} FrontIsSubsequence(xs: seq<nat>, x: nat, ys: seq<nat>)
    requires Subsequence(xs + [x], ys)
    ensures Subsequence(xs, ys)
    decreases |ys|
  {
    var front := ys[..|ys| - 1];
    assert (xs + [x])[..|xs|] == xs;
    if Subsequence(xs + [x], front) {
      FrontIsSubsequence(xs, x, front);
    }
  }

  lemma SubsequenceGrows(xs: seq<nat>, ys: seq<nat>, y: nat)
    requires Subsequence(xs, ys)
    ensures Subsequence(xs, ys + [y]) && Subsequence(xs + [y], ys + [y])
  {
    assert (ys + [y])[..|ys|] == ys && (xs + [y])[..|xs|] == xs;
  }

  /** The targets already used, and then the one waiting in the mailbox. */
  function Used(s: State): seq<nat> {
    Started(s.log) + (if s.stationTarget.Some? then [s.stationTarget.value] else [])
  }

  lemma OneMoreStarted(log: seq<Event>, e: Event)
    ensures Started(log + [e]) == Started(log) + (if e.command == START then [e.target] else [])
  {
    assert (log + [e])[..|log|] == log;
  }

  lemma ControllerKeepsUsed(s: State)
    ensures Used(ControllerMove(s)) == Used(s)
  {
    match s.controller
    case AwaitingTarget =>
      if s.stationTarget.Some? {
        OneMoreStarted(s.log, Event(s.stationTarget.value, None, START));
      }
    case AwaitingRail(target) =>
      OneMoreStarted(s.log, Event(target, s.currentRail, STOP));
  }

  lemma TargetIsReplaced(started: seq<nat>, waiting: Option<nat>, written: seq<nat>, rail: nat)
    requires Subsequence(started + (if waiting.Some? then [waiting.value] else []), written)
    ensures Subsequence(started + [rail], written + [rail])
  {
    if waiting.Some? {
      FrontIsSubsequence(started, waiting.value, written);
    } else {
      assert started + [] == started;
    }
    SubsequenceGrows(started, written, rail);
  }

  lemma StepUsesTargets(s: State, a: Action, written: seq<nat>)
    requires Subsequence(Used(s), written)
    ensures Subsequence(Used(Step(s, a)), if a.WriteTarget? then written + [a.rail] else written)
  {
    match a
    case WriteTarget(rail) => TargetIsReplaced(Started(s.log), s.stationTarget, written, rail);
    case ControllerStep => ControllerKeepsUsed(s);
    case _ => assert Used(Step(s, a)) == Used(s);
  }

  /**
   Every start uses up a target of its own: over any run the targets of the starts, and the one still waiting, are
   written targets in the order of writing, none of them twice.
   */
  lemma {:induction false} StartsUseUpTargets(actions: seq<Action>)
    ensures Subsequence(Used(Run(INIT, actions)), Written(actions))
    decreases |actions|
  {
    if actions != [] {
      var n := |actions| - 1;
      Runs.RunLast(Step, INIT, actions);
      StartsUseUpTargets(actions[..n]);
      StepUsesTargets(Run(INIT, actions[..n]), actions[n], Written(actions[..n]));
      assert Written(actions[..n]) + [] == Written(actions[..n]);
    }
  }

  // ----- commands reach the motor -----

  const MOTOR_ALONE := [MotorStep, MotorStep, MotorStep, MotorStep] + [MotorStep]

  lemma FiveMoves(s: State)
    ensures Run(s, MOTOR_ALONE) == MotorMove(MotorMove(MotorMove(MotorMove(MotorMove(s)))))
  {
    var a := MotorStep;
    Runs.RunAppends(Step, s, [a, a, a, a], [a]);
    Runs.FourSteps(Step, s, a, a, a, a);
    Runs.OneStep(Step, Step(Step(Step(Step(s, a), a), a), a), a);
  }

  /** The motor task left to itself soon is blocked on an empty mailbox, having obeyed the command that was in it. */
  lemma MotorCatchesUp(s: State)
    ensures var end := Run(s, MOTOR_ALONE);
            && end.motor == Blocked && end.motorCommand.None?
            && (s.motorCommand.Some? ==> end.active == s.motorCommand.value.isActive)
            && end == s.(motor := Blocked, motorCommand := None, active := end.active)
  {
    FiveMoves(s);
    if !s.motor.Blocked? {
      var free := if s.motor.Received? then MotorMove(MotorMove(s)) else MotorMove(s);
      assert free.motor == Blocked && free.motorCommand == s.motorCommand;
    }
  }

  /** What a message in a mailbox, one look of the controller and the motor task make of each other. */
  lemma LookAndMove(s: State, write: Action)
    ensures Run(s, [write, ControllerStep] + MOTOR_ALONE) == Run(ControllerMove(Step(s, write)), MOTOR_ALONE)
  {
    Runs.RunAppends(Step, s, [write, ControllerStep], MOTOR_ALONE);
    Runs.TwoSteps(Step, s, write, ControllerStep);
  }

  /** A whole journey: a target starts the motor of a waiting train, and scanning the target stops it. */
  lemma JourneyDrivesTheMotor(s: State, target: nat)
    requires s.controller == AwaitingTarget
    ensures var under := Run(s, [WriteTarget(target), ControllerStep] + MOTOR_ALONE);
            var end := Run(under, [WriteRail(target), ControllerStep] + MOTOR_ALONE);
            && under.active && under.lastCommand == Some(START) && under.controller == AwaitingRail(target)
            && !end.active && end.lastCommand == Some(STOP) && end.controller == AwaitingTarget
  {
    LookAndMove(s, WriteTarget(target));
    MotorCatchesUp(ControllerMove(Step(s, WriteTarget(target))));
    var under := Run(s, [WriteTarget(target), ControllerStep] + MOTOR_ALONE);
    LookAndMove(under, WriteRail(target));
    MotorCatchesUp(ControllerMove(Step(under, WriteRail(target))));
  }

  // ----- a station can be missed -----

  function Writes(rails: seq<nat>): seq<Action> {
    seq(|rails|, i requires 0 <= i < |rails| => WriteRail(rails[i]))
  }

  lemma {:induction false} LastWriteStays(s: State, rails: seq<nat>)
    ensures Run(s, Writes(rails)) == if rails == [] then s else s.(currentRail := Some(rails[|rails| - 1]))
    decreases |rails|
  {
    if rails != [] {
      assert Writes(rails)[1..] == Writes(rails[1..]);
      LastWriteStays(s.(currentRail := Some(rails[0])), rails[1..]);
    }
  }

  /**
   The rails scanned before the controller looks overwrite each other, so a controller waiting for a target stops at its
   next look exactly when the target is the last rail scanned, not whenever it is among them.
   */
  lemma StopsAtLookIff(s: State, rails: seq<nat>)
    requires s.controller.AwaitingRail? && rails != []
    ensures ControllerMove(Run(s, Writes(rails))).controller == AwaitingTarget <==>
            rails[|rails| - 1] == s.controller.target
  {
    LastWriteStays(s, rails);
  }

  /** That does happen: the train runs over its target, and the next rail is scanned before the controller looks. */
  lemma MissesItsStation(target: nat, next: nat)
    requires next != target
    ensures var s := Run(INIT, [WriteTarget(target), ControllerStep] + Writes([target, next]));
            s.controller == AwaitingRail(target) && ControllerMove(s) == s.(currentRail := None)
  {
    Runs.TwoSteps(Step, INIT, WriteTarget(target), ControllerStep);
    Runs.RunAppends(Step, INIT, [WriteTarget(target), ControllerStep], Writes([target, next]));
    LastWriteStays(Run(INIT, [WriteTarget(target), ControllerStep]), [target, next]);
  }

  // ----- a start does not empty the rail mailbox -----

  /** Without a scan of its target, a controller that finds no target in the mailbox keeps waiting. */
  lemma {:induction false} WaitsForItsRail(s: State, target: nat, actions: seq<Action>)
    requires s.controller == AwaitingRail(target) && s.currentRail != Some(target) && WriteRail(target) !in actions
    ensures Run(s, actions).controller == AwaitingRail(target) && Run(s, actions).log == s.log
    decreases |actions|
  {
    if actions != [] {
      assert actions[0] in actions;
      WaitsForItsRail(Step(s, actions[0]), target, actions[1..]);
    }
  }

  /**
   A train that just started for a target can stop without scanning the target again if and only if the mailbox still
   held it from before the start; otherwise every stop follows a scan of the target made since the start.
   */
  lemma StopsUnscannedIff(s: State, target: nat)
    requires s.controller == AwaitingTarget && s.stationTarget == Some(target)
    ensures s.currentRail == Some(target) <==>
            exists actions ::
              WriteRail(target) !in actions && |Run(ControllerMove(s), actions).log| > |ControllerMove(s).log|
  {
    var started := ControllerMove(s);
    if s.currentRail == Some(target) {
      var actions := [ControllerStep];
      Runs.OneStep(Step, started, ControllerStep);
      assert WriteRail(target) !in actions && |Run(started, actions).log| > |started.log|;
    } else {
      forall actions | WriteRail(target) !in actions ensures Run(started, actions).log == started.log {
        WaitsForItsRail(started, target, actions);
      }
    }
  }

  /** That does happen: a rail scanned before the start stops the train at once. */
  lemma StopsOnAStaleRail(rail: nat)
    ensures Run(INIT, [WriteRail(rail), WriteTarget(rail), ControllerStep, ControllerStep]).log ==
            [Event(rail, None, START), Event(rail, Some(rail), STOP)]
  {
    Runs.FourSteps(Step, INIT, WriteRail(rail), WriteTarget(rail), ControllerStep, ControllerStep);
  }
}
