/**
  The drive-by-wire node: three last-write-wins slots (the drive-by-wire
  enable flag, the current velocity, the target velocity) filled by
  callbacks, and a loop that on each tick runs the controller once both
  velocities are known and publishes its command only while drive-by-wire
  is enabled and the controller vouches for its output.
*/
module Dbw {
  import opened Options

  /** The two components of a velocity message the node reads. */
  datatype Twist = Twist(linearX: real, angularZ: real)

  /** The keyword arguments of one call of the controller. */
  datatype ControlRequest = ControlRequest(
    targetDx: real, targetDyaw: real, currentDx: real, currentDyaw: real, dbwStatus: bool)

  /** What the controller returns: throttle, brake, steering and whether the data was correct. */
  datatype ControlOutput = ControlOutput(throttle: real, brake: real, steering: real, correctData: bool)

  /**
    The controller as it answers on one tick. It keeps internal state between
    calls, so each tick receives its own function.
  */
  type ControlLaw = ControlRequest -> ControlOutput

  datatype PedalCmdType = CmdPercent | CmdTorque

  /** Messages on the throttle, steering and brake command topics. */
  datatype Command =
    | ThrottleCmd(enable: bool, pedalCmdType: PedalCmdType, pedalCmd: real)
    | SteeringCmd(enable: bool, steeringWheelAngleCmd: real)
    | BrakeCmd(enable: bool, pedalCmdType: PedalCmdType, pedalCmd: real)

  /** The node's three cached slots. */
  datatype Slots = Slots(dbwStatus: bool, heroVelocity: Option<Twist>, targetVelocity: Option<Twist>)

  /** The slots as the node starts: drive-by-wire off, no velocities yet. */
  const InitialSlots := Slots(false, None, None)

  /** What one tick does: the controller call it makes, if any, and the commands it publishes. */
  datatype TickResult = TickResult(request: Option<ControlRequest>, commands: seq<Command>)

  /** The three commands published for one accepted control output, in publication order. */
  function PublishedCommands(throttle: real, brake: real, steer: real): seq<Command>
  {
    [ThrottleCmd(true, CmdPercent, throttle),
     SteeringCmd(true, steer),
     BrakeCmd(true, CmdTorque, brake)]
  }

  datatype Topic = ThrottleTopic | SteeringTopic | BrakeTopic

  function TopicOf(c: Command): Topic
  {
    match c
    case ThrottleCmd(_, _, _) => ThrottleTopic
    case SteeringCmd(_, _) => SteeringTopic
    case BrakeCmd(_, _, _) => BrakeTopic
  }

  /** The number of commands in `cs` published on `topic`. */
  function CountOn(cs: seq<Command>, topic: Topic): nat
  {
    if cs == [] then 0 else (if TopicOf(cs[0]) == topic then 1 else 0) + CountOn(cs[1..], topic)
  }

  /**
    Publishing emits one command on each of the three topics, each enabled
    and carrying the given value unchanged.
  */
  lemma PublishEmitsOneOfEach(throttle: real, brake: real, steer: real)
    ensures var cs := PublishedCommands(throttle, brake, steer);
      (forall t :: CountOn(cs, t) == 1) &&
      (forall c :: c in cs ==> c.enable) &&
      (forall c :: c in cs && c.ThrottleCmd? ==> c.pedalCmdType == CmdPercent && c.pedalCmd == throttle) &&
      (forall c :: c in cs && c.SteeringCmd? ==> c.steeringWheelAngleCmd == steer) &&
      (forall c :: c in cs && c.BrakeCmd? ==> c.pedalCmdType == CmdTorque && c.pedalCmd == brake)
  {
    var cs := PublishedCommands(throttle, brake, steer);
    assert cs[1..] == [cs[1], cs[2]] && cs[1..][1..] == [cs[2]] && cs[1..][1..][1..] == [];
    forall t ensures CountOn(cs, t) == 1 {
      assert CountOn(cs[1..][1..][1..], t) == 0;
      assert CountOn(cs[1..][1..], t) == (if t == BrakeTopic then 1 else 0);
      assert CountOn(cs[1..], t) == (if t == ThrottleTopic then 0 else 1);
    }
  }

  /** One tick of the loop, on the slots as they are when it runs. */
  function TickStep(s: Slots, control: ControlLaw): (r: TickResult)
    ensures r.request.Some? <==> s.heroVelocity.Some? && s.targetVelocity.Some?
    ensures r.commands != [] <==>
      r.request.Some? && s.dbwStatus && control(r.request.value).correctData
    ensures r.commands != [] ==>
      var out := control(r.request.value);
      r.commands == PublishedCommands(out.throttle, out.brake, out.steering)
  {
    if s.heroVelocity.Some? && s.targetVelocity.Some? then
      var request := ControlRequest(
        targetDx := s.targetVelocity.value.linearX,
        targetDyaw := s.targetVelocity.value.angularZ,
        currentDx := s.heroVelocity.value.linearX,
        currentDyaw := s.heroVelocity.value.angularZ,
        dbwStatus := s.dbwStatus);
      var out := control(request);
      TickResult(Some(request), if s.dbwStatus && out.correctData then PublishedCommands(out.throttle, out.brake, out.steering) else [])
    else
      TickResult(None, [])
  }

  /** Safety: with drive-by-wire disabled a tick publishes nothing, whatever the slots and the controller. */
  lemma DisabledTickEmitsNothing(s: Slots, control: ControlLaw)
    requires !s.dbwStatus
    ensures TickStep(s, control).commands == []
  {
  }

  /** Without both velocities a tick neither runs the controller nor publishes. */
  lemma MissingVelocityTickIsSilent(s: Slots, control: ControlLaw)
    requires s.heroVelocity.None? || s.targetVelocity.None?
    ensures TickStep(s, control) == TickResult(None, [])
  {
  }

  /**
    The controller learns the drive-by-wire state: with both velocities
    known it is called even while drive-by-wire is disabled, and then
    receives `dbwStatus == false`, so it can reset its internal state.
  */
  lemma ControllerSeesDisabledStatus(s: Slots, control: ControlLaw)
    requires !s.dbwStatus && s.heroVelocity.Some? && s.targetVelocity.Some?
    ensures TickStep(s, control).request.Some?
    ensures !TickStep(s, control).request.value.dbwStatus
  {
  }

  /** The controller receives the target's linear x and angular z, then the current ones. */
  lemma ControllerArgumentOrder(s: Slots, control: ControlLaw)
    requires s.heroVelocity.Some? && s.targetVelocity.Some?
    ensures TickStep(s, control).request == Some(ControlRequest(
      s.targetVelocity.value.linearX, s.targetVelocity.value.angularZ,
      s.heroVelocity.value.linearX, s.heroVelocity.value.angularZ, s.dbwStatus))
  {
  }

  //------------------------------------------------------------------------
  // Runs: callbacks and ticks in sequence
  //------------------------------------------------------------------------

  /** A callback delivery or a loop tick, with the controller's behaviour on that tick. */
  datatype Event =
    | DbwEnabledMsg(data: bool)
    | CurrentVelocityMsg(twist: Twist)
    | TargetVelocityMsg(twist: Twist)
    | LoopTick(control: ControlLaw)

  /** The slots after an event: each callback overwrites its own slot; a tick changes none. */
  function Deliver(s: Slots, e: Event): (s': Slots)
    ensures e.DbwEnabledMsg? ==> s' == s.(dbwStatus := e.data)
    ensures e.CurrentVelocityMsg? ==> s' == s.(heroVelocity := Some(e.twist))
    ensures e.TargetVelocityMsg? ==> s' == s.(targetVelocity := Some(e.twist))
    ensures e.LoopTick? ==> s' == s
  {
    match e
    case DbwEnabledMsg(data) => s.(dbwStatus := data)
    case CurrentVelocityMsg(twist) => s.(heroVelocity := Some(twist))
    case TargetVelocityMsg(twist) => s.(targetVelocity := Some(twist))
    case LoopTick(_) => s
  }

  datatype RunResult = RunResult(final: Slots, calls: seq<ControlRequest>, emitted: seq<Command>)

  function RequestLog(request: Option<ControlRequest>): seq<ControlRequest>
  {
    match request
    case Some(r) => [r]
    case None => []
  }

  /**
    The slots, controller calls and published commands after a sequence of
    events. Each step is what the node's methods do: a message event is the
    `Deliver` of the matching callback (`DbwEnabledCb`, `CurrentVelocityCb`,
    `TargetVelocityCb` ensure exactly that of `Snapshot()`), and a tick is
    `TickStep`, whose request and commands `DbwNode.Tick` appends to its logs.
  */
  function Run(s: Slots, events: seq<Event>): RunResult
    decreases |events|
  {
    if events == [] then RunResult(s, [], [])
    else
      var step := if events[0].LoopTick? then TickStep(s, events[0].control) else TickResult(None, []);
      var rest := Run(Deliver(s, events[0]), events[1..]);
      RunResult(rest.final, RequestLog(step.request) + rest.calls, step.commands + rest.emitted)
  }

  /** The data of the last drive-by-wire message in `events`, or `d` if there is none. */
  function LastDbw(events: seq<Event>, d: bool): bool
  {
    if events == [] then d
    else if events[|events| - 1].DbwEnabledMsg? then events[|events| - 1].data
    else LastDbw(events[..|events| - 1], d)
  }

  /** The last current velocity in `events`, or `v` if there is none. */
  function LastCurrent(events: seq<Event>, v: Option<Twist>): Option<Twist>
  {
    if events == [] then v
    else if events[|events| - 1].CurrentVelocityMsg? then Some(events[|events| - 1].twist)
    else LastCurrent(events[..|events| - 1], v)
  }

  /** The last target velocity in `events`, or `v` if there is none. */
  function LastTarget(events: seq<Event>, v: Option<Twist>): Option<Twist>
  {
    if events == [] then v
    else if events[|events| - 1].TargetVelocityMsg? then Some(events[|events| - 1].twist)
    else LastTarget(events[..|events| - 1], v)
  }

  /** Scanning back over `[e] + rest` is scanning `rest` from the slots after `e`. */
  lemma {:induction false} LastOfCons(s: Slots, e: Event, rest: seq<Event>)
    ensures LastDbw([e] + rest, s.dbwStatus) == LastDbw(rest, Deliver(s, e).dbwStatus)
    ensures LastCurrent([e] + rest, s.heroVelocity) == LastCurrent(rest, Deliver(s, e).heroVelocity)
    ensures LastTarget([e] + rest, s.targetVelocity) == LastTarget(rest, Deliver(s, e).targetVelocity)
    decreases |rest|
  {
    if rest != [] {
      var events := [e] + rest;
      assert events[..|events| - 1] == [e] + rest[..|rest| - 1];
      assert events[|events| - 1] == rest[|rest| - 1];
      LastOfCons(s, e, rest[..|rest| - 1]);
    } else {
      assert ([e] + rest)[..0] == [];
    }
  }

  /**
    Last write wins over any run: each slot holds the data of the last
    message on its own topic, or its starting value if none arrived; ticks
    and messages on the other topics never change it.
  */
  lemma {:induction false} RunKeepsLatest(s: Slots, events: seq<Event>)
    ensures Run(s, events).final ==
      Slots(LastDbw(events, s.dbwStatus), LastCurrent(events, s.heroVelocity), LastTarget(events, s.targetVelocity))
    decreases |events|
  {
    if events != [] {
      RunKeepsLatest(Deliver(s, events[0]), events[1..]);
      assert events == [events[0]] + events[1..];
      LastOfCons(s, events[0], events[1..]);
    }
  }

  predicate NeverEnables(events: seq<Event>)
  {
    forall i :: 0 <= i < |events| ==> !(events[i].DbwEnabledMsg? && events[i].data)
  }

  /**
    Safety over a run: while drive-by-wire is disabled and no message enables
    it, nothing is ever published, whatever velocities arrive and whatever
    the controller answers.
  */
  lemma {:induction false} DisabledRunEmitsNothing(s: Slots, events: seq<Event>)
    requires !s.dbwStatus
    requires NeverEnables(events)
    ensures Run(s, events).emitted == []
    ensures !Run(s, events).final.dbwStatus
    decreases |events|
  {
    if events != [] {
      assert NeverEnables(events[1..]) by {
        forall i | 0 <= i < |events[1..]| ensures !(events[1..][i].DbwEnabledMsg? && events[1..][i].data) {
          assert events[1..][i] == events[i + 1];
        }
      }
      assert !(events[0].DbwEnabledMsg? && events[0].data);
      DisabledRunEmitsNothing(Deliver(s, events[0]), events[1..]);
    }
  }

  predicate NoCurrentVelocity(events: seq<Event>)
  {
    forall i :: 0 <= i < |events| ==> !events[i].CurrentVelocityMsg?
  }

  /**
    From the initial slots, as long as no current velocity has arrived, the
    controller is never called and nothing is published.
  */
  lemma {:induction false} NoVelocityRunIsSilent(s: Slots, events: seq<Event>)
    requires s.heroVelocity.None?
    requires NoCurrentVelocity(events)
    ensures Run(s, events).calls == [] && Run(s, events).emitted == []
    decreases |events|
  {
    if events != [] {
      assert NoCurrentVelocity(events[1..]) by {
        forall i | 0 <= i < |events[1..]| ensures !events[1..][i].CurrentVelocityMsg? {
          assert events[1..][i] == events[i + 1];
        }
      }
      assert !events[0].CurrentVelocityMsg?;
      NoVelocityRunIsSilent(Deliver(s, events[0]), events[1..]);
    }
  }

  /** The first tick of the node does nothing. */
  lemma InitialTickIsSilent(control: ControlLaw)
    ensures Run(InitialSlots, [LoopTick(control)]) == RunResult(InitialSlots, [], [])
  {
  }

  /**
    Hand-back of control: with both velocities cached and the controller
    vouching for its output, a tick while disabled publishes nothing, and the
    first tick after drive-by-wire is enabled publishes that tick's command.
  */
  lemma HandbackScenario(current: Twist, target: Twist, before: ControlLaw, after: ControlLaw)
    requires forall q :: before(q).correctData && after(q).correctData
    ensures
      var s := Slots(false, Some(current), Some(target));
      var q := ControlRequest(target.linearX, target.angularZ, current.linearX, current.angularZ, true);
      var out := after(q);
      Run(s, [LoopTick(before)]).emitted == [] &&
      Run(s, [LoopTick(before), DbwEnabledMsg(true), LoopTick(after)]).emitted ==
        PublishedCommands(out.throttle, out.brake, out.steering)
  {
    var s := Slots(false, Some(current), Some(target));
    var enabled := s.(dbwStatus := true);
    var events := [LoopTick(before), DbwEnabledMsg(true), LoopTick(after)];
    assert events[1..] == [DbwEnabledMsg(true), LoopTick(after)];
    assert events[1..][1..] == [LoopTick(after)];
    assert Run(enabled, [LoopTick(after)]).emitted == TickStep(enabled, after).commands;
    assert Run(s, events[1..]).emitted == Run(enabled, [LoopTick(after)]).emitted;
    assert TickStep(s, before).commands == [];
  }

  //------------------------------------------------------------------------
  // The node
  //------------------------------------------------------------------------

  class DbwNode {
    var dbwStatus: bool
    var heroVelocity: Option<Twist>
    var targetVelocity: Option<Twist>
    /** Every call made to the controller, oldest first. */
    var controllerCalls: seq<ControlRequest>
    /** Every command published on the three command topics, oldest first. */
    var emitted: seq<Command>

    function Snapshot(): Slots
      reads this
    {
      Slots(dbwStatus, heroVelocity, targetVelocity)
    }

    constructor ()
      ensures Snapshot() == InitialSlots
      ensures controllerCalls == [] && emitted == []
    {
      dbwStatus := false;
      heroVelocity := None;
      targetVelocity := None;
      controllerCalls := [];
      emitted := [];
    }

    /** One iteration of the loop; `control` is the controller as it answers now. */
    method Tick(control: ControlLaw)
      modifies this`controllerCalls, this`emitted
      ensures Snapshot() == old(Snapshot())
      ensures controllerCalls == old(controllerCalls) + RequestLog(TickStep(old(Snapshot()), control).request)
      ensures emitted == old(emitted) + TickStep(old(Snapshot()), control).commands
    {
      if heroVelocity.Some? && targetVelocity.Some? {
        var request := ControlRequest(
          targetDx := targetVelocity.value.linearX,
          targetDyaw := targetVelocity.value.angularZ,
          currentDx := heroVelocity.value.linearX,
          currentDyaw := heroVelocity.value.angularZ,
          dbwStatus := dbwStatus);
        controllerCalls := controllerCalls + [request];
        var out := control(request);
        if dbwStatus && out.correctData {
          Publish(out.throttle, out.brake, out.steering);
        }
      }
    }

    method DbwEnabledCb(data: bool)
      modifies this`dbwStatus
      ensures Snapshot() == Deliver(old(Snapshot()), DbwEnabledMsg(data))
    {
      dbwStatus := data;
    }

    method CurrentVelocityCb(twist: Twist)
      modifies this`heroVelocity
      ensures Snapshot() == Deliver(old(Snapshot()), CurrentVelocityMsg(twist))
    {
      heroVelocity := Some(twist);
    }

    method TargetVelocityCb(twist: Twist)
      modifies this`targetVelocity
      ensures Snapshot() == Deliver(old(Snapshot()), TargetVelocityMsg(twist))
    {
      targetVelocity := Some(twist);
    }

    /** Publishes the throttle, then the steering, then the brake command. */
    method Publish(throttle: real, brake: real, steer: real)
      modifies this`emitted
      ensures emitted == old(emitted) + PublishedCommands(throttle, brake, steer)
    {
      var tcmd := ThrottleCmd(enable := true, pedalCmdType := CmdPercent, pedalCmd := throttle);
      emitted := emitted + [tcmd];
      var scmd := SteeringCmd(enable := true, steeringWheelAngleCmd := steer);
      emitted := emitted + [scmd];
      var bcmd := BrakeCmd(enable := true, pedalCmdType := CmdTorque, pedalCmd := brake);
      emitted := emitted + [bcmd];
    }
  }
}
