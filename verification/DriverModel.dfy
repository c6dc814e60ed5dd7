/**
 The hardware component on top of the bus: its lifecycle callbacks, read and write cycles and
 service steps, as functions of the component, its interface values and the world. The methods of
 class Driver.DynamixelSystem are proved equal to these.
 */
module DriverModel {
  import opened Units
  import opened ControlTable
  import opened Wire
  import opened BusModel

  /** One joint of the robot description. */
  datatype JointInfo = JointInfo(name: string, parameters: map<string, string>, commandInterfaces: seq<string>)

  /** A state interface, "joint/interface". */
  datatype StateKey = StateKey(joint: string, interface: string)

  /** A command set by on_activate, with the number of packets sent before it. */
  datatype Hold = Hold(joint: string, value: Command, sentBefore: nat)

  datatype Component = Component(
    bus: BusState, world: World,
    names: seq<string>, specs: seq<JointSpec>,
    feedback: seq<JointFeedback>, commands: seq<Command>,
    states: map<StateKey, real>, requested: map<string, Command>, holds: seq<Hold>)

  // ---------- on_init

  function ParamOr(params: map<string, string>, key: string, fallback: string): string {
    if key in params then params[key] else fallback
  }

  /** A spec, the error of a missing device_id, or the exception of an id that is no number. */
  datatype Init<T> = Built(value: T) | MissingId | Threw

  /** `stoi` stands for std::stoi, None being its exceptions; the id is narrowed to eight bits. */
  function SpecOf(stoi: Parser, info: JointInfo): Init<JointSpec> {
    if "device_id" !in info.parameters then MissingId
    else
      match stoi(info.parameters["device_id"])
      case None => Threw
      case Some(v) => Built(JointSpec(info.name, v % 256, ParamOr(info.parameters, "operating_mode", "position"),
                                      "position" in info.commandInterfaces, info.parameters))
  }

  /** The joints in order, up to the first that fails. */
  function SpecsOf(stoi: Parser, infos: seq<JointInfo>): Init<seq<JointSpec>> {
    if infos == [] then Built([])
    else
      match SpecOf(stoi, infos[0])
      case MissingId => MissingId
      case Threw => Threw
      case Built(spec) =>
        match SpecsOf(stoi, infos[1..])
        case Built(rest) => Built([spec] + rest)
        case failed => failed
  }

  lemma SpecsOfStep(stoi: Parser, infos: seq<JointInfo>, i: nat)
    requires i < |infos|
    ensures var all, spec, rest := SpecsOf(stoi, infos[i..]), SpecOf(stoi, infos[i]), SpecsOf(stoi, infos[i + 1..]);
            && (spec.MissingId? ==> all.MissingId?) && (spec.Threw? ==> all.Threw?)
            && (spec.Built? ==> all == if rest.Built? then Built([spec.value] + rest.value) else rest)
  {
    assert infos[i..][1..] == infos[i + 1..];
  }

  lemma SpecsOfNone(stoi: Parser)
    ensures SpecsOf(stoi, []) == Built([])
  {
  }

  /** The specs are those of the joints, one by one. */
  lemma {:induction false} SpecsAreInfos(stoi: Parser, infos: seq<JointInfo>, i: nat)
    requires SpecsOf(stoi, infos).Built? && i < |infos|
    ensures |SpecsOf(stoi, infos).value| == |infos|
    ensures SpecOf(stoi, infos[i]) == Built(SpecsOf(stoi, infos).value[i])
    decreases |infos|
  {
    if |infos| > 1 {
      SpecsAreInfos(stoi, infos[1..], if i > 0 then i - 1 else 0);
    }
  }

  function NamesOf(specs: seq<JointSpec>): (r: seq<string>)
    ensures |r| == |specs| && forall i :: 0 <= i < |r| ==> r[i] == specs[i].name
  {
    seq(|specs|, i requires 0 <= i < |specs| => specs[i].name)
  }

  /** The component runs its cycles and services only between a successful configure and cleanup. */
  predicate Up(d: Component) {
    Ready(d.bus) && |d.names| == |d.bus.joints|
  }

  // ---------- state interfaces

  function Publish(states: map<StateKey, real>, name: string, f: JointFeedback): map<StateKey, real> {
    if !f.valid then states
    else states[StateKey(name, "position") := f.position]
               [StateKey(name, "velocity") := f.velocity]
               [StateKey(name, "effort") := f.effort]
               [StateKey(name, "temperature") := f.temperature]
               [StateKey(name, "voltage") := f.voltage]
               [StateKey(name, "pwm") := f.pwm]
               [StateKey(name, "moving") := f.moving]
               [StateKey(name, "error") := f.error]
               [StateKey(name, "homing_offset") := f.homingOffset]
  }

  function PublishAll(states: map<StateKey, real>, names: seq<string>, feedback: seq<JointFeedback>):
    map<StateKey, real>
    requires |names| == |feedback|
    decreases |names|
  {
    if names == [] then states
    else PublishAll(Publish(states, names[0], feedback[0]), names[1..], feedback[1..])
  }

  function ResetAll(states: map<StateKey, real>, names: seq<string>): map<StateKey, real>
    decreases |names|
  {
    if names == [] then states
    else
      ResetAll(states[StateKey(names[0], "position") := 0.0]
                     [StateKey(names[0], "velocity") := 0.0]
                     [StateKey(names[0], "effort") := 0.0], names[1..])
  }

  /** An interface nobody has written reads NaN. */
  function StateOf(states: map<StateKey, real>, name: string): Command {
    var key := StateKey(name, "position");
    if key in states then Rad(states[key]) else NaN
  }

  function RequestOf(requested: map<string, Command>, name: string): Command {
    if name in requested then requested[name] else NaN
  }

  // ---------- lifecycle

  function OnConfigure(script: Script, parse: Parser, d: Component, os: OsReply): (bool, Component) {
    var (isOpen, bus) := Open(d.bus, os);
    if !isOpen then (false, d.(bus := bus))
    else
      var (ok, bus', world) := Configure(script, parse, bus, d.world, d.specs);
      if !ok then (false, d.(bus := Close(bus'), world := world))
      else (true, d.(bus := bus', world := world, states := ResetAll(d.states, d.names)))
  }

  function Pull(script: Script, d: Component): (r: (bool, Component))
    requires Up(d)
    ensures Up(r.1) && r.1.bus.joints == d.bus.joints && r.1.names == d.names
  {
    var (ok, feedback, bus, world) := ReadAll(script, d.bus, d.world);
    var d' := d.(feedback := feedback, bus := bus, world := world);
    if ok then (true, d'.(states := PublishAll(d.states, d.names, feedback))) else (false, d')
  }

  function HoldOne(d: Component, joint: JointSpec, name: string): Component {
    if !joint.commandable then d
    else
      var now := StateOf(d.states, name);
      d.(requested := d.requested[name := now], holds := d.holds + [Hold(name, now, |d.world.trace|)])
  }

  function HoldAll(d: Component, joints: seq<JointSpec>, names: seq<string>): Component
    requires |joints| == |names|
    decreases |joints|
  {
    if joints == [] then d else HoldAll(HoldOne(d, joints[0], names[0]), joints[1..], names[1..])
  }

  /** Torque on, joint by joint, until one fails. */
  function TorqueOnAll(script: Script, w: World, joints: seq<JointSpec>): (bool, World)
    decreases |joints|
  {
    if joints == [] then (true, w)
    else if !joints[0].commandable then TorqueOnAll(script, w, joints[1..])
    else
      var (ok, w') := SetTorque(script, w, joints[0].id, true);
      if ok then TorqueOnAll(script, w', joints[1..]) else (false, w')
  }

  /** Torque off on every joint, whatever fails. */
  function TorqueOffAll(script: Script, w: World, joints: seq<JointSpec>): World
    decreases |joints|
  {
    if joints == [] then w
    else TorqueOffAll(script, SetTorque(script, w, joints[0].id, false).1, joints[1..])
  }

  function OnActivate(script: Script, d: Component): (bool, Component)
    requires Up(d)
  {
    var (pulled, d1) := Pull(script, d);
    if !pulled then (false, d1)
    else
      var d2 := HoldAll(d1, d1.bus.joints, d1.names);
      var (ok, world) := TorqueOnAll(script, d2.world, d1.bus.joints);
      (ok, d2.(world := world))
  }

  function OnDeactivate(script: Script, d: Component): Component {
    d.(world := TorqueOffAll(script, d.world, d.bus.joints))
  }

  function OnCleanup(d: Component): Component {
    d.(bus := Close(d.bus))
  }

  // ---------- cycles

  /** The command vector of a write cycle: read-only joints never get one. */
  function CommandVector(joints: seq<JointSpec>, names: seq<string>, requested: map<string, Command>): (r: seq<Command>)
    requires |joints| == |names|
    ensures |r| == |names|
    ensures forall i :: 0 <= i < |r| ==> r[i] == if joints[i].commandable then RequestOf(requested, names[i]) else NaN
  {
    seq(|names|, i requires 0 <= i < |names| => if joints[i].commandable then RequestOf(requested, names[i]) else NaN)
  }

  function WriteCycle(script: Script, d: Component): Component
    requires Up(d)
  {
    var commands := CommandVector(d.bus.joints, d.names, d.requested);
    var (ok, bus, world) := WritePositions(script, d.bus, d.world, commands);
    d.(commands := commands, bus := bus, world := world)
  }

  /** The motors a service request is for: one, or with id 0 every joint's. */
  function ResolveIds(joints: seq<JointSpec>, id: Id): seq<Id> {
    if id == 0 then seq(|joints|, i requires 0 <= i < |joints| => joints[i].id) else [id]
  }

  /** The set_torque service: one bus step a motor, up to the first failure. */
  function TorqueEach(script: Script, w: World, ids: seq<Id>, on: bool): (bool, World)
    decreases |ids|
  {
    if ids == [] then (true, w)
    else
      var (ok, w') := SetTorque(script, w, ids[0], on);
      if ok then TorqueEach(script, w', ids[1..], on) else (false, w')
  }

  /** The set_zero service. */
  function ZeroEach(script: Script, b: BusState, w: World, ids: seq<Id>): (bool, BusState, World)
    requires |b.homing| == |b.joints|
    decreases |ids|
  {
    if ids == [] then (true, b, w)
    else
      var (ok, b', w') := SetZero(script, b, w, ids[0]);
      if ok then ZeroEach(script, b', w', ids[1..]) else (false, b', w')
  }

  /** The reboot service. */
  function RebootEach(script: Script, w: World, ids: seq<Id>): (bool, World)
    decreases |ids|
  {
    if ids == [] then (true, w)
    else
      var (ok, w') := RebootMotor(script, w, ids[0]);
      if ok then RebootEach(script, w', ids[1..]) else (false, w')
  }

  /** The write_register service. */
  function WriteEach(script: Script, w: World, ids: seq<Id>, address: Address, size: nat, value: int): (bool, World)
    decreases |ids|
  {
    if ids == [] then (true, w)
    else
      var (ok, w') := WriteRegister(script, w, ids[0], address, size, value);
      if ok then WriteEach(script, w', ids[1..], address, size, value) else (false, w')
  }
}
