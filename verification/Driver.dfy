/** The hardware component as the program has it, one object over the bus object. */
module Driver {
  import opened Wrappers
  import opened Units
  import opened ControlTable
  import opened Wire
  import opened BusModel
  import opened Bus
  import opened DriverModel

  /** How on_init ends. */
  datatype InitResult = Success | Error | Thrown

  class DynamixelSystem {
    const bus: DynamixelBus
    const stoi: Parser

    var names: seq<string>
    var specs: seq<JointSpec>
    var feedback: seq<JointFeedback>
    var commands: seq<Command>
    var states: map<StateKey, real>
    var requested: map<string, Command>
    ghost var holds: seq<Hold>

    ghost function State(): Component
      reads this, bus, bus.line
    {
      Component(bus.State(), bus.line.world, names, specs, feedback, commands, states, requested, holds)
    }

    constructor (bus: DynamixelBus, stoi: Parser)
      ensures this.bus == bus && this.stoi == stoi && names == [] && specs == [] && holds == []
    {
      this.bus, this.stoi := bus, stoi;
      names, specs, feedback, commands := [], [], [], [];
      states, requested, holds := map[], map[], [];
    }

    /** A missing device_id is an error return; an id that is no number is an exception. */
    method OnInit(infos: seq<JointInfo>) returns (result: InitResult)
      modifies `names, `specs, `feedback, `commands
      ensures result == match SpecsOf(stoi, infos)
                        case Built(_) => Success
                        case MissingId => Error
                        case Threw => Thrown
      ensures result.Success? ==>
                && Built(specs) == SpecsOf(stoi, infos) && names == NamesOf(specs)
                && |feedback| == |commands| == |specs| && forall c :: c in commands ==> c == NaN
      ensures !result.Success? ==> specs == old(specs)
    {
      hide SpecOf, SpecsOf;
      var found: seq<JointSpec> := [];
      names := [];
      var i := 0;
      ghost var whole := SpecsOf(stoi, infos);
      assert infos[0..] == infos && (whole.Built? ==> [] + whole.value == whole.value);
      while i < |infos|
        modifies `names
        invariant i <= |infos| && names == NamesOf(found)
        invariant var rest := SpecsOf(stoi, infos[i..]);
                  whole == if rest.Built? then Built(found + rest.value) else rest
      {
        SpecsOfStep(stoi, infos, i);
        var spec := BuildSpec(infos[i]);
        if spec.MissingId? { return Error; }
        if spec.Threw? { return Thrown; }
        ghost var rest := SpecsOf(stoi, infos[i + 1..]);
        assert rest.Built? ==> found + ([spec.value] + rest.value) == (found + [spec.value]) + rest.value;
        found := found + [spec.value];
        names := names + [infos[i].name];
        i := i + 1;
      }
      SpecsOfNone(stoi);
      assert infos[i..] == [] && found + [] == found;
      feedback := Blanks(|found|);
      commands := seq(|found|, k => NaN);
      specs := found;
      return Success;
    }

    method BuildSpec(info: JointInfo) returns (spec: Init<JointSpec>)
      ensures spec == SpecOf(stoi, info) && (spec.Built? ==> spec.value.name == info.name)
    {
      if "device_id" !in info.parameters { return MissingId; }
      var id := stoi(info.parameters["device_id"]);
      if id.None? { return Threw; }

      var commandable := false;
      for k := 0 to |info.commandInterfaces|
        invariant commandable <==> "position" in info.commandInterfaces[..k]
      {
        if info.commandInterfaces[k] == "position" { commandable := true; }
      }
      assert info.commandInterfaces[..|info.commandInterfaces|] == info.commandInterfaces;
      var mode := ParamOr(info.parameters, "operating_mode", "position");
      return Built(JointSpec(info.name, id.value % 256, mode, commandable, info.parameters));
    }

    method OnConfigure(os: OsReply) returns (ok: bool)
      modifies this, bus, bus.line
      ensures (ok, State()) == DriverModel.OnConfigure(bus.line.script, bus.parse, old(State()), os)
    {
      hide BusModel.Configure, BusModel.Open, BusModel.Close, ResetAll;
      ok := bus.Open(os);
      if !ok { return; }
      ok := bus.Configure(specs);
      if !ok {
        bus.Close();
        return false;
      }
      ResetStates();
    }

    method ResetStates()
      modifies `states
      ensures states == ResetAll(old(states), names)
    {
      var i := 0;
      assert names[0..] == names;
      while i < |names|
        invariant i <= |names|
        invariant ResetAll(states, names[i..]) == ResetAll(old(states), names)
      {
        assert names[i..][0] == names[i] && names[i..][1..] == names[i + 1..];
        states := states[StateKey(names[i], "position") := 0.0];
        states := states[StateKey(names[i], "velocity") := 0.0];
        states := states[StateKey(names[i], "effort") := 0.0];
        i := i + 1;
      }
    }

    method OnActivate() returns (ok: bool)
      requires Up(State())
      modifies this, bus, bus.line
      ensures (ok, State()) == DriverModel.OnActivate(bus.line.script, old(State()))
    {
      hide Pull, HoldAll, TorqueOnAll;
      ok := PullStates();
      if !ok { return; }
      HoldPositions();
      ok := EnableTorque();
    }

    method HoldPositions()
      requires Up(State())
      modifies `requested, `holds
      ensures State() == HoldAll(old(State()), bus.joints, names)
    {
      var i := 0;
      assert bus.joints[0..] == bus.joints && names[0..] == names;
      while i < |bus.joints|
        invariant i <= |bus.joints|
        invariant HoldAll(State(), bus.joints[i..], names[i..]) == HoldAll(old(State()), bus.joints, names)
      {
        assert bus.joints[i..][0] == bus.joints[i] && bus.joints[i..][1..] == bus.joints[i + 1..];
        assert names[i..][0] == names[i] && names[i..][1..] == names[i + 1..];
        i := i + 1;
        if !bus.joints[i - 1].commandable { continue; }
        var now := StateOf(states, names[i - 1]);
        requested := requested[names[i - 1] := now];
        holds := holds + [Hold(names[i - 1], now, |bus.line.world.trace|)];
      }
    }

    method EnableTorque() returns (ok: bool)
      requires bus.port
      modifies bus.line
      ensures (ok, bus.line.world) == TorqueOnAll(bus.line.script, old(bus.line.world), bus.joints)
    {
      var i := 0;
      assert bus.joints[0..] == bus.joints;
      while i < |bus.joints|
        invariant i <= |bus.joints|
        invariant TorqueOnAll(bus.line.script, bus.line.world, bus.joints[i..])
               == TorqueOnAll(bus.line.script, old(bus.line.world), bus.joints)
      {
        assert bus.joints[i..][0] == bus.joints[i] && bus.joints[i..][1..] == bus.joints[i + 1..];
        i := i + 1;
        if !bus.joints[i - 1].commandable { continue; }
        ok := bus.SetTorque(bus.joints[i - 1].id, true);
        if !ok { return; }
      }
      return true;
    }

    method OnDeactivate()
      requires Up(State())
      modifies bus.line
      ensures State() == DriverModel.OnDeactivate(bus.line.script, old(State()))
    {
      var i := 0;
      assert bus.joints[0..] == bus.joints;
      while i < |bus.joints|
        invariant i <= |bus.joints|
        invariant TorqueOffAll(bus.line.script, bus.line.world, bus.joints[i..])
               == TorqueOffAll(bus.line.script, old(bus.line.world), bus.joints)
      {
        assert bus.joints[i..][0] == bus.joints[i] && bus.joints[i..][1..] == bus.joints[i + 1..];
        var ignored := bus.SetTorque(bus.joints[i].id, false);
        i := i + 1;
      }
    }

    method OnCleanup()
      modifies bus
      ensures State() == DriverModel.OnCleanup(old(State()))
      ensures var was := old(State());
              State() == was.(bus := was.bus.(lockFd := None, port := false, readGroup := None, writeGroup := None))
    {
      bus.Close();
    }

    method PullStates() returns (ok: bool)
      requires Up(State())
      modifies `feedback, `states, bus, bus.line
      ensures (ok, State()) == Pull(bus.line.script, old(State()))
    {
      hide BusModel.ReadAll;
      ok, feedback := bus.ReadAll();
      if !ok { return; }
      PublishFeedback();
    }

    method PublishFeedback()
      requires |names| == |feedback|
      modifies `states
      ensures states == PublishAll(old(states), names, feedback)
    {
      var i := 0;
      assert names[0..] == names && feedback[0..] == feedback;
      while i < |names|
        invariant i <= |names|
        invariant PublishAll(states, names[i..], feedback[i..]) == PublishAll(old(states), names, feedback)
      {
        assert names[i..][0] == names[i] && names[i..][1..] == names[i + 1..];
        assert feedback[i..][0] == feedback[i] && feedback[i..][1..] == feedback[i + 1..];
        var name, f := names[i], feedback[i];
        i := i + 1;
        if !f.valid { continue; }
        states := states[StateKey(name, "position") := f.position];
        states := states[StateKey(name, "velocity") := f.velocity];
        states := states[StateKey(name, "effort") := f.effort];
        states := states[StateKey(name, "temperature") := f.temperature];
        states := states[StateKey(name, "voltage") := f.voltage];
        states := states[StateKey(name, "pwm") := f.pwm];
        states := states[StateKey(name, "moving") := f.moving];
        states := states[StateKey(name, "error") := f.error];
        states := states[StateKey(name, "homing_offset") := f.homingOffset];
      }
    }

    /** A failed read keeps the last known states and is reported as success. */
    method Read()
      requires Up(State())
      modifies `feedback, `states, bus, bus.line
      ensures State() == Pull(bus.line.script, old(State())).1
    {
      var ok := PullStates();
    }

    method Write()
      requires Up(State()) && |commands| == |names|
      modifies `commands, bus, bus.line
      ensures State() == WriteCycle(bus.line.script, old(State()))
    {
      hide BusModel.WritePositions;
      var i := 0;
      while i < |names|
        modifies `commands
        invariant i <= |names| == |commands|
        invariant forall k :: 0 <= k < i ==>
                    commands[k] == if bus.joints[k].commandable then RequestOf(requested, names[k]) else NaN
      {
        commands := commands[i := if bus.joints[i].commandable then RequestOf(requested, names[i]) else NaN];
        i := i + 1;
      }
      assert commands == CommandVector(bus.joints, names, requested);
      var ok := bus.WritePositions(commands);
    }

    method TorqueService(id: Id, enable: bool) returns (ok: bool)
      requires Up(State())
      modifies bus.line
      ensures (ok, bus.line.world)
           == TorqueEach(bus.line.script, old(bus.line.world), ResolveIds(bus.joints, id), enable)
    {
      var ids := ResolveIds(bus.joints, id);
      var i := 0;
      assert ids[0..] == ids;
      while i < |ids|
        invariant i <= |ids|
        invariant TorqueEach(bus.line.script, bus.line.world, ids[i..], enable)
               == TorqueEach(bus.line.script, old(bus.line.world), ids, enable)
      {
        assert ids[i..][0] == ids[i] && ids[i..][1..] == ids[i + 1..];
        ok := bus.SetTorque(ids[i], enable);
        if !ok { return; }
        i := i + 1;
      }
      return true;
    }

    method RebootService(id: Id) returns (ok: bool)
      requires Up(State())
      modifies bus.line
      ensures (ok, bus.line.world) == RebootEach(bus.line.script, old(bus.line.world), ResolveIds(bus.joints, id))
    {
      var ids := ResolveIds(bus.joints, id);
      var i := 0;
      assert ids[0..] == ids;
      while i < |ids|
        invariant i <= |ids|
        invariant RebootEach(bus.line.script, bus.line.world, ids[i..])
               == RebootEach(bus.line.script, old(bus.line.world), ids)
      {
        assert ids[i..][0] == ids[i] && ids[i..][1..] == ids[i + 1..];
        ok := bus.Reboot(ids[i]);
        if !ok { return; }
        i := i + 1;
      }
      return true;
    }

    method ZeroService(id: Id) returns (ok: bool)
      requires Up(State())
      modifies bus, bus.line
      ensures (ok, bus.State(), bus.line.world)
           == ZeroEach(bus.line.script, old(bus.State()), old(bus.line.world), ResolveIds(old(bus.joints), id))
    {
      hide BusModel.SetZero;
      var ids := ResolveIds(bus.joints, id);
      var i := 0;
      assert ids[0..] == ids;
      while i < |ids|
        invariant i <= |ids| && Ready(bus.State())
        invariant ZeroEach(bus.line.script, bus.State(), bus.line.world, ids[i..])
               == ZeroEach(bus.line.script, old(bus.State()), old(bus.line.world), ids)
      {
        assert ids[i..][0] == ids[i] && ids[i..][1..] == ids[i + 1..];
        ok := bus.SetZero(ids[i]);
        if !ok { return; }
        i := i + 1;
      }
      return true;
    }

    method WriteService(id: Id, address: Address, size: nat, value: int) returns (ok: bool)
      requires Up(State())
      modifies bus.line
      ensures (ok, bus.line.world)
           == WriteEach(bus.line.script, old(bus.line.world), ResolveIds(bus.joints, id), address, size, value)
    {
      var ids := ResolveIds(bus.joints, id);
      var i := 0;
      assert ids[0..] == ids;
      while i < |ids|
        invariant i <= |ids|
        invariant WriteEach(bus.line.script, bus.line.world, ids[i..], address, size, value)
               == WriteEach(bus.line.script, old(bus.line.world), ids, address, size, value)
      {
        assert ids[i..][0] == ids[i] && ids[i..][1..] == ids[i + 1..];
        ok := bus.WriteRegister(ids[i], address, size, value);
        if !ok { return; }
        i := i + 1;
      }
      return true;
    }
  }
}
