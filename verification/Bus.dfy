/**
 The bus driver as the program has it: one object over the serial line, its methods looping over
 joints and updating the cached state. Every public method of the program holds the port mutex from
 start to end, so each call here is one atomic step. Every contract gives the whole new state as a
 function of module BusModel.
 */
module Bus {
  import opened Wrappers
  import opened Bytes
  import opened Units
  import opened ControlTable
  import opened Wire
  import opened BusModel

  class DynamixelBus {
    const line: SerialLine
    const parse: Parser

    var lockFd: Option<nat>
    var port: bool
    var joints: seq<JointSpec>
    var homing: seq<real>
    var errors: seq<real>
    var cursor: nat
    var readGroup: Option<seq<Id>>
    var writeGroup: Option<seq<Entry>>

    ghost function State(): BusState
      reads this
    {
      BusState(lockFd, port, joints, homing, errors, cursor, readGroup, writeGroup)
    }

    constructor (line: SerialLine, parse: Parser)
      ensures this.line == line && this.parse == parse && State() == CLOSED
    {
      this.line, this.parse := line, parse;
      lockFd, port, joints, homing, errors, cursor := None, false, [], [], [], 0;
      readGroup, writeGroup := None, None;
    }

    method Open(os: OsReply) returns (ok: bool)
      modifies this
      ensures (ok, State()) == BusModel.Open(old(State()), os)
    {
      lockFd := os.fd;
      if lockFd.None? { return false; }
      if !os.locks {
        lockFd := None;
        return false;
      }
      port := os.opens;
      if !os.opens {
        ReleaseLock();
        return false;
      }
      if !os.setsBaud {
        port := false;
        ReleaseLock();
        return false;
      }
      return true;
    }

    method Close()
      modifies this
      ensures State() == BusModel.Close(old(State()))
           == old(State()).(lockFd := None, port := false, readGroup := None, writeGroup := None)
    {
      readGroup, writeGroup := None, None;
      port := false;
      ReleaseLock();
    }

    method ReleaseLock()
      modifies this`lockFd
      ensures lockFd == None
    {
      if lockFd.Some? { lockFd := None; }
    }

    method Configure(specs: seq<JointSpec>) returns (ok: bool)
      modifies this, line
      ensures (ok, State(), line.world)
           == BusModel.Configure(line.script, parse, old(State()), old(line.world), specs)
    {
      hide PingAll, Execute, ReadHoming, JoinAll, SetupOrders, Zeros;
      if !port { return false; }
      joints := specs;
      ok := PingJoints(specs);
      if !ok { return; }

      ok := SetUpMotors();
      if !ok { return; }

      CacheHoming();
      errors, cursor := Zeros(|joints|), 0;
      ok := SetUpSync();
    }

    method PingJoints(specs: seq<JointSpec>) returns (ok: bool)
      requires joints == specs
      modifies `joints, line
      ensures (ok, joints, line.world) == PingAll(line.script, old(line.world), specs)
    {
      hide PingAll;
      ghost var all := PingAll(line.script, line.world, specs);
      var i := 0;
      assert specs[0..] == specs;
      while i < |specs|
        invariant i <= |specs| == |joints|
        invariant joints[i..] == specs[i..]
        invariant var r := PingAll(line.script, line.world, specs[i..]);
                  all.0 == r.0 && all.1 == joints[..i] + r.1 && all.2 == r.2
      {
        ghost var before := joints;
        PingAllStep(line.script, line.world, specs, i);
        assert joints[i] == joints[i..][0];
        var replied, model := line.Ping(joints[i].id);
        if !replied {
          assert joints[..i] + joints[i..] == joints;
          return false;
        }
        joints := joints[i := Detected(joints[i], model)];
        ShiftOne(joints, i, PingAll(line.script, line.world, specs[i + 1..]).1);
        assert joints[..i] == before[..i] && joints[i + 1..] == before[i..][1..];
        i := i + 1;
      }
      PingAllDone(line.script, line.world, specs[i..]);
      assert joints[..i] + [] == joints;
      return true;
    }

    method SetUpMotors() returns (ok: bool)
      modifies line
      ensures (ok, line.world) == Execute(line.script, old(line.world), SetupOrders(parse, joints))
    {
      ExecuteAppend(line.script, line.world, TorqueOffOrders(joints), AllJointOrders(parse, joints));
      ok := TurnTorqueOff();
      if !ok { return; }
      ok := SetUpJoints();
    }

    method TurnTorqueOff() returns (ok: bool)
      modifies line
      ensures (ok, line.world) == Execute(line.script, old(line.world), TorqueOffOrders(joints))
    {
      var i := 0;
      while i < |joints|
        invariant i <= |joints|
        invariant Execute(line.script, line.world, TorqueOffOrders(joints[i..]))
               == Execute(line.script, old(line.world), TorqueOffOrders(joints))
      {
        assert joints[i..][0] == joints[i] && joints[i..][1..] == joints[i + 1..];
        ok := SetTorqueUnlocked(joints[i].id, false);
        if !ok { return; }
        i := i + 1;
      }
      return true;
    }

    method SetUpJoints() returns (ok: bool)
      modifies line
      ensures (ok, line.world) == Execute(line.script, old(line.world), AllJointOrders(parse, joints))
    {
      var i := 0;
      while i < |joints|
        invariant i <= |joints|
        invariant Execute(line.script, line.world, AllJointOrders(parse, joints[i..]))
               == Execute(line.script, old(line.world), AllJointOrders(parse, joints))
      {
        var j := joints[i];
        assert joints[i..][0] == j && joints[i..][1..] == joints[i + 1..];
        ExecuteAppend(line.script, line.world, JointOrders(parse, j), AllJointOrders(parse, joints[i + 1..]));
        ok := SetOperatingModeUnlocked(j.id, j.operatingMode);
        if !ok { return; }
        ok := ApplyParameters(j);
        if !ok { return; }
        i := i + 1;
      }
      return true;
    }

    method ApplyParameters(joint: JointSpec) returns (ok: bool)
      modifies line
      ensures (ok, line.world)
           == Execute(line.script, old(line.world), ParameterOrders(parse, joint, WRITABLE_REGISTERS))
    {
      ok := ApplyRegisters(joint, WRITABLE_REGISTERS);
    }

    method ApplyRegisters(joint: JointSpec, specs: seq<RegisterSpec>) returns (ok: bool)
      modifies line
      ensures (ok, line.world) == Execute(line.script, old(line.world), ParameterOrders(parse, joint, specs))
    {
      var i := 0;
      while i < |specs|
        invariant i <= |specs|
        invariant Execute(line.script, line.world, ParameterOrders(parse, joint, specs[i..]))
               == Execute(line.script, old(line.world), ParameterOrders(parse, joint, specs))
      {
        var spec := specs[i];
        assert specs[i..][0] == spec && specs[i..][1..] == specs[i + 1..];
        ExecuteAppend(line.script, line.world, ParameterOrder(parse, joint, spec),
                      ParameterOrders(parse, joint, specs[i + 1..]));
        i := i + 1;
        if spec.param !in joint.parameters { continue; }
        var value := parse(joint.parameters[spec.param]);
        if value.None? { return false; }
        ok := WriteRegisterUnlocked(joint.id, spec.address, spec.size, value.value);
        if !ok { return; }
      }
      return true;
    }

    method CacheHoming()
      modifies `homing, line
      ensures (homing, line.world) == ReadHoming(line.script, old(line.world), joints)
    {
      hide BusModel.ReadRegister, ReadHoming;
      ghost var all := ReadHoming(line.script, line.world, joints);
      homing := Zeros(|joints|);
      var i := 0;
      assert joints[0..] == joints;
      while i < |joints|
        invariant i <= |joints| == |homing|
        invariant forall k :: i <= k < |joints| ==> homing[k] == 0.0
        invariant var r := ReadHoming(line.script, line.world, joints[i..]);
                  all.0 == homing[..i] + r.0 && all.1 == r.1
      {
        ghost var before := homing;
        ReadHomingStep(line.script, line.world, joints, i);
        var ok, raw := ReadRegisterUnlocked(joints[i].id, HOMING_OFFSET, 4);
        if ok {
          homing := homing[i := TicksToAngle(raw)];
        }
        ShiftOne(homing, i, ReadHoming(line.script, line.world, joints[i + 1..]).0);
        assert homing[..i] == before[..i];
        i := i + 1;
      }
      ReadHomingDone(line.script, line.world, joints[i..]);
      assert homing[..i] + [] == homing;
    }

    method SetUpSync() returns (ok: bool)
      modifies `readGroup, `writeGroup
      ensures (ok, readGroup, writeGroup)
           == (JoinAll([], joints).0, Some(JoinAll([], joints).1), Some([]))
      ensures ok <==> DistinctIds(joints)
      ensures ok ==> readGroup == Some(IdsOf(joints))
    {
      JoinAllDistinct([], joints);
      if JoinAll([], joints).0 {
        JoinedIds(joints);
      }
      var group: seq<Id> := [];
      writeGroup := Some([]);
      var i := 0;
      while i < |joints|
        invariant i <= |joints|
        invariant JoinAll(group, joints[i..]) == JoinAll([], joints)
      {
        assert joints[i..][0] == joints[i] && joints[i..][1..] == joints[i + 1..];
        if joints[i].id in group {
          readGroup := Some(group);
          return false;
        }
        group := group + [joints[i].id];
        i := i + 1;
      }
      readGroup := Some(group);
      return true;
    }

    method ReadAll() returns (ok: bool, out: seq<JointFeedback>)
      requires Ready(State())
      modifies `errors, `cursor, line
      ensures (ok, out, State(), line.world)
           == BusModel.ReadAll(line.script, old(State()), old(line.world))
    {
      out := Blanks(|joints|);
      var windows;
      ok, windows := line.SyncRead(readGroup.value);
      if !ok { return; }

      out := Decode(windows);
      PollHardwareError();
    }

    method Decode(windows: map<Id, Window>) returns (out: seq<JointFeedback>)
      requires |homing| == |errors| == |joints|
      ensures out == Feedbacks(windows, State())
    {
      out := Blanks(|joints|);
      var i := 0;
      while i < |joints|
        invariant i <= |joints| == |out|
        invariant forall k :: 0 <= k < i ==> out[k] == FeedbackOf(windows, joints[k].id, homing[k], errors[k])
        invariant forall k :: i <= k < |out| ==> out[k] == BLANK
      {
        var id := joints[i].id;
        if Available(windows, id, PRESENT_POSITION, 4) {
          var f := BLANK;
          f := f.(position := TickToRad(Wrap(Unsigned(Field(windows[id], PRESENT_POSITION, 4)), 4)));
          if Available(windows, id, PRESENT_VELOCITY, 4) {
            f := f.(velocity := RawToRadPerS(Wrap(Unsigned(Field(windows[id], PRESENT_VELOCITY, 4)), 4)));
          }
          if Available(windows, id, PRESENT_PWM, 2) {
            f := f.(pwm := Wrap(Unsigned(Field(windows[id], PRESENT_PWM, 2)), 2) as real);
          }
          if Available(windows, id, MOVING, 1) {
            f := f.(moving := Unsigned(Field(windows[id], MOVING, 1)) as real);
          }
          if Available(windows, id, PRESENT_INPUT_VOLTAGE, 2) {
            f := f.(voltage := Unsigned(Field(windows[id], PRESENT_INPUT_VOLTAGE, 2)) as real * 0.1);
          }
          if Available(windows, id, PRESENT_TEMPERATURE, 1) {
            f := f.(temperature := Unsigned(Field(windows[id], PRESENT_TEMPERATURE, 1)) as real);
          }
          f := f.(effort := 0.0, homingOffset := homing[i], error := errors[i], valid := true);
          out := out[i := f];
        }
        i := i + 1;
      }
    }

    method PollHardwareError()
      requires |errors| == |joints|
      modifies `errors, `cursor, line
      ensures (State(), line.world) == PollError(line.script, old(State()), old(line.world))
    {
      hide BusModel.ReadRegister;
      if joints != [] {
        var k := cursor % |joints|;
        var got, raw := ReadRegisterUnlocked(joints[k].id, HARDWARE_ERROR_STATUS, 1);
        if got {
          errors := errors[k := raw as real];
        }
        cursor := (cursor + 1) % |joints|;
      }
    }

    method WritePositions(rads: seq<Command>) returns (ok: bool)
      requires Ready(State())
      modifies `writeGroup, line
      ensures (ok, State(), line.world)
           == BusModel.WritePositions(line.script, old(State()), old(line.world), rads)
    {
      hide IdsOf, GoalBytes, RadToTick;
      var group: seq<Entry> := [];
      var i := 0;
      while i < |joints| && i < |rads|
        invariant i <= |joints| && i <= |rads|
        invariant WellSized(group)
        invariant Goals(group, joints[i..], rads[i..]) == Goals([], joints, rads)
      {
        assert joints[i..][0] == joints[i] && joints[i..][1..] == joints[i + 1..];
        assert rads[i..][0] == rads[i] && rads[i..][1..] == rads[i + 1..];
        i := i + 1;
        if !joints[i - 1].commandable { continue; }
        if rads[i - 1].NaN? { continue; }
        var tick := RadToTick(rads[i - 1].value);
        if !HasEntry(group, joints[i - 1].id) {
          group := group + [Entry(joints[i - 1].id, GoalBytes(tick))];
        }
      }
      writeGroup := Some(group);
      ok := line.SyncWrite(group);
    }

    method SetTorque(id: Id, on: bool) returns (ok: bool)
      requires port
      modifies line
      ensures (ok, line.world) == BusModel.SetTorque(line.script, old(line.world), id, on)
    {
      ok := SetTorqueUnlocked(id, on);
    }

    method SetZero(id: Id) returns (ok: bool)
      requires Ready(State())
      modifies `homing, line
      ensures (ok, State(), line.world)
           == BusModel.SetZero(line.script, old(State()), old(line.world), id)
    {
      hide BusModel.WriteRegister, BusModel.ReadRegister;
      ok := WriteRegisterUnlocked(id, HOMING_OFFSET, 4, 0);
      if !ok { return; }
      var present;
      ok, present := ReadRegisterUnlocked(id, PRESENT_POSITION, 4);
      if !ok { return; }
      ok := WriteRegisterUnlocked(id, HOMING_OFFSET, 4, -present);
      if !ok { return; }

      CacheOffset(id, TicksToAngle(-present));
    }

    method CacheOffset(id: Id, offset: real)
      requires |homing| == |joints|
      modifies `homing
      ensures homing == Cached(joints, old(homing), id, offset)
    {
      var i := 0;
      while i < |joints|
        invariant i <= |joints| == |homing| == |old(homing)|
        invariant forall k :: 0 <= k < i ==>
                    homing[k] == if joints[k].id == id then offset else old(homing)[k]
        invariant forall k :: i <= k < |joints| ==> homing[k] == old(homing)[k]
      {
        if joints[i].id == id {
          homing := homing[i := offset];
        }
        i := i + 1;
      }
    }

    method Reboot(id: Id) returns (ok: bool)
      requires port
      modifies line
      ensures (ok, line.world) == RebootMotor(line.script, old(line.world), id)
    {
      ok := line.Reboot(id);
    }

    method ReadRegister(id: Id, address: Address, size: nat) returns (ok: bool, value: int)
      requires port
      modifies line
      ensures (ok, value, line.world) == BusModel.ReadRegister(line.script, old(line.world), id, address, size)
    {
      ok, value := ReadRegisterUnlocked(id, address, size);
    }

    method WriteRegister(id: Id, address: Address, size: nat, value: int) returns (ok: bool)
      requires port
      modifies line
      ensures (ok, line.world)
           == BusModel.WriteRegister(line.script, old(line.world), id, address, size, value)
    {
      ok := WriteRegisterUnlocked(id, address, size, value);
    }

    method SetTorqueUnlocked(id: Id, on: bool) returns (ok: bool)
      modifies line
      ensures (ok, line.world) == BusModel.SetTorque(line.script, old(line.world), id, on)
    {
      ok := WriteRegisterUnlocked(id, TORQUE_ENABLE, 1, if on then 1 else 0);
    }

    method SetOperatingModeUnlocked(id: Id, mode: string) returns (ok: bool)
      modifies line
      ensures (ok, line.world)
           == BusModel.WriteRegister(line.script, old(line.world), id, OPERATING_MODE, 1, OperatingModeValue(mode))
    {
      ok := WriteRegisterUnlocked(id, OPERATING_MODE, 1, OperatingModeValue(mode));
    }

    /** The reply's bytes are always widened as a signed integer of the register's size. */
    method ReadRegisterUnlocked(id: Id, address: Address, size: nat) returns (ok: bool, value: int)
      modifies line
      ensures (ok, value, line.world) == BusModel.ReadRegister(line.script, old(line.world), id, address, size)
    {
      var data;
      match size
      case 1 =>
        ok, data := line.Read(id, address, 1);
        value := Wrap(Unsigned(data), 1);
      case 2 =>
        ok, data := line.Read(id, address, 2);
        value := Wrap(Unsigned(data), 2);
      case 4 =>
        ok, data := line.Read(id, address, 4);
        value := Wrap(Unsigned(data), 4);
      case _ =>
        ok, value := false, 0;
    }

    method WriteRegisterUnlocked(id: Id, address: Address, size: nat, value: int) returns (ok: bool)
      modifies line
      ensures (ok, line.world)
           == BusModel.WriteRegister(line.script, old(line.world), id, address, size, value)
    {
      match size
      case 1 => ok := line.Write(id, address, Encode(value, 1));
      case 2 => ok := line.Write(id, address, Encode(value, 2));
      case 4 => ok := line.Write(id, address, Encode(value, 4));
      case _ => ok := false;
    }
  }
}
