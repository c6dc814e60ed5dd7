/**
 Activation without a jump: every commandable joint is told to stay where it is before any torque
 goes on, and the first goal it is sent is the tick it was read at.
 */
module ActivationProofs {
  import opened Wrappers
  import opened Bytes
  import opened Units
  import opened ControlTable
  import opened Wire
  import opened BusModel
  import opened DriverModel
  import opened ConfigureProofs
  import opened FeedbackProofs
  import opened DriverProofs
  import Rounding

  predicate DistinctNames(names: seq<string>) {
    forall i, j :: 0 <= i < j < |names| ==> names[i] != names[j]
  }

  // ---------- pulled states

  /** The state interfaces of a joint and the field of its feedback each reports. */
  function Reported(f: JointFeedback, interface: string): Option<real> {
    if interface == "position" then Some(f.position)
    else if interface == "velocity" then Some(f.velocity)
    else if interface == "effort" then Some(f.effort)
    else if interface == "temperature" then Some(f.temperature)
    else if interface == "voltage" then Some(f.voltage)
    else if interface == "pwm" then Some(f.pwm)
    else if interface == "moving" then Some(f.moving)
    else if interface == "error" then Some(f.error)
    else if interface == "homing_offset" then Some(f.homingOffset)
    else None
  }

  function Lookup(states: map<StateKey, real>, key: StateKey): Option<real> {
    if key in states then Some(states[key]) else None
  }

  /** Publishing one joint sets its nine interfaces if its feedback is valid, and nothing else. */
  lemma PublishOne(states: map<StateKey, real>, name: string, f: JointFeedback, key: StateKey)
    ensures Lookup(Publish(states, name, f), key)
         == if f.valid && key.joint == name && Reported(f, key.interface).Some?
            then Reported(f, key.interface) else Lookup(states, key)
  {
  }

  lemma {:induction false} PublishOthers(states: map<StateKey, real>, names: seq<string>,
                                         feedback: seq<JointFeedback>, key: StateKey)
    requires |names| == |feedback| && key.joint !in names
    ensures Lookup(PublishAll(states, names, feedback), key) == Lookup(states, key)
    decreases |names|
  {
    if names != [] {
      hide Publish, Reported, Lookup;
      PublishOne(states, names[0], feedback[0], key);
      PublishOthers(Publish(states, names[0], feedback[0]), names[1..], feedback[1..], key);
    }
  }

  /** A pull gives each interface of a joint with valid feedback its field, and leaves the others. */
  lemma {:induction false} PublishedStates(states: map<StateKey, real>, names: seq<string>,
                                           feedback: seq<JointFeedback>, i: nat, interface: string)
    requires |names| == |feedback| && DistinctNames(names) && i < |names|
    ensures Lookup(PublishAll(states, names, feedback), StateKey(names[i], interface))
         == if feedback[i].valid && Reported(feedback[i], interface).Some?
            then Reported(feedback[i], interface) else Lookup(states, StateKey(names[i], interface))
    decreases |names|
  {
    hide Publish, Reported, Lookup;
    var key := StateKey(names[i], interface);
    var states' := Publish(states, names[0], feedback[0]);
    PublishOne(states, names[0], feedback[0], key);
    if i == 0 {
      assert names[0] !in names[1..];
      PublishOthers(states', names[1..], feedback[1..], key);
    } else {
      PublishedStates(states', names[1..], feedback[1..], i - 1, interface);
    }
  }

  /** A successful pull leaves the state of a heard joint at the tick its motor holds. */
  lemma PulledState(script: Script, d: Component, i: nat)
    requires Up(d) && DistinctNames(d.names) && i < |d.names| && Answered(script, d.world.now)
    requires Heard(script, d.world, d.bus.joints[i].id)
    ensures Pull(script, d).0
    ensures StateOf(Pull(script, d).1.states, d.names[i])
         == Rad(TickToRad(RegisterValue(d.world.motors[d.bus.joints[i].id], PRESENT_POSITION, 4)))
  {
    hide ReadAll, PublishAll, TickToRad, RegisterValue;
    SyncReadRefinesRegisterReads(script, d.bus, d.world, i);
    PublishedStates(d.states, d.names, Pull(script, d).1.feedback, i, "position");
  }

  // ---------- held commands

  lemma {:induction false} HoldOthers(d: Component, joints: seq<JointSpec>, names: seq<string>, name: string)
    requires |joints| == |names| && name !in names
    ensures RequestOf(HoldAll(d, joints, names).requested, name) == RequestOf(d.requested, name)
    decreases |joints|
  {
    if joints != [] {
      HoldOthers(HoldOne(d, joints[0], names[0]), joints[1..], names[1..], name);
    }
  }

  /** Holding sets each commandable joint's command to its state and changes nothing else. */
  lemma {:induction false} HeldCommand(d: Component, joints: seq<JointSpec>, names: seq<string>, i: nat)
    requires |joints| == |names| && DistinctNames(names) && i < |names| && joints[i].commandable
    ensures RequestOf(HoldAll(d, joints, names).requested, names[i]) == StateOf(d.states, names[i])
    decreases |joints|
  {
    var d' := HoldOne(d, joints[0], names[0]);
    if i == 0 {
      assert names[0] !in names[1..];
      HoldOthers(d', joints[1..], names[1..], names[0]);
    } else {
      HeldCommand(d', joints[1..], names[1..], i - 1);
    }
  }

  lemma {:induction false} HoldAllFrame(d: Component, joints: seq<JointSpec>, names: seq<string>)
    requires |joints| == |names|
    ensures var d' := HoldAll(d, joints, names);
            d' == d.(requested := d'.requested, holds := d'.holds)
    decreases |joints|
  {
    if joints != [] {
      HoldAllFrame(HoldOne(d, joints[0], names[0]), joints[1..], names[1..]);
    }
  }

  // ---------- bumpless activation

  /** Events after which a joint's pending command is what it was. */
  predicate KeepsCommand(e: Event, name: string) {
    match e
    case Configure(_) => false
    case Cleanup => false
    case HoldStep(_) => false
    case Control(joint, _) => joint != name
    case _ => true
  }

  lemma StepKeepsCommand(script: Script, parse: Parser, d: Component, e: Event, name: string)
    requires Up(d) && KeepsCommand(e, name)
    ensures var d' := Step(script, parse, d, e);
            && Up(d') && d'.bus.joints == d.bus.joints && d'.names == d.names
            && RequestOf(d'.requested, name) == RequestOf(d.requested, name)
  {
    hide SetZero, SetTorque, RebootMotor, ReadRegister, WriteRegister, ReadAll, WritePositions, PublishAll;
  }

  lemma {:induction false} RunKeepsCommand(script: Script, parse: Parser, d: Component, events: seq<Event>,
                                           name: string)
    requires Up(d) && forall e :: e in events ==> KeepsCommand(e, name)
    ensures var d' := Run(script, parse, d, events);
            && Up(d') && d'.bus.joints == d.bus.joints && d'.names == d.names
            && RequestOf(d'.requested, name) == RequestOf(d.requested, name)
    decreases |events|
  {
    if events != [] {
      hide Step, KeepsCommand;
      StepKeepsCommand(script, parse, d, events[0], name);
      RunKeepsCommand(script, parse, Step(script, parse, d, events[0]), events[1..], name);
    }
  }

  lemma OnActivateCommand(script: Script, d: Component, i: nat)
    requires Up(d) && DistinctNames(d.names) && i < |d.names| && Answered(script, d.world.now)
    requires d.bus.joints[i].commandable && Heard(script, d.world, d.bus.joints[i].id)
    ensures var d' := OnActivate(script, d).1;
            && Up(d') && d'.bus.joints == d.bus.joints && d'.names == d.names
            && RequestOf(d'.requested, d.names[i])
            == Rad(TickToRad(RegisterValue(d.world.motors[d.bus.joints[i].id], PRESENT_POSITION, 4)))
  {
    assert d.bus.joints[i].id in d.world.motors;
    hide ReadAll, HoldAll, TorqueOnAll, PublishAll, TickToRad, RegisterValue, Heard;
    var d1 := Pull(script, d).1;
    PulledState(script, d, i);
    HoldAllFrame(d1, d1.bus.joints, d1.names);
    HeldCommand(d1, d1.bus.joints, d1.names, i);
  }

  /** The tick a register holds fits the register, so it survives the way through radians. */
  lemma HeldTick(m: Motor)
    ensures var tick := RegisterValue(m, PRESENT_POSITION, 4);
            RadToTick(TickToRad(tick)) == tick && Signed(GoalBytes(tick)) == tick
  {
    var tick := RegisterValue(m, PRESENT_POSITION, 4);
    RegisterValueInRange(m, PRESENT_POSITION, 4);
    TickRoundTrip(tick);
    GoalBytesRoundTrip(tick);
  }

  /**
   Bumpless activation. Whatever happens between on_activate and a write cycle, short of a command
   for the joint, the goal packet carries for every commandable joint with valid feedback exactly
   the present-position tick its motor held when activation read it, once. This holds even when
   activation fails after its read.
   */
  lemma BumplessActivation(script: Script, parse: Parser, d: Component, events: seq<Event>, i: nat)
    requires Up(d) && DistinctNames(d.names) && DistinctIds(d.bus.joints) && Answered(script, d.world.now)
    requires i < |d.names| && d.bus.joints[i].commandable && Heard(script, d.world, d.bus.joints[i].id)
    requires forall e :: e in events ==> KeepsCommand(e, d.names[i])
    ensures var d1 := Run(script, parse, OnActivate(script, d).1, events);
            var id := d.bus.joints[i].id;
            && Up(d1)
            && var sent := New(d1.world, WriteCycle(script, d1).world);
            && |sent| == 1 && sent[0].packet.SyncWrite? && OnePerId(sent[0].packet.entries)
            && var tick := RegisterValue(d.world.motors[id], PRESENT_POSITION, 4);
               exists e :: e in sent[0].packet.entries && e.id == id &&
                           e.data == GoalBytes(tick) && Signed(e.data) == tick
  {
    var id, name := d.bus.joints[i].id, d.names[i];
    assert id in d.world.motors;
    hide OnActivate, Run, RegisterValue, TickToRad, RadToTick, GoalBytes, Goals, FilterMap, Heard;
    hide WriteCycle, New, Signed, OnePerId, Pull, KeepsCommand;
    OnActivateCommand(script, d, i);
    RunKeepsCommand(script, parse, OnActivate(script, d).1, events, name);
    var d1 := Run(script, parse, OnActivate(script, d).1, events);
    SentHeldTick(script, d1, i);
    HeldMotorTick(d, i);
  }

  /**
   In double arithmetic too: the tick that activation read, reported as a rounded angle and converted
   back with rounding in every operation, gives the very bytes that the entry carries.
   */
  lemma BumplessActivationRounded(script: Script, parse: Parser, d: Component, events: seq<Event>, i: nat,
                                  e: Rounding.Errors)
    requires Up(d) && DistinctNames(d.names) && DistinctIds(d.bus.joints) && Answered(script, d.world.now)
    requires i < |d.names| && d.bus.joints[i].commandable && Heard(script, d.world, d.bus.joints[i].id)
    requires (forall event :: event in events ==> KeepsCommand(event, d.names[i])) && e.Valid()
    ensures var d1 := Run(script, parse, OnActivate(script, d).1, events);
            var id := d.bus.joints[i].id;
            && Up(d1)
            && var sent := New(d1.world, WriteCycle(script, d1).world);
            && |sent| == 1 && sent[0].packet.SyncWrite? && OnePerId(sent[0].packet.entries)
            && var tick := RegisterValue(d.world.motors[id], PRESENT_POSITION, 4);
               var goal := Rounding.RadToTick(Rounding.TickToRad(tick, e), e);
               goal == tick && Entry(id, GoalBytes(goal)) in sent[0].packet.entries
  {
    hide OnActivate, Run, WriteCycle, New, RegisterValue, GoalBytes, Pull, KeepsCommand;
    hide Rounding.RadToTick, Rounding.TickToRad;
    BumplessActivation(script, parse, d, events, i);
    var m := d.world.motors[d.bus.joints[i].id];
    RegisterValueInRange(m, PRESENT_POSITION, 4);
    Rounding.TickRoundTripRounded(RegisterValue(m, PRESENT_POSITION, 4), e);
  }

  lemma {:induction false} ResetOthers(states: map<StateKey, real>, names: seq<string>, name: string)
    requires name !in names
    ensures StateOf(ResetAll(states, names), name) == StateOf(states, name)
    decreases |names|
  {
    if names != [] {
      ResetOthers(states[StateKey(names[0], "position") := 0.0]
                        [StateKey(names[0], "velocity") := 0.0]
                        [StateKey(names[0], "effort") := 0.0], names[1..], name);
    }
  }

  lemma {:induction false} ResetPosition(states: map<StateKey, real>, names: seq<string>, i: nat)
    requires DistinctNames(names) && i < |names|
    ensures StateOf(ResetAll(states, names), names[i]) == Rad(0.0)
    decreases |names|
  {
    var states' := states[StateKey(names[0], "position") := 0.0]
                         [StateKey(names[0], "velocity") := 0.0]
                         [StateKey(names[0], "effort") := 0.0];
    if i == 0 {
      assert names[0] !in names[1..];
      ResetOthers(states', names[1..], names[0]);
    } else {
      ResetPosition(states', names[1..], i - 1);
    }
  }

  /** Configuring resets every joint's position state to 0 rad, the angle of the centre tick. */
  lemma ConfigureResetsStates(script: Script, parse: Parser, d: Component, os: OsReply, i: nat)
    requires OnConfigure(script, parse, d, os).0 && DistinctNames(d.names) && i < |d.names|
    ensures StateOf(OnConfigure(script, parse, d, os).1.states, d.names[i]) == Rad(0.0) && RadToTick(0.0) == 2048
  {
    hide BusModel.Configure;
    ResetPosition(d.states, d.names, i);
    CentreAndZero();
  }

  /**
   Valid feedback is needed. If the group read succeeds without a joint's data, activation holds the
   joint at its last known state and sends that angle's tick, wherever the joint is; right after
   configuring, that is the centre.
   */
  lemma UnheardJointIsSentItsLastState(script: Script, d: Component, i: nat, last: real)
    requires Up(d) && DistinctNames(d.names) && DistinctIds(d.bus.joints) && Answered(script, d.world.now)
    requires i < |d.names| && d.bus.joints[i].commandable && !Heard(script, d.world, d.bus.joints[i].id)
    requires StateOf(d.states, d.names[i]) == Rad(last)
    ensures var d1 := OnActivate(script, d).1;
            && Up(d1)
            && var sent := New(d1.world, WriteCycle(script, d1).world);
            && |sent| == 1 && sent[0].packet.SyncWrite?
            && exists e :: e in sent[0].packet.entries && e.id == d.bus.joints[i].id &&
                           Signed(e.data) == RadToTick(last)
  {
    hide Heard, ReadAll, HoldAll, TorqueOnAll, PublishAll, RadToTick, GoalBytes, WriteCycle, New, Signed;
    var d1 := Pull(script, d).1;
    SyncReadRefinesRegisterReads(script, d.bus, d.world, i);
    PublishedStates(d.states, d.names, d1.feedback, i, "position");
    HoldAllFrame(d1, d1.bus.joints, d1.names);
    HeldCommand(d1, d1.bus.joints, d1.names, i);
    SentHeldTick(script, OnActivate(script, d).1, i);
    GoalFits(last);
  }

  lemma GoalFits(angle: real)
    ensures Signed(GoalBytes(RadToTick(angle))) == RadToTick(angle)
  {
    WrapSpec(LRound(RadInTicks(angle)), 4);
    GoalBytesRoundTrip(RadToTick(angle));
  }

  lemma HeldMotorTick(d: Component, i: nat)
    requires i < |d.bus.joints| && d.bus.joints[i].id in d.world.motors
    ensures var tick := RegisterValue(d.world.motors[d.bus.joints[i].id], PRESENT_POSITION, 4);
            RadToTick(TickToRad(tick)) == tick && Signed(GoalBytes(tick)) == tick
  {
    HeldTick(d.world.motors[d.bus.joints[i].id]);
  }

  /** A write cycle sends a commanded joint's tick in the only entry for its motor. */
  lemma SentHeldTick(script: Script, d: Component, i: nat)
    requires Up(d) && DistinctIds(d.bus.joints) && i < |d.names| && d.bus.joints[i].commandable
    requires RequestOf(d.requested, d.names[i]).Rad?
    ensures var sent := New(d.world, WriteCycle(script, d).world);
            && |sent| == 1 && sent[0].packet.SyncWrite? && OnePerId(sent[0].packet.entries)
            && Entry(d.bus.joints[i].id, GoalBytes(RadToTick(RequestOf(d.requested, d.names[i]).value)))
               in sent[0].packet.entries
  {
    hide Goals, FilterMap, GoalBytes, RadToTick, OnePerId, DistinctIds;
    var commands := CommandVector(d.bus.joints, d.names, d.requested);
    WriteOnceExtends(script, d.bus, d.world, commands);
    GoalsFilterMap([], d.bus.joints, commands);
    OnePerIdOfNone();
    GoalsOnePerId([], d.bus.joints, commands);
    FilterMapEntries(d.bus.joints, commands);
    assert Commanded(d.bus.joints, commands, i);
    assert [] + FilterMap(d.bus.joints, commands) == FilterMap(d.bus.joints, commands);
  }

  // ---------- order of activation and what failures leave

  function TorqueOnOrders(joints: seq<JointSpec>): seq<Order> {
    if joints == [] then []
    else (if joints[0].commandable then [WriteOrder(joints[0].id, TORQUE_ENABLE, 1, 1)] else [])
         + TorqueOnOrders(joints[1..])
  }

  lemma {:induction false} TorqueOnAllIsExecute(script: Script, w: World, joints: seq<JointSpec>)
    ensures TorqueOnAll(script, w, joints) == Execute(script, w, TorqueOnOrders(joints))
    decreases |joints|
  {
    if joints != [] {
      hide SetTorque;
      var rest := TorqueOnOrders(joints[1..]);
      if joints[0].commandable {
        assert TorqueOnOrders(joints)[1..] == rest;
        TorqueIsAnOrder(script, w, joints[0].id);
        TorqueOnAllIsExecute(script, SetTorque(script, w, joints[0].id, true).1, joints[1..]);
      } else {
        assert TorqueOnOrders(joints) == rest;
        TorqueOnAllIsExecute(script, w, joints[1..]);
      }
    }
  }

  lemma TorqueIsAnOrder(script: Script, w: World, id: Id)
    ensures SetTorque(script, w, id, true) == Issue(script, w, WriteOrder(id, TORQUE_ENABLE, 1, 1))
  {
  }

  lemma {:induction false} TorqueOnOrdersCommandable(joints: seq<JointSpec>)
    ensures forall o :: o in TorqueOnOrders(joints) <==>
              exists j :: j in joints && j.commandable && o == WriteOrder(j.id, TORQUE_ENABLE, 1, 1)
  {
    if joints != [] {
      TorqueOnOrdersCommandable(joints[1..]);
      assert forall j :: j in joints <==> j == joints[0] || j in joints[1..];
    }
  }

  lemma {:induction false} HoldsCover(d: Component, joints: seq<JointSpec>, names: seq<string>, i: nat)
    requires |joints| == |names| && i < |names| && joints[i].commandable
    ensures var holds := HoldAll(d, joints, names).holds;
            && |d.holds| <= |holds|
            && exists h :: h in holds[|d.holds|..] && h.joint == names[i] && h.sentBefore == |d.world.trace|
    decreases |joints|
  {
    HoldsGrow(d, joints, names);
    var d' := HoldOne(d, joints[0], names[0]);
    HoldsGrow(d', joints[1..], names[1..]);
    var holds := HoldAll(d, joints, names).holds;
    if i == 0 {
      var h := Hold(names[0], StateOf(d.states, names[0]), |d.world.trace|);
      assert holds[|d.holds|] == h && h in holds[|d.holds|..];
    } else {
      HoldsCover(d', joints[1..], names[1..], i - 1);
      var h :| h in holds[|d'.holds|..] && h.joint == names[i] && h.sentBefore == |d.world.trace|;
      assert holds[|d'.holds|..] == holds[|d.holds|..][|d'.holds| - |d.holds|..];
    }
  }

  lemma {:induction false} HoldsGrow(d: Component, joints: seq<JointSpec>, names: seq<string>)
    requires |joints| == |names|
    ensures |d.holds| <= |HoldAll(d, joints, names).holds|
    ensures HoldAll(d, joints, names).holds[..|d.holds|] == d.holds
    decreases |joints|
  {
    if joints != [] {
      var d' := HoldOne(d, joints[0], names[0]);
      HoldsGrow(d', joints[1..], names[1..]);
      assert HoldAll(d, joints, names).holds[..|d.holds|] == d'.holds[..|d.holds|];
    }
  }

  /**
   The shape of every activation. A torque-on packet goes to a commandable joint's motor, and by then
   the command of every commandable joint had been set. If activation fails after its read, the last
   packet is the one that failed; the torque-on packets before it were acknowledged and nothing
   takes them back.
   */
  lemma TorqueComesAfterHolds(script: Script, d: Component)
    requires Up(d) && Answered(script, d.world.now)
    ensures var d1 := Pull(script, d).1;
            var (ok, d') := OnActivate(script, d);
            var orders := TorqueOnOrders(d.bus.joints);
            && Extends(d1.world, d'.world) && Follows(New(d1.world, d'.world), orders, ok)
            && (forall o :: o in orders <==>
                  exists j :: j in d.bus.joints && j.commandable && o == WriteOrder(j.id, TORQUE_ENABLE, 1, 1))
            && |d.holds| <= |d'.holds|
            && forall i :: 0 <= i < |d.names| && d.bus.joints[i].commandable ==>
                 exists h :: h in d'.holds[|d.holds|..] && h.joint == d.names[i] && h.sentBefore == |d1.world.trace|
  {
    hide Follows, HoldAll, TorqueOnAll, Execute, TorqueOnOrders;
    var d1 := Pull(script, d).1;
    var joints := d1.bus.joints;
    HoldAllFrame(d1, joints, d1.names);
    TorqueOnAllIsExecute(script, d1.world, joints);
    ExecuteFacts(script, d1.world, TorqueOnOrders(joints));
    TorqueOnOrdersCommandable(joints);
    HoldsGrow(d1, joints, d1.names);
    forall i | 0 <= i < |d.names| && joints[i].commandable
      ensures exists h :: h in HoldAll(d1, joints, d1.names).holds[|d.holds|..] && h.joint == d.names[i] &&
                          h.sentBefore == |d1.world.trace|
    {
      HoldsCover(d1, joints, d1.names, i);
    }
  }

  /** Deactivation sends torque-off to every joint, whichever of them fail. */
  lemma {:induction false} DeactivateReachesAll(script: Script, w: World, joints: seq<JointSpec>)
    ensures var w' := TorqueOffAll(script, w, joints);
            && Extends(w, w') && |New(w, w')| == |joints|
            && forall k :: 0 <= k < |joints| ==> DisablesTorque(New(w, w')[k].packet, joints[k].id)
    decreases |joints|
  {
    hide SetTorque;
    if joints != [] {
      var w1 := SetTorque(script, w, joints[0].id, false).1;
      TorqueOffSends(script, w, joints[0].id);
      DeactivateReachesAll(script, w1, joints[1..]);
      ExtendsTwice(w, w1, TorqueOffAll(script, w1, joints[1..]));
    }
  }

  lemma TorqueOffSends(script: Script, w: World, id: Id)
    ensures var w1 := SetTorque(script, w, id, false).1;
            Extends(w, w1) && |New(w, w1)| == 1 && DisablesTorque(New(w, w1)[0].packet, id)
  {
    EncodeZero();
  }

  // ---------- which motors end up with torque

  /** A torque write that this motor carried out. */
  predicate Torqued(s: Sent, id: Id, on: bool) {
    s.applied && s.packet == Packet.Write(id, TORQUE_ENABLE, [if on then 1 else 0])
  }

  lemma TorqueWriteOnMotor(script: Script, w: World, target: Id, on: bool, id: Id)
    requires target != BROADCAST && id in w.motors
    ensures var w1 := SetTorque(script, w, target, on).1;
            && Extends(w, w1) && |New(w, w1)| == 1 && id in w1.motors
            && TorqueOn(w1.motors[id]) == if Torqued(New(w, w1)[0], id, on) then on else TorqueOn(w.motors[id])
  {
    EncodeZero();
    TorqueByte();
  }

  /** Switching on, as far as it gets: torque is on where it was, and where a torque-on was carried out. */
  lemma {:induction false} TorqueOnAllMotors(script: Script, w: World, joints: seq<JointSpec>, id: Id)
    requires id in w.motors && NoneBroadcast(joints)
    ensures var w' := TorqueOnAll(script, w, joints).1;
            && Extends(w, w') && id in w'.motors
            && (TorqueOn(w'.motors[id]) <==>
                  TorqueOn(w.motors[id]) || exists s :: s in New(w, w') && Torqued(s, id, true))
    decreases |joints|
  {
    hide SetTorque, Torqued;
    if joints == [] {
    } else if !joints[0].commandable {
      TorqueOnAllMotors(script, w, joints[1..], id);
    } else {
      var (ok, w1) := SetTorque(script, w, joints[0].id, true);
      TorqueWriteOnMotor(script, w, joints[0].id, true, id);
      assert New(w, w1) == [New(w, w1)[0]];
      if ok {
        TorqueOnAllMotors(script, w1, joints[1..], id);
        ExtendsTwice(w, w1, TorqueOnAll(script, w1, joints[1..]).1);
      }
    }
  }

  /** Switching off: torque stays on only where it was and no torque-off was carried out. */
  lemma {:induction false} TorqueOffAllMotors(script: Script, w: World, joints: seq<JointSpec>, id: Id)
    requires id in w.motors && NoneBroadcast(joints)
    ensures var w' := TorqueOffAll(script, w, joints);
            && Extends(w, w') && id in w'.motors
            && (TorqueOn(w'.motors[id]) <==>
                  TorqueOn(w.motors[id]) && forall s :: s in New(w, w') ==> !Torqued(s, id, false))
    decreases |joints|
  {
    hide SetTorque, Torqued;
    if joints != [] {
      var w1 := SetTorque(script, w, joints[0].id, false).1;
      TorqueWriteOnMotor(script, w, joints[0].id, false, id);
      assert New(w, w1) == [New(w, w1)[0]];
      TorqueOffAllMotors(script, w1, joints[1..], id);
      ExtendsTwice(w, w1, TorqueOffAll(script, w1, joints[1..]));
    }
  }

  /**
   The motors after the two callbacks, whatever is answered. After activation, also a failing one, a
   motor's torque is on exactly when it was on before or the motor carried out a torque-on packet of
   the callback; after deactivation, exactly when it was on and the motor carried out no torque-off.
   */
  lemma TorqueAfterCallbacks(script: Script, d: Component, id: Id)
    requires Inv(d) && d.bus.port && id in d.world.motors
    ensures var w, active, idle := d.world, OnActivate(script, d).1.world, OnDeactivate(script, d).world;
            && id in active.motors && id in idle.motors
            && (TorqueOn(active.motors[id]) <==>
                  TorqueOn(w.motors[id]) || exists s :: s in New(w, active) && Torqued(s, id, true))
            && (TorqueOn(idle.motors[id]) <==>
                  TorqueOn(w.motors[id]) && forall s :: s in New(w, idle) ==> !Torqued(s, id, false))
  {
    hide TorqueOnAll, TorqueOffAll, HoldAll, Torqued, Pull, Inv;
    InvUp(d);
    PullIsNoWrite(script, d, id);
    var d1 := Pull(script, d).1;
    HoldAllFrame(d1, d1.bus.joints, d1.names);
    TorqueOnAllMotors(script, d1.world, d.bus.joints, id);
    ExtendsTwice(d.world, d1.world, TorqueOnAll(script, d1.world, d.bus.joints).1);
    TorqueOffAllMotors(script, d.world, d.bus.joints, id);
  }

  lemma InvUp(d: Component)
    requires Inv(d) && d.bus.port
    ensures Up(d) && NoneBroadcast(d.bus.joints)
  {
  }

  /** A pull sends reads only and leaves every motor as it is. */
  lemma PullIsNoWrite(script: Script, d: Component, id: Id)
    requires Up(d)
    ensures var w' := Pull(script, d).1.world;
            && Extends(d.world, w') && w'.motors == d.world.motors
            && forall s :: s in New(d.world, w') ==> !Torqued(s, id, true)
  {
    hide PublishAll, Feedbacks, WindowOf, Present, Signed;
    var w1 := SyncReadWindows(script, d.world, d.bus.readGroup.value).2;
    var w' := Pull(script, d).1.world;
    assert New(d.world, w1) == [w1.trace[|d.world.trace|]];
    if w' != w1 {
      assert New(w1, w') == [w'.trace[|w1.trace|]];
      ExtendsTwice(d.world, w1, w');
    }
  }

  // ---------- activation is a run of single steps

  function HoldEvents(n: nat): seq<Event> { seq(n, i requires 0 <= i < n => HoldStep(i)) }

  lemma {:induction false} RunAppend(script: Script, parse: Parser, d: Component, a: seq<Event>, b: seq<Event>)
    ensures Run(script, parse, d, a + b) == Run(script, parse, Run(script, parse, d, a), b)
    decreases |a|
  {
    if a == [] {
      assert a + b == b;
    } else {
      assert (a + b)[1..] == a[1..] + b;
      RunAppend(script, parse, Step(script, parse, d, a[0]), a[1..], b);
    }
  }

  lemma {:induction false} HoldsAreSteps(script: Script, parse: Parser, d: Component, i: nat)
    requires Up(d) && i <= |d.names|
    ensures HoldAll(d, d.bus.joints[i..], d.names[i..]) == Run(script, parse, d, HoldEvents(|d.names|)[i..])
    decreases |d.names| - i
  {
    var events := HoldEvents(|d.names|);
    if i < |d.names| {
      assert d.bus.joints[i..][0] == d.bus.joints[i] && d.bus.joints[i..][1..] == d.bus.joints[i + 1..];
      assert d.names[i..][0] == d.names[i] && d.names[i..][1..] == d.names[i + 1..];
      assert events[i..][0] == HoldStep(i) && events[i..][1..] == events[i + 1..];
      HoldsAreSteps(script, parse, HoldOne(d, d.bus.joints[i], d.names[i]), i + 1);
    }
  }

  lemma {:induction false} TorquesAreSteps(script: Script, parse: Parser, d: Component, i: nat)
    returns (events: seq<Event>)
    requires Up(d) && i <= |d.names|
    ensures forall e :: e in events ==> e.TorqueStep?
    ensures Run(script, parse, d, events)
         == d.(world := TorqueOnAll(script, d.world, d.bus.joints[i..]).1)
    decreases |d.names| - i
  {
    events := [];
    if i < |d.names| {
      hide SetTorque;
      assert d.bus.joints[i..][0] == d.bus.joints[i] && d.bus.joints[i..][1..] == d.bus.joints[i + 1..];
      if d.bus.joints[i].commandable {
        var (ok, world) := SetTorque(script, d.world, d.bus.joints[i].id, true);
        var d' := d.(world := world);
        assert Step(script, parse, d, TorqueStep(i)) == d';
        if ok {
          events := TorquesAreSteps(script, parse, d', i + 1);
        }
        RunCons(script, parse, d, TorqueStep(i), events);
        events := [TorqueStep(i)] + events;
      } else {
        events := TorquesAreSteps(script, parse, d, i + 1);
      }
    }
  }

  lemma RunCons(script: Script, parse: Parser, d: Component, e: Event, events: seq<Event>)
    ensures Run(script, parse, d, [e] + events) == Run(script, parse, Step(script, parse, d, e), events)
  {
    assert ([e] + events)[1..] == events;
  }

  /**
   on_activate is a run of a read and single hold and torque steps, so the theorems about runs, in
   which other events may fall between those steps, apply to it.
   */
  lemma ActivateIsARun(script: Script, parse: Parser, d: Component) returns (events: seq<Event>)
    requires Up(d)
    ensures forall e :: e in events ==> e.Read? || e.HoldStep? || e.TorqueStep?
    ensures Run(script, parse, d, events) == OnActivate(script, d).1
  {
    hide Pull, HoldAll, TorqueOnAll;
    var (pulled, d1) := Pull(script, d);
    assert Step(script, parse, d, Event.Read) == d1;
    events := [];
    if pulled {
      HoldsAreSteps(script, parse, d1, 0);
      assert d1.bus.joints[0..] == d1.bus.joints && d1.names[0..] == d1.names;
      var holds := HoldEvents(|d1.names|);
      assert holds[0..] == holds;
      HoldAllFrame(d1, d1.bus.joints, d1.names);
      var d2 := HoldAll(d1, d1.bus.joints, d1.names);
      var torques := TorquesAreSteps(script, parse, d2, 0);
      assert d2.bus.joints[0..] == d2.bus.joints;
      RunAppend(script, parse, d1, holds, torques);
      events := holds + torques;
    }
    RunCons(script, parse, d, Event.Read, events);
    events := [Event.Read] + events;
  }

  function UntorqueEvents(n: nat): seq<Event> { seq(n, i requires 0 <= i < n => UntorqueStep(i)) }

  lemma {:induction false} UntorquesAreSteps(script: Script, parse: Parser, d: Component, i: nat)
    requires Up(d) && i <= |d.names|
    ensures Run(script, parse, d, UntorqueEvents(|d.names|)[i..])
         == d.(world := TorqueOffAll(script, d.world, d.bus.joints[i..]))
    decreases |d.names| - i
  {
    hide SetTorque;
    var events := UntorqueEvents(|d.names|);
    if i < |d.names| {
      assert d.bus.joints[i..][0] == d.bus.joints[i] && d.bus.joints[i..][1..] == d.bus.joints[i + 1..];
      assert events[i..][0] == UntorqueStep(i) && events[i..][1..] == events[i + 1..];
      var d' := d.(world := SetTorque(script, d.world, d.bus.joints[i].id, false).1);
      assert Step(script, parse, d, UntorqueStep(i)) == d';
      UntorquesAreSteps(script, parse, d', i + 1);
    }
  }

  /** So is on_deactivate: one torque-off step a joint. */
  lemma DeactivateIsARun(script: Script, parse: Parser, d: Component)
    requires Up(d)
    ensures Run(script, parse, d, UntorqueEvents(|d.names|)) == OnDeactivate(script, d)
  {
    UntorquesAreSteps(script, parse, d, 0);
    assert UntorqueEvents(|d.names|)[0..] == UntorqueEvents(|d.names|) && d.bus.joints[0..] == d.bus.joints;
  }

  // ---------- a service for every motor is a run of single steps too

  lemma {:induction false} TorqueServiceIsARun(script: Script, parse: Parser, d: Component, ids: seq<Id>, on: bool)
    returns (events: seq<Event>)
    requires Up(d)
    ensures forall e :: e in events ==> e.TorqueService? && e.id in ids && e.on == on
    ensures Run(script, parse, d, events) == d.(world := TorqueEach(script, d.world, ids, on).1)
    decreases |ids|
  {
    hide SetTorque;
    events := [];
    if ids != [] {
      var (ok, world) := SetTorque(script, d.world, ids[0], on);
      if ok { events := TorqueServiceIsARun(script, parse, d.(world := world), ids[1..], on); }
      RunCons(script, parse, d, TorqueService(ids[0], on), events);
      events := [TorqueService(ids[0], on)] + events;
    }
  }

  lemma {:induction false} RebootServiceIsARun(script: Script, parse: Parser, d: Component, ids: seq<Id>)
    returns (events: seq<Event>)
    requires Up(d)
    ensures forall e :: e in events ==> e.RebootService? && e.id in ids
    ensures Run(script, parse, d, events) == d.(world := RebootEach(script, d.world, ids).1)
    decreases |ids|
  {
    hide RebootMotor;
    events := [];
    if ids != [] {
      var (ok, world) := RebootMotor(script, d.world, ids[0]);
      if ok { events := RebootServiceIsARun(script, parse, d.(world := world), ids[1..]); }
      RunCons(script, parse, d, RebootService(ids[0]), events);
      events := [RebootService(ids[0])] + events;
    }
  }

  lemma {:induction false} ZeroServiceIsARun(script: Script, parse: Parser, d: Component, ids: seq<Id>)
    returns (events: seq<Event>)
    requires Up(d)
    ensures forall e :: e in events ==> e.ZeroService? && e.id in ids
    ensures var (ok, bus, world) := ZeroEach(script, d.bus, d.world, ids);
            Run(script, parse, d, events) == d.(bus := bus, world := world)
    decreases |ids|
  {
    hide SetZero;
    events := [];
    if ids != [] {
      var (ok, bus, world) := SetZero(script, d.bus, d.world, ids[0]);
      if ok { events := ZeroServiceIsARun(script, parse, d.(bus := bus, world := world), ids[1..]); }
      RunCons(script, parse, d, ZeroService(ids[0]), events);
      events := [ZeroService(ids[0])] + events;
    }
  }

  lemma {:induction false} WriteServiceIsARun(script: Script, parse: Parser, d: Component, ids: seq<Id>,
                                              address: Address, size: nat, value: int) returns (events: seq<Event>)
    requires Up(d)
    ensures forall e :: e in events ==> exists id :: id in ids && e == WriteService(id, address, size, value)
    ensures Run(script, parse, d, events) == d.(world := WriteEach(script, d.world, ids, address, size, value).1)
    decreases |ids|
  {
    hide WriteRegister;
    events := [];
    if ids != [] {
      var (ok, world) := WriteRegister(script, d.world, ids[0], address, size, value);
      if ok { events := WriteServiceIsARun(script, parse, d.(world := world), ids[1..], address, size, value); }
      RunCons(script, parse, d, WriteService(ids[0], address, size, value), events);
      events := [WriteService(ids[0], address, size, value)] + events;
    }
  }

  // ---------- where the code departs from its documentation

  predicate SendsTorqueOn(sent: seq<Sent>, id: Id) {
    exists k :: 0 <= k < |sent| && EnablesTorque(sent[k].packet) && WritesTo(sent[k].packet, id)
  }

  /**
   A documented torque_enable parameter is not consulted. A successful activation of a configured
   component sends torque-on to a joint whose description says torque_enable "false" exactly when the
   joint has a position command interface, as for any other joint.
   */
  lemma {:induction false} TorqueEnableParameterIgnored(script: Script, stoi: Parser, infos: seq<JointInfo>,
                                                        d: Component, i: nat)
    requires Inv(d) && d.bus.port && i < |infos|
    requires SpecsOf(stoi, infos).Built? && d.specs == SpecsOf(stoi, infos).value
    requires "torque_enable" in infos[i].parameters && infos[i].parameters["torque_enable"] == "false"
    requires Answered(script, d.world.now) && OnActivate(script, d).0
    ensures Pull(script, d).0 && |d.specs| == |infos|
    ensures var sent := New(Pull(script, d).1.world, OnActivate(script, d).1.world);
            SendsTorqueOn(sent, d.specs[i].id) <==> "position" in infos[i].commandInterfaces
  {
    hide OnActivate, Pull, New, Follows, TorqueOnOrders, WritesTo, EnablesTorque;
    SpecsAreInfos(stoi, infos, i);
    PullSucceeds(script, d);
    TorqueComesAfterHolds(script, d);
    var sent := New(Pull(script, d).1.world, OnActivate(script, d).1.world);
    TorquedAreCommandable(sent, TorqueOnOrders(d.bus.joints), d.bus.joints, i);
  }

  lemma {:induction false} TorquedAreCommandable(sent: seq<Sent>, orders: seq<Order>, joints: seq<JointSpec>, i: nat)
    requires Follows(sent, orders, true) && DistinctIds(joints) && i < |joints|
    requires forall o :: o in orders <==>
               exists j :: j in joints && j.commandable && o == WriteOrder(j.id, TORQUE_ENABLE, 1, 1)
    ensures SendsTorqueOn(sent, joints[i].id) <==> joints[i].commandable
  {
    TorqueByte();
    var order := WriteOrder(joints[i].id, TORQUE_ENABLE, 1, 1);
    if joints[i].commandable {
      assert joints[i] in joints;
      assert order in orders;
      var k :| 0 <= k < |orders| && orders[k] == order;
      assert EnablesTorque(sent[k].packet) && WritesTo(sent[k].packet, joints[i].id);
    }
    forall k | 0 <= k < |sent| && WritesTo(sent[k].packet, joints[i].id)
      ensures joints[i].commandable
    {
      assert orders[k] in orders;
      var j :| j in joints && j.commandable && orders[k] == WriteOrder(j.id, TORQUE_ENABLE, 1, 1);
      var m :| 0 <= m < |joints| && joints[m] == j;
      assert joints[m].id == joints[i].id;
    }
  }

  lemma PullSucceeds(script: Script, d: Component)
    requires Up(d)
    ensures Pull(script, d).0 <==> Answered(script, d.world.now)
  {
  }

  lemma TorqueByte()
    ensures Encode(1, 1) == [1]
  {
  }
}
