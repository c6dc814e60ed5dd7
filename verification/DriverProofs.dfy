/**
 Whole runs of the component. A run interleaves callbacks, cycles, controller commands, single
 service steps and whatever the motors do on their own, under any pattern of failures. Activation
 and deactivation are taken apart into their bus steps, so a service may fall between two of them.
 */
module DriverProofs {
  import opened Wrappers
  import opened Bytes
  import opened Units
  import opened ControlTable
  import opened Wire
  import opened BusModel
  import opened DriverModel
  import opened ConfigureProofs
  import opened ProgramProofs
  import opened FeedbackProofs
  import opened Ports

  datatype Event =
    | Configure(os: OsReply)
    | Cleanup
    | Read
    | Write
    | HoldStep(i: nat)                       // on_activate sets one joint's command
    | TorqueStep(i: nat)                     // on_activate turns one commandable joint's torque on
    | UntorqueStep(i: nat)                   // on_deactivate turns one joint's torque off
    | Control(joint: string, command: Command)
    | TorqueService(id: Id, on: bool)
    | RebootService(id: Id)
    | ZeroService(id: Id)
    | ReadService(id: Id, address: Address, size: nat)
    | WriteService(id: Id, address: Address, size: nat, value: int)
    | Drift(motors: Motors)

  predicate Drifted(a: Motors, b: Motors) {
    a.Keys == b.Keys && forall id :: id in a ==> Drifts(a[id], b[id])
  }

  /** When the surrounding framework may run an event; services need a configured component. */
  predicate Enabled(d: Component, e: Event) {
    match e
    case Configure(_) => !d.bus.port
    case Control(_, _) => true
    case Drift(motors) => Drifted(d.world.motors, motors)
    case HoldStep(i) => Up(d) && i < |d.names|
    case TorqueStep(i) => Up(d) && i < |d.names| && d.bus.joints[i].commandable
    case UntorqueStep(i) => Up(d) && i < |d.names|
    case _ => Up(d)
  }

  function Step(script: Script, parse: Parser, d: Component, e: Event): Component {
    if !Enabled(d, e) then d
    else
      match e
      case Configure(os) => OnConfigure(script, parse, d, os).1
      case Cleanup => OnCleanup(d)
      case Read => Pull(script, d).1
      case Write => WriteCycle(script, d)
      case HoldStep(i) => HoldOne(d, d.bus.joints[i], d.names[i])
      case TorqueStep(i) => d.(world := SetTorque(script, d.world, d.bus.joints[i].id, true).1)
      case UntorqueStep(i) => d.(world := SetTorque(script, d.world, d.bus.joints[i].id, false).1)
      case Control(joint, command) => d.(requested := d.requested[joint := command])
      case TorqueService(id, on) => d.(world := SetTorque(script, d.world, id, on).1)
      case RebootService(id) => d.(world := RebootMotor(script, d.world, id).1)
      case ZeroService(id) =>
        var (ok, bus, world) := SetZero(script, d.bus, d.world, id);
        d.(bus := bus, world := world)
      case ReadService(id, address, size) => d.(world := ReadRegister(script, d.world, id, address, size).2)
      case WriteService(id, address, size, value) =>
        d.(world := WriteRegister(script, d.world, id, address, size, value).1)
      case Drift(motors) => d.(world := d.world.(motors := motors))
  }

  function Run(script: Script, parse: Parser, d: Component, events: seq<Event>): Component
    decreases |events|
  {
    if events == [] then d else Run(script, parse, Step(script, parse, d, events[0]), events[1..])
  }

  // ---------- what holds between events

  /**
   The port is open exactly while configured. Then the component is up, the ids are distinct, none is
   the broadcast id, and the joints are those of the specs.
   */
  ghost predicate Inv(d: Component) {
    && |d.names| == |d.specs|
    && (d.bus.port <==> d.bus.readGroup.Some?)
    && (d.bus.port ==>
          && Up(d) && DistinctIds(d.bus.joints) && NoneBroadcast(d.bus.joints)
          && SameJoints(d.bus.joints, d.specs))
  }

  predicate NoneBroadcast(joints: seq<JointSpec>) {
    forall i :: 0 <= i < |joints| ==> joints[i].id != BROADCAST
  }

  /** A component fresh from on_init satisfies the invariant, whatever is on the line. */
  lemma InitialInv(d: Component)
    requires d.bus == CLOSED && d.names == NamesOf(d.specs)
    ensures Inv(d)
  {
  }

  /** A successful configure: read group complete, ids distinct, every one of them an actual motor's. */
  lemma ConfigureReady(script: Script, parse: Parser, b: BusState, w: World, specs: seq<JointSpec>)
    requires BusModel.Configure(script, parse, b, w, specs).0
    ensures var b' := BusModel.Configure(script, parse, b, w, specs).1;
            && Ready(b') && b'.readGroup == Some(IdsOf(specs)) && DistinctIds(b'.joints) && NoneBroadcast(b'.joints)
            && SameJoints(b'.joints, specs)
  {
    hide BusModel.Configure, NoneBroadcast, SameJoints, DistinctIds, PingAll, JoinAll;
    var joints := PingAll(script, w, specs).1;
    NoneIsBroadcast(script, parse, b, w, specs);
    ConfiguredState(script, parse, b, w, specs);
    PingedIds(script, w, specs);
    JoinAllDistinct([], joints);
    JoinedIds(joints);
    SameNoneBroadcast(joints, specs);
  }

  lemma PingedIds(script: Script, w: World, specs: seq<JointSpec>)
    ensures var joints := PingAll(script, w, specs).1; SameJoints(joints, specs) && IdsOf(joints) == IdsOf(specs)
  {
    PingAllFacts(script, w, specs);
  }

  lemma ConfiguredState(script: Script, parse: Parser, b: BusState, w: World, specs: seq<JointSpec>)
    requires BusModel.Configure(script, parse, b, w, specs).0
    ensures var b', joints := BusModel.Configure(script, parse, b, w, specs).1, PingAll(script, w, specs).1;
            && b.port && b'.port && b'.joints == joints && b'.writeGroup.Some? && b'.cursor == 0
            && |b'.homing| == |b'.errors| == |joints|
            && JoinAll([], joints).0 && b'.readGroup == Some(JoinAll([], joints).1)
  {
    hide PingAll, Execute, ReadHoming, SetupOrders, JoinAll;
  }

  lemma NoneIsBroadcast(script: Script, parse: Parser, b: BusState, w: World, specs: seq<JointSpec>)
    requires BusModel.Configure(script, parse, b, w, specs).0
    ensures NoneBroadcast(specs)
  {
    hide BusModel.Configure;
    forall i | 0 <= i < |specs| ensures specs[i].id != BROADCAST {
      EveryJointAnswered(script, parse, b, w, specs, i);
    }
  }

  lemma SameNoneBroadcast(a: seq<JointSpec>, b: seq<JointSpec>)
    requires IdsOf(a) == IdsOf(b) && NoneBroadcast(b)
    ensures NoneBroadcast(a)
  {
    assert forall i :: 0 <= i < |a| ==> IdsOf(a)[i] == a[i].id;
  }

  lemma OnConfigureInv(script: Script, parse: Parser, d: Component, os: OsReply)
    requires Inv(d) && !d.bus.port
    ensures Inv(OnConfigure(script, parse, d, os).1)
    ensures OnConfigure(script, parse, d, os).0 <==> OnConfigure(script, parse, d, os).1.bus.port
  {
    hide BusModel.Configure;
    var (isOpen, bus) := Open(d.bus, os);
    if isOpen && BusModel.Configure(script, parse, bus, d.world, d.specs).0 {
      ConfigureReady(script, parse, bus, d.world, d.specs);
    }
  }

  lemma StepInv(script: Script, parse: Parser, d: Component, e: Event)
    requires Inv(d)
    ensures Inv(Step(script, parse, d, e))
    ensures Step(script, parse, d, e).specs == d.specs && Step(script, parse, d, e).names == d.names
  {
    hide OnConfigure, SetZero, SetTorque, RebootMotor, ReadRegister, WriteRegister, ReadAll, WritePositions;
    hide PublishAll, DistinctIds, NoneBroadcast, SameJoints;
    if e.Configure? && Enabled(d, e) {
      OnConfigureInv(script, parse, d, e.os);
      OnConfigureKeeps(script, parse, d, e.os);
    }
  }

  lemma OnConfigureKeeps(script: Script, parse: Parser, d: Component, os: OsReply)
    ensures var d' := OnConfigure(script, parse, d, os).1; d'.specs == d.specs && d'.names == d.names
  {
  }

  /** Every failing path of on_configure closes the port and gives the lock back; success keeps both. */
  lemma FailedConfigureCloses(script: Script, parse: Parser, d: Component, os: OsReply)
    requires InPhase(d.bus, Closed)
    ensures var (ok, d') := OnConfigure(script, parse, d, os);
            InPhase(d'.bus, if ok then Running else Closed)
  {
    var (isOpen, bus) := Open(d.bus, os);
    if isOpen {
      ConfigureKeepsPort(script, parse, bus, d.world, d.specs);
    }
  }

  lemma ConfigureKeepsPort(script: Script, parse: Parser, b: BusState, w: World, specs: seq<JointSpec>)
    ensures var b' := BusModel.Configure(script, parse, b, w, specs).1; b'.port == b.port && b'.lockFd == b.lockFd
  {
  }

  // ---------- packets that leave a motor limp

  /** A write this motor acts on: its own, or a broadcast. */
  predicate Reaches(p: Packet, id: Id) {
    p.Write? && (p.id == id || p.id == BROADCAST)
  }

  /** Neither torque-on nor a goal position for this motor. */
  predicate Spares(p: Packet, id: Id) {
    && (Reaches(p, id) ==>
          !EnablesTorque(p) && Disjoint(p.address, |p.data|, GOAL_POSITION, GOAL_POSITION_LENGTH))
    && (p.SyncWrite? ==> !HasEntry(p.entries, id))
  }

  /** From one world to the next only such packets were sent, and torque that was off is still off. */
  predicate Quiet(w: World, w': World, id: Id) {
    && Extends(w, w')
    && (forall k :: 0 <= k < |New(w, w')| ==> Spares(New(w, w')[k].packet, id))
    && (id in w.motors && !TorqueOn(w.motors[id]) ==> !TorqueOn(w'.motors[id]))
  }

  lemma QuietTwice(a: World, b: World, c: World, id: Id)
    requires Quiet(a, b, id) && Quiet(b, c, id)
    ensures Quiet(a, c, id)
  {
    ExtendsTwice(a, b, c);
  }

  /**
   A register write that cannot wake the motor: another single motor's, or clear of torque and goal.
   The broadcast id counts as everybody's.
   */
  predicate HarmlessWrite(target: Id, address: nat, size: nat, value: int, id: Id) {
    target == id || target == BROADCAST ==>
      && Disjoint(address, size, GOAL_POSITION, GOAL_POSITION_LENGTH)
      && (Disjoint(address, size, TORQUE_ENABLE, 1) || (address == TORQUE_ENABLE && size == 1 && value % 256 == 0))
  }

  lemma WriteQuiet(script: Script, w: World, target: Id, address: Address, size: nat, value: int, id: Id)
    requires HarmlessWrite(target, address, size, value, id)
    ensures Quiet(w, WriteRegister(script, w, target, address, size, value).1, id)
  {
    if SupportedSize(size) {
      var data := Encode(value, size);
      assert size == 1 ==> data[0] == value % 256;
    }
  }

  lemma ReadQuiet(script: Script, w: World, target: Id, address: Address, size: nat, id: Id)
    ensures Quiet(w, ReadRegister(script, w, target, address, size).2, id)
  {
  }

  lemma RebootQuiet(script: Script, w: World, target: Id, id: Id)
    ensures Quiet(w, RebootMotor(script, w, target).1, id)
  {
  }

  lemma ReadAllQuiet(script: Script, b: BusState, w: World, id: Id)
    requires Ready(b)
    ensures Quiet(w, ReadAll(script, b, w).3, id)
  {
    var w1 := SyncReadWindows(script, w, b.readGroup.value).2;
    assert Quiet(w, w1, id);
    if ReadAll(script, b, w).0 && b.joints != [] {
      var target := b.joints[b.cursor % |b.joints|].id;
      ReadQuiet(script, w1, target, HARDWARE_ERROR_STATUS, 1, id);
      QuietTwice(w, w1, ReadRegister(script, w1, target, HARDWARE_ERROR_STATUS, 1).2, id);
    }
  }

  lemma SetZeroQuiet(script: Script, b: BusState, w: World, target: Id, id: Id)
    requires |b.homing| == |b.joints|
    ensures Quiet(w, SetZero(script, b, w, target).2, id)
  {
    hide WriteRegister, ReadRegister, Quiet;
    WriteQuiet(script, w, target, HOMING_OFFSET, 4, 0, id);
    var (cleared, w1) := WriteRegister(script, w, target, HOMING_OFFSET, 4, 0);
    ReadQuiet(script, w1, target, PRESENT_POSITION, 4, id);
    var (got, present, w2) := ReadRegister(script, w1, target, PRESENT_POSITION, 4);
    QuietTwice(w, w1, w2, id);
    WriteQuiet(script, w2, target, HOMING_OFFSET, 4, -present, id);
    QuietTwice(w, w2, WriteRegister(script, w2, target, HOMING_OFFSET, 4, -present).1, id);
  }

  lemma {:induction false} GoalsSpareOthers(motors: Motors, entries: seq<Entry>, silent: set<Id>, id: Id)
    requires WellSized(entries) && !HasEntry(entries, id) && id in motors
    ensures var motors' := GoalsStored(motors, entries, silent); id in motors' && motors'[id] == motors[id]
    decreases |entries|
  {
    if entries != [] {
      var e := entries[0];
      assert e in entries;
      var rest: Motors := if e.id in motors && e.id !in silent
                          then motors[e.id := Stored(motors[e.id], GOAL_POSITION, e.data)] else motors;
      forall x | x in entries[1..] ensures x.id != id { assert x in entries; }
      GoalsSpareOthers(rest, entries[1..], silent, id);
    }
  }

  /** A joint that some spec declares read-only. */
  predicate ReadOnly(joints: seq<JointSpec>, id: Id) {
    exists i :: 0 <= i < |joints| && joints[i].id == id && !joints[i].commandable
  }

  lemma CommandableIsNotReadOnly(joints: seq<JointSpec>, id: Id, i: nat)
    requires DistinctIds(joints) && ReadOnly(joints, id) && i < |joints| && joints[i].commandable
    ensures joints[i].id != id
  {
    var j :| 0 <= j < |joints| && joints[j].id == id && !joints[j].commandable;
  }

  lemma SameReadOnly(a: seq<JointSpec>, b: seq<JointSpec>, id: Id)
    requires SameJoints(a, b) && ReadOnly(b, id)
    ensures ReadOnly(a, id)
  {
    var i :| 0 <= i < |b| && b[i].id == id && !b[i].commandable;
    assert a[i].id == id && !a[i].commandable;
  }

  lemma GoalsSpareReadOnly(joints: seq<JointSpec>, commands: seq<Command>, id: Id)
    requires DistinctIds(joints) && ReadOnly(joints, id)
    ensures !HasEntry(Goals([], joints, commands), id)
  {
    GoalsFilterMap([], joints, commands);
    FilterMapEntries(joints, commands);
    forall e | e in FilterMap(joints, commands) ensures e.id != id {
      var i :| Commanded(joints, commands, i) && e == Entry(joints[i].id, GoalBytes(RadToTick(commands[i].value)));
      CommandableIsNotReadOnly(joints, id, i);
    }
    assert [] + FilterMap(joints, commands) == FilterMap(joints, commands);
  }

  lemma WriteCycleQuiet(script: Script, b: BusState, w: World, commands: seq<Command>, id: Id)
    requires Ready(b) && DistinctIds(b.joints) && ReadOnly(b.joints, id)
    ensures Quiet(w, WritePositions(script, b, w, commands).2, id)
  {
    hide Goals;
    GoalsSpareReadOnly(b.joints, commands, id);
    var entries := Goals([], b.joints, commands);
    GoalsStoredKeys(w.motors, entries, script(w.now).silent);
    if id in w.motors {
      GoalsSpareOthers(w.motors, entries, script(w.now).silent, id);
    }
  }

  lemma ConfigureQuiet(script: Script, parse: Parser, b: BusState, w: World, specs: seq<JointSpec>, id: Id)
    ensures Quiet(w, BusModel.Configure(script, parse, b, w, specs).2, id)
  {
    if b.port {
      hide BusModel.Configure, StagesOf, SetupOrders, New, Execute, Follows;
      NoTorqueOnWhileConfiguring(script, parse, b, w, specs);
      ConfigureStages(script, parse, b, w, specs);
      ConfigureSplit(script, parse, b, w, specs);
      SetupOrdersFacts(parse, specs);
      var s := StagesOf(script, parse, w, specs);
      if id in w.motors && !TorqueOn(w.motors[id]) && s.pinged {
        TorqueOffStays(script, s.w1, SetupOrders(parse, specs), id);
      }
      NotPinged(script, parse, w, specs);
    }
  }

  lemma NotPinged(script: Script, parse: Parser, w: World, specs: seq<JointSpec>)
    ensures var s := StagesOf(script, parse, w, specs); !s.pinged ==> s.w2 == s.w1
  {
  }

  // ---------- the theorem about read-only joints

  /** No torque service turns this motor on and no raw write touches its torque or goal. */
  predicate Tame(e: Event, id: Id) {
    match e
    case TorqueService(target, on) => target == id || target == BROADCAST ==> !on
    case WriteService(target, address, size, value) => HarmlessWrite(target, address, size, value, id)
    case _ => true
  }

  lemma StepQuiet(script: Script, parse: Parser, d: Component, e: Event, id: Id)
    requires Inv(d) && ReadOnly(d.specs, id) && Tame(e, id)
    ensures Quiet(d.world, Step(script, parse, d, e).world, id)
  {
    NothingIsQuiet(d.world, id);
    hide BusModel.Configure, ReadAll, WritePositions, SetZero, WriteRegister, ReadRegister, RebootMotor, Quiet;
    hide PublishAll, ResetAll, ReadOnly, SameJoints, DistinctIds, Drifted;
    if Enabled(d, e) {
      match e
      case Configure(os) =>
        ConfigureQuiet(script, parse, Open(d.bus, os).1, d.world, d.specs, id);
      case Read => ReadAllQuiet(script, d.bus, d.world, id);
      case Write =>
        SameReadOnly(d.bus.joints, d.specs, id);
        WriteCycleQuiet(script, d.bus, d.world, CommandVector(d.bus.joints, d.names, d.requested), id);
      case TorqueStep(i) =>
        SameReadOnly(d.bus.joints, d.specs, id);
        CommandableIsNotReadOnly(d.bus.joints, id, i);
        assert d.bus.joints[i].id != BROADCAST;
        WriteQuiet(script, d.world, d.bus.joints[i].id, TORQUE_ENABLE, 1, 1, id);
      case UntorqueStep(i) => WriteQuiet(script, d.world, d.bus.joints[i].id, TORQUE_ENABLE, 1, 0, id);
      case TorqueService(target, on) =>
        WriteQuiet(script, d.world, target, TORQUE_ENABLE, 1, if on then 1 else 0, id);
      case RebootService(target) => RebootQuiet(script, d.world, target, id);
      case ZeroService(target) => SetZeroQuiet(script, d.bus, d.world, target, id);
      case ReadService(target, address, size) => ReadQuiet(script, d.world, target, address, size, id);
      case WriteService(target, address, size, value) =>
        WriteQuiet(script, d.world, target, address, size, value, id);
      case Drift(motors) => DriftQuiet(d.world, motors, id);
      case _ =>
    }
  }

  lemma NothingIsQuiet(w: World, id: Id)
    ensures Quiet(w, w, id)
  {
  }

  lemma DriftQuiet(w: World, motors: Motors, id: Id)
    requires Drifted(w.motors, motors)
    ensures Quiet(w, w.(motors := motors), id)
  {
  }

  /**
   In every run in which nobody asks for it by service, a joint declared read-only is never sent a
   torque-on packet or a goal position, and if its torque was off it stays off. No assumption on
   the ids is needed: a repeated id makes every configure fail.
   */
  lemma {:induction false} ReadOnlyJointsStayLimp(script: Script, parse: Parser, d: Component,
                                                  events: seq<Event>, id: Id)
    requires Inv(d) && ReadOnly(d.specs, id) && forall e :: e in events ==> Tame(e, id)
    ensures Quiet(d.world, Run(script, parse, d, events).world, id)
    ensures Inv(Run(script, parse, d, events)) && Run(script, parse, d, events).specs == d.specs
    decreases |events|
  {
    if events == [] {
    } else {
      hide Step, Quiet, Inv, Tame, ReadOnly;
      StepInv(script, parse, d, events[0]);
      StepQuiet(script, parse, d, events[0], id);
      var d1 := Step(script, parse, d, events[0]);
      ReadOnlyJointsStayLimp(script, parse, d1, events[1..], id);
      QuietTwice(d.world, d1.world, Run(script, parse, d, events).world, id);
    }
  }

  /**
   After a configure in whose run the joint's motor accepted the torque-off write, the torque byte
   is 0 at the end of every tame continuation.
   */
  lemma TorqueStaysOffAfterConfigure(script: Script, parse: Parser, d: Component, os: OsReply,
                                     events: seq<Event>, id: Id, m: nat)
    requires Inv(d) && !d.bus.port && ReadOnly(d.specs, id) && forall e :: e in events ==> Tame(e, id)
    requires OnConfigure(script, parse, d, os).0
    requires var sent := New(d.world, OnConfigure(script, parse, d, os).1.world);
             m < |sent| && sent[m].applied && DisablesTorque(sent[m].packet, id)
    ensures var d' := Run(script, parse, OnConfigure(script, parse, d, os).1, events);
            id in d'.world.motors && d'.world.motors[id].table[TORQUE_ENABLE] == 0
  {
    hide BusModel.Configure, Inv, Run;
    var d1 := OnConfigure(script, parse, d, os).1;
    NeverLockedAfterTorqueOff(script, parse, Open(d.bus, os).1, d.world, d.specs, id, m);
    OnConfigureInv(script, parse, d, os);
    OnConfigureKeeps(script, parse, d, os);
    ReadOnlyJointsStayLimp(script, parse, d1, events, id);
  }
}
