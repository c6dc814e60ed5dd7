/**
 What the component reports and what it asks of the motors over whole runs: every state interface is the
 latest measurement that was heard, and every goal is the latest command.
 */
module ReportProofs {
  import opened Wrappers
  import opened Bytes
  import opened Units
  import opened ControlTable
  import opened Wire
  import opened BusModel
  import opened DriverModel
  import opened ConfigureProofs
  import opened FeedbackProofs
  import opened DriverProofs
  import opened ActivationProofs
  import opened RunProofs

  // ---------- a read cycle without an answer

  /**
   A pull whose group read is not answered changes nothing the component holds or reports, and no motor;
   activation then stops right there.
   */
  lemma UnansweredPullKeepsAll(script: Script, d: Component)
    requires Up(d) && !Answered(script, d.world.now)
    ensures var (ok, d') := Pull(script, d);
            && !ok && d'.states == d.states && d'.requested == d.requested && d'.holds == d.holds
            && d'.bus == d.bus && d'.commands == d.commands && d'.names == d.names && d'.specs == d.specs
            && (forall f :: f in d'.feedback ==> !f.valid)
            && d'.world.motors == d.world.motors && New(d.world, d'.world) == [d'.world.trace[|d.world.trace|]]
            && OnActivate(script, d) == (false, d')
  {
  }

  // ---------- state interfaces over runs

  /** What a motor shows of itself, by the addresses and units of its control table. */
  function Shown(m: Motor, interface: string): Option<real> {
    var t := Present(m);
    if interface == "position" then Some((Signed(t[132..136]) as real - 2048.0) * (2.0 * M_PI / 4096.0))
    else if interface == "velocity" then Some(Signed(t[128..132]) as real * 0.229 * 2.0 * M_PI / 60.0)
    else if interface == "effort" then Some(0.0)
    else if interface == "temperature" then Some(t[146] as real)
    else if interface == "voltage" then Some(Unsigned(t[144..146]) as real * 0.1)
    else if interface == "pwm" then Some(Signed(t[124..126]) as real)
    else if interface == "moving" then Some(t[122] as real)
    else None
  }

  /** The same with the two values the driver holds for the joint. */
  function Measured(b: BusState, m: Motor, i: nat, interface: string): Option<real>
    requires i < |b.errors| && i < |b.homing|
  {
    if interface == "error" then Some(b.errors[i])
    else if interface == "homing_offset" then Some(b.homing[i])
    else Shown(m, interface)
  }

  lemma FeedbackShows(script: Script, b: BusState, w: World, i: nat, interface: string)
    requires Ready(b) && Answered(script, w.now) && i < |b.joints| && Heard(script, w, b.joints[i].id)
    ensures var out := ReadAll(script, b, w).1;
            && |out| == |b.joints| && out[i].valid
            && Reported(out[i], interface) == Measured(b, w.motors[b.joints[i].id], i, interface)
  {
    hide Measured, Reported, FeedbackOf, WindowOf;
    HeardFeedback(script, b, w, i);
    FeedbackFields(w.motors[b.joints[i].id], b, i, interface);
  }

  /** The feedback of a heard joint is decoded from its own window alone. */
  lemma HeardFeedback(script: Script, b: BusState, w: World, i: nat)
    requires Ready(b) && Answered(script, w.now) && i < |b.joints| && Heard(script, w, b.joints[i].id)
    ensures var out, id := ReadAll(script, b, w).1, b.joints[i].id;
            && |out| == |b.joints| && out[i].valid
            && out[i] == FeedbackOf(map[id := WindowOf(w.motors[id])], id, b.homing[i], b.errors[i])
  {
    hide Signed, Unsigned, TickToRad, RawToRadPerS, WindowOf;
  }

  lemma FeedbackFields(m: Motor, b: BusState, i: nat, interface: string)
    requires i < |b.joints| && i < |b.errors| && i < |b.homing|
    ensures var id := b.joints[i].id;
            Reported(FeedbackOf(map[id := WindowOf(m)], id, b.homing[i], b.errors[i]), interface)
            == Measured(b, m, i, interface)
  {
    hide Signed, Unsigned, TickToRad, RawToRadPerS, Present, Field, WindowOf;
    var win := WindowOf(m);
    WindowFields(m);
    Scales(Signed(Field(win, PRESENT_POSITION, 4)), Signed(Field(win, PRESENT_VELOCITY, 4)));
  }

  lemma WindowFields(m: Motor)
    ensures var win, t := WindowOf(m), Present(m);
            && Field(win, PRESENT_POSITION, 4) == t[132..136] && Field(win, PRESENT_VELOCITY, 4) == t[128..132]
            && Field(win, PRESENT_PWM, 2) == t[124..126] && Field(win, PRESENT_INPUT_VOLTAGE, 2) == t[144..146]
            && Unsigned(Field(win, PRESENT_TEMPERATURE, 1)) == t[146] && Unsigned(Field(win, MOVING, 1)) == t[122]
  {
    hide Unsigned, Present;
    FieldOfWindow(m, PRESENT_POSITION, 4);
    FieldOfWindow(m, PRESENT_VELOCITY, 4);
    FieldOfWindow(m, PRESENT_PWM, 2);
    FieldOfWindow(m, PRESENT_INPUT_VOLTAGE, 2);
    FieldOfWindow(m, PRESENT_TEMPERATURE, 1);
    FieldOfWindow(m, MOVING, 1);
    SingleByte(Present(m), PRESENT_TEMPERATURE);
    SingleByte(Present(m), MOVING);
  }

  lemma Scales(tick: int, raw: int)
    ensures TickToRad(tick) == (tick as real - 2048.0) * (2.0 * M_PI / 4096.0)
    ensures RawToRadPerS(raw) == raw as real * 0.229 * 2.0 * M_PI / 60.0
  {
  }

  predicate Motion(interface: string) {
    interface == "position" || interface == "velocity" || interface == "effort"
  }

  lemma {:induction false} ResetMotion(states: map<StateKey, real>, names: seq<string>, name: string, interface: string)
    ensures Lookup(ResetAll(states, names), StateKey(name, interface))
         == if name in names && Motion(interface) then Some(0.0) else Lookup(states, StateKey(name, interface))
    decreases |names|
  {
    if names != [] {
      ResetMotion(states[StateKey(names[0], "position") := 0.0]
                        [StateKey(names[0], "velocity") := 0.0]
                        [StateKey(names[0], "effort") := 0.0], names[1..], name, interface);
    }
  }

  /**
   The reference for a joint's interface: 0 for position, velocity and effort since the latest successful
   configure, and what the joint's motor showed to the latest read cycle that heard it.
   */
  function ReportAfter(script: Script, parse: Parser, d: Component, events: seq<Event>, i: nat, interface: string):
    Option<real>
    requires i < |d.names|
    decreases |events|
  {
    if events == [] then Lookup(d.states, StateKey(d.names[i], interface))
    else
      var n := |events| - 1;
      var d1 := Run(script, parse, d, events[..n]);
      var before := ReportAfter(script, parse, d, events[..n], i, interface);
      ReportStep(script, parse, d1, events[n], i, interface, before)
  }

  function ReportStep(script: Script, parse: Parser, d: Component, e: Event, i: nat, interface: string,
                      before: Option<real>): Option<real>
  {
    match e
    case Configure(os) =>
      if !d.bus.port && OnConfigure(script, parse, d, os).0 && Motion(interface) then Some(0.0) else before
    case Read =>
      if Up(d) && i < |d.bus.joints| && Answered(script, d.world.now) &&
         Heard(script, d.world, d.bus.joints[i].id) &&
         Measured(d.bus, d.world.motors[d.bus.joints[i].id], i, interface).Some?
      then Measured(d.bus, d.world.motors[d.bus.joints[i].id], i, interface)
      else before
    case _ => before
  }

  lemma ReadReports(script: Script, parse: Parser, d: Component, i: nat, interface: string)
    requires Up(d) && DistinctNames(d.names) && i < |d.names|
    ensures Lookup(Pull(script, d).1.states, StateKey(d.names[i], interface))
         == ReportStep(script, parse, d, Event.Read, i, interface, Lookup(d.states, StateKey(d.names[i], interface)))
  {
    hide ReadAll, PublishAll, Lookup, Measured, Reported;
    if !Answered(script, d.world.now) {
      UnansweredPullKeepsAll(script, d);
    } else {
      PullSucceeds(script, d);
      PulledStates(script, d);
      PublishedStates(d.states, d.names, Pull(script, d).1.feedback, i, interface);
      if Heard(script, d.world, d.bus.joints[i].id) {
        FeedbackShows(script, d.bus, d.world, i, interface);
      } else {
        SyncReadRefinesRegisterReads(script, d.bus, d.world, i);
      }
    }
  }

  lemma PulledStates(script: Script, d: Component)
    requires Up(d) && Pull(script, d).0
    ensures var d' := Pull(script, d).1;
            && d'.feedback == ReadAll(script, d.bus, d.world).1 && |d'.feedback| == |d.names|
            && d'.states == PublishAll(d.states, d.names, d'.feedback)
  {
    hide ReadAll, PublishAll;
  }

  lemma StepReports(script: Script, parse: Parser, d: Component, e: Event, i: nat, interface: string)
    requires Inv(d) && DistinctNames(d.names) && i < |d.names|
    ensures var key := StateKey(d.names[i], interface);
            Lookup(Step(script, parse, d, e).states, key)
            == ReportStep(script, parse, d, e, i, interface, Lookup(d.states, key))
  {
    hide Pull, WriteCycle, SetTorque, RebootMotor, ReadRegister, WriteRegister, SetZero, Lookup, Measured, Present;
    hide DistinctNames, SameJoints, DistinctIds, BusModel.Configure;
    if e.Configure? && !d.bus.port {
      ResetMotion(d.states, d.names, d.names[i], interface);
    } else if e.Read? && Up(d) {
      ReadReports(script, parse, d, i, interface);
    } else if e.Write? && Up(d) {
      WriteCycleStates(script, d);
    }
  }

  lemma WriteCycleStates(script: Script, d: Component)
    requires Up(d)
    ensures WriteCycle(script, d).states == d.states && WriteCycle(script, d).requested == d.requested
  {
  }

  /**
   Over every run, whatever fails and in whatever order the callbacks, cycles and services come: each of
   the nine interfaces of each joint reads what its motor showed to the latest read cycle that heard it,
   position, velocity and effort 0 if configuring came after that, and else what it read at the start.
   */
  lemma {:induction false} StatesAreLatest(script: Script, parse: Parser, d: Component, events: seq<Event>, i: nat,
                                           interface: string)
    requires Inv(d) && DistinctNames(d.names) && i < |d.names|
    ensures var d' := Run(script, parse, d, events);
            d'.names == d.names && Inv(d') &&
            Lookup(d'.states, StateKey(d.names[i], interface))
            == ReportAfter(script, parse, d, events, i, interface)
    decreases |events|
  {
    hide Run, Step, Lookup, ReportStep, Inv, DistinctNames;
    var n := |events| - 1;
    if n < 0 {
      NoEvents(script, parse, d);
    } else {
      assert events == events[..n] + [events[n]];
      StatesAreLatest(script, parse, d, events[..n], i, interface);
      RunSnoc(script, parse, d, events[..n], events[n]);
      var d1 := Run(script, parse, d, events[..n]);
      StepInv(script, parse, d1, events[n]);
      StepReports(script, parse, d1, events[n], i, interface);
    }
  }

  // ---------- commands over runs

  /** The reference for a joint's command: the latest a controller gave, or the state activation held it at. */
  function RequestAfter(script: Script, parse: Parser, d: Component, events: seq<Event>, i: nat): Command
    requires i < |d.names|
    decreases |events|
  {
    if events == [] then (if d.names[i] in d.requested then d.requested[d.names[i]] else NaN)
    else
      var n := |events| - 1;
      RequestStep(Run(script, parse, d, events[..n]), events[n], d.names[i],
                  RequestAfter(script, parse, d, events[..n], i))
  }

  function RequestStep(d: Component, e: Event, name: string, before: Command): Command {
    match e
    case Control(joint, command) => if joint == name then command else before
    case HoldStep(k) =>
      if Up(d) && k < |d.names| && d.bus.joints[k].commandable && d.names[k] == name then
        match Lookup(d.states, StateKey(name, "position")) case Some(v) => Rad(v) case None => NaN
      else before
    case _ => before
  }

  lemma StepRequests(script: Script, parse: Parser, d: Component, e: Event, name: string)
    ensures RequestOf(Step(script, parse, d, e).requested, name)
         == RequestStep(d, e, name, RequestOf(d.requested, name))
  {
    hide SetTorque, RebootMotor, ReadRegister, WriteRegister, SetZero, ReadAll, BusModel.Configure;
    hide PublishAll, ResetAll, SyncWriteGoals, Goals;
  }

  lemma {:induction false} RequestsAreLatest(script: Script, parse: Parser, d: Component, events: seq<Event>, i: nat)
    requires Inv(d) && i < |d.names|
    ensures var d' := Run(script, parse, d, events);
            && d'.names == d.names && Inv(d')
            && RequestOf(d'.requested, d.names[i]) == RequestAfter(script, parse, d, events, i)
    decreases |events|
  {
    hide Run, Step, RequestStep, Inv;
    var n := |events| - 1;
    if n < 0 {
      NoEvents(script, parse, d);
    } else {
      assert events == events[..n] + [events[n]];
      RequestsAreLatest(script, parse, d, events[..n], i);
      RunSnoc(script, parse, d, events[..n], events[n]);
      var d1 := Run(script, parse, d, events[..n]);
      StepInv(script, parse, d1, events[n]);
      StepRequests(script, parse, d1, events[n], d.names[i]);
    }
  }

  lemma JointAsSpecified(d: Component, i: nat)
    requires Inv(d) && Up(d) && i < |d.names|
    ensures d.bus.joints[i].id == d.specs[i].id && d.bus.joints[i].commandable == d.specs[i].commandable
    ensures DistinctIds(d.bus.joints)
  {
  }

  /** The entries of a write cycle's packet for one joint: one if it is commandable and commanded. */
  lemma CycleEntries(script: Script, d: Component, i: nat)
    requires Up(d) && DistinctIds(d.bus.joints) && i < |d.names|
    ensures var sent, id := New(d.world, WriteCycle(script, d).world), d.bus.joints[i].id;
            var request := RequestOf(d.requested, d.names[i]);
            && |sent| == 1 && sent[0].packet.SyncWrite? && OnePerId(sent[0].packet.entries)
            && ((exists e :: e in sent[0].packet.entries && e.id == id) <==>
                  d.bus.joints[i].commandable && request.Rad?)
            && forall e :: e in sent[0].packet.entries && e.id == id && request.Rad? ==>
                 e.data == GoalBytes(RadToTick(request.value))
  {
    hide Goals, FilterMap, GoalBytes, RadToTick, OnePerId, DistinctIds;
    var joints, commands := d.bus.joints, CommandVector(d.bus.joints, d.names, d.requested);
    WriteOnceExtends(script, d.bus, d.world, commands);
    GoalsFilterMap([], joints, commands);
    assert [] + FilterMap(joints, commands) == FilterMap(joints, commands);
    OnePerIdOfNone();
    GoalsOnePerId([], joints, commands);
    FilterMapEntries(joints, commands);
    forall k | Commanded(joints, commands, k) && joints[k].id == joints[i].id ensures k == i {
      SameIdSamePlace(joints, i, k);
    }
    var request := RequestOf(d.requested, d.names[i]);
    if joints[i].commandable && request.Rad? {
      assert Commanded(joints, commands, i);
      assert Entry(joints[i].id, GoalBytes(RadToTick(commands[i].value))) in FilterMap(joints, commands);
    }
  }

  lemma SameIdSamePlace(joints: seq<JointSpec>, i: int, k: int)
    requires DistinctIds(joints) && 0 <= i < |joints| && 0 <= k < |joints| && joints[i].id == joints[k].id
    ensures i == k
  {
  }

  /**
   Every goal is the latest command. In any run, a write cycle of the configured component sends a
   joint's motor a goal exactly when the joint is commandable and its latest command is a number, and
   then that command's tick.
   */
  lemma GoalsAreLatest(script: Script, parse: Parser, d: Component, events: seq<Event>, i: nat)
    requires Inv(d) && i < |d.names| && Up(Run(script, parse, d, events))
    ensures var d1 := Run(script, parse, d, events);
            var sent, id := New(d1.world, WriteCycle(script, d1).world), d.specs[i].id;
            var request := RequestAfter(script, parse, d, events, i);
            && |sent| == 1 && sent[0].packet.SyncWrite? && OnePerId(sent[0].packet.entries)
            && ((exists e :: e in sent[0].packet.entries && e.id == id) <==> d.specs[i].commandable && request.Rad?)
            && forall e :: e in sent[0].packet.entries && e.id == id && request.Rad? ==>
                 e.data == GoalBytes(RadToTick(request.value))
  {
    hide Run, WriteCycle, New, Inv, Up, GoalBytes, RadToTick, OnePerId, RequestAfter;
    RequestsAreLatest(script, parse, d, events, i);
    RunInv(script, parse, d, events);
    var d1 := Run(script, parse, d, events);
    JointAsSpecified(d1, i);
    CycleEntries(script, d1, i);
  }

  /** A motor that hears the packet holds its entry's bytes afterwards, and no other byte differs. */
  lemma {:induction false} GoalStored(motors: Motors, entries: seq<Entry>, silent: set<Id>, k: nat)
    requires WellSized(entries) && OnePerId(entries) && k < |entries|
    requires entries[k].id in motors && entries[k].id !in silent
    ensures var id, motors' := entries[k].id, GoalsStored(motors, entries, silent);
            && id in motors' && motors'[id] == Stored(motors[id], 116, entries[k].data)
    decreases |entries|
  {
    hide Overlay;
    var e := entries[0];
    var rest := if e.id in motors && e.id !in silent
                then motors[e.id := Stored(motors[e.id], GOAL_POSITION, e.data)] else motors;
    if k > 0 {
      assert entries[k] == entries[1..][k - 1];
      GoalStored(rest, entries[1..], silent, k - 1);
    } else {
      GoalsElsewhere(rest, entries[1..], silent, e.id);
    }
  }

  lemma {:induction false} GoalsElsewhere(motors: Motors, entries: seq<Entry>, silent: set<Id>, id: Id)
    requires WellSized(entries) && id in motors && forall i :: 0 <= i < |entries| ==> entries[i].id != id
    ensures var motors' := GoalsStored(motors, entries, silent); id in motors' && motors'[id] == motors[id]
    decreases |entries|
  {
    hide Overlay;
    if entries != [] {
      var e := entries[0];
      var rest := if e.id in motors && e.id !in silent
                  then motors[e.id := Stored(motors[e.id], GOAL_POSITION, e.data)] else motors;
      GoalsElsewhere(rest, entries[1..], silent, id);
    }
  }

  /**
   At the motor: when the packet gets through and the motor acts on it, the goal register of a commanded
   joint's motor, addresses 116 to 119, holds its latest command's tick, and nothing else of it differs.
   */
  lemma GoalReachesMotor(script: Script, parse: Parser, d: Component, events: seq<Event>, i: nat)
    requires Inv(d) && i < |d.names| && Up(Run(script, parse, d, events))
    requires d.specs[i].commandable && RequestAfter(script, parse, d, events, i).Rad?
    requires var w := Run(script, parse, d, events).world;
             d.specs[i].id in w.motors && script(w.now).arrives && d.specs[i].id !in script(w.now).silent
    ensures var d1, id := Run(script, parse, d, events), d.specs[i].id;
            var motors, m := WriteCycle(script, d1).world.motors, d1.world.motors[id];
            var data := GoalBytes(RadToTick(RequestAfter(script, parse, d, events, i).value));
            && id in motors && motors[id] == Stored(m, 116, data) && motors[id].table[116..120] == data
  {
    assert |d.specs| == |d.names|;
    hide Run, Inv, RequestAfter, GoalBytes, RadToTick, Overlay, Goals, OnePerId;
    var d1, id := Run(script, parse, d, events), d.specs[i].id;
    GoalsAreLatest(script, parse, d, events, i);
    CycleMotors(script, d1);
    var entries := New(d1.world, WriteCycle(script, d1).world)[0].packet.entries;
    var e :| e in entries && e.id == id;
    var k :| 0 <= k < |entries| && entries[k] == e;
    GoalStored(d1.world.motors, entries, script(d1.world.now).silent, k);
  }

  lemma CycleMotors(script: Script, d: Component)
    requires Up(d)
    ensures var sent := New(d.world, WriteCycle(script, d).world);
            && |sent| == 1 && sent[0].packet.SyncWrite? && WellSized(sent[0].packet.entries)
            && WriteCycle(script, d).world.motors ==
               if script(d.world.now).arrives
               then GoalsStored(d.world.motors, sent[0].packet.entries, script(d.world.now).silent)
               else d.world.motors
  {
    hide Goals, GoalsStored;
    var commands := CommandVector(d.bus.joints, d.names, d.requested);
    WriteOnceExtends(script, d.bus, d.world, commands);
    assert WellSized([]);
  }

  /** An event that gives the joint a command, by a controller or by activation. */
  predicate Commands(e: Event, names: seq<string>, i: nat)
    requires i < |names|
  {
    match e
    case Control(joint, _) => joint == names[i]
    case HoldStep(k) => k < |names| && names[k] == names[i]
    case _ => false
  }

  lemma {:induction false} NoRequest(script: Script, parse: Parser, d: Component, events: seq<Event>, i: nat)
    requires Inv(d) && i < |d.names| && d.names[i] !in d.requested
    requires forall e :: e in events ==> !Commands(e, d.names, i)
    ensures RequestAfter(script, parse, d, events, i) == NaN
    decreases |events|
  {
    hide Run, Inv, Up;
    var n := |events| - 1;
    if n >= 0 {
      NoRequest(script, parse, d, events[..n], i);
      RequestsAreLatest(script, parse, d, events[..n], i);
      assert events[n] in events;
    }
  }

  /** A joint that nobody has commanded is sent no goal, whatever else happens. */
  lemma UncommandedJointIsSentNothing(script: Script, parse: Parser, d: Component, events: seq<Event>, i: nat)
    requires Inv(d) && i < |d.names| && d.names[i] !in d.requested
    requires (forall e :: e in events ==> !Commands(e, d.names, i)) && Up(Run(script, parse, d, events))
    ensures var d1 := Run(script, parse, d, events);
            var sent := New(d1.world, WriteCycle(script, d1).world);
            && |sent| == 1 && sent[0].packet.SyncWrite?
            && forall e :: e in sent[0].packet.entries ==> e.id != d.specs[i].id
  {
    hide Run, WriteCycle, New, Inv, Up, RequestAfter, Commands;
    NoRequest(script, parse, d, events, i);
    GoalsAreLatest(script, parse, d, events, i);
  }
}
