/**
 Two promises over whole runs of the component: that the cached homing offsets are those of the motors,
 and that the joints' error states are polled in turn, whatever services, write cycles, activations and
 movements of the motors come in between.
 */
module RunProofs {
  import opened Bytes
  import opened ControlTable
  import opened Wire
  import opened BusModel
  import opened DriverModel
  import opened ConfigureProofs
  import opened FeedbackProofs
  import opened ZeroProofs
  import opened DriverProofs
  import opened ActivationProofs

  lemma {:induction false} RunInv(script: Script, parse: Parser, d: Component, events: seq<Event>)
    requires Inv(d)
    ensures Inv(Run(script, parse, d, events)) && Run(script, parse, d, events).specs == d.specs
    decreases |events|
  {
    if events != [] {
      hide Step, Inv;
      StepInv(script, parse, d, events[0]);
      RunInv(script, parse, Step(script, parse, d, events[0]), events[1..]);
    }
  }

  lemma RunSnoc(script: Script, parse: Parser, d: Component, events: seq<Event>, e: Event)
    ensures Run(script, parse, d, events + [e]) == Step(script, parse, Run(script, parse, d, events), e)
  {
    hide Step;
    RunAppend(script, parse, d, events, [e]);
    var d1 := Run(script, parse, d, events);
    assert [e][1..] == [];
    assert Run(script, parse, d1, [e]) == Run(script, parse, Step(script, parse, d1, e), []);
  }

  // ---------- the cache of homing offsets

  /** While the component is configured, the cached offset of the joints with this id is their motor's. */
  predicate Fresh(d: Component, id: Id) {
    Up(d) ==> id in d.world.motors && CacheFresh(d.bus, d.world.motors[id], id)
  }

  /** The offset reads that end a successful configure got through for this id, or the offset is clear. */
  predicate ReadsOffset(d: Component, d': Component, id: Id) {
    var sent := New(d.world, d'.world);
    && |d.specs| <= |sent| && id in d'.world.motors
    && (Offset(d'.world.motors[id].table) == 0 ||
        forall i :: 0 <= i < |d.specs| && d.specs[i].id == id ==> sent[|sent| - |d.specs| + i].acked)
  }

  /**
   Events that leave a right cache right. A configure that succeeds has read the offset, or it is clear.
   A raw write that the motor stores has the bytes that the offset register holds. A set_zero that fails
   has left the register as it was; one that succeeds on this motor has stored a negative that fits, or,
   having stored none, found the register at the negated position.
   */
  predicate KeepsCache(script: Script, parse: Parser, d: Component, e: Event, id: Id) {
    match e
    case Configure(os) =>
      Enabled(d, e) && OnConfigure(script, parse, d, os).0 ==>
        ReadsOffset(d, OnConfigure(script, parse, d, os).1, id)
    case WriteService(target, address, size, value) =>
      (Up(d) && id in d.world.motors && SupportedSize(size) &&
       Stores(script(d.world.now), d.world, target, address, id)) ==>
        AgreesWithOffset(d.world.motors[id].table, address, Encode(value, size))
    case ZeroService(target) =>
      Up(d) && id in d.world.motors ==>
        var now, m := d.world.now, d.world.motors[id];
        var m1 := Cleared(script, now, m);
        if target !in d.world.motors || !ZeroAnswered(script, now)
        then RegisterAfterFailure(script, d.world, target, id) == Offset(m.table)
        else if target != id then true
        else if StoresNegative(script, now, m) then PositionRead(m1) != MIN_INT32
        else Offset(m1.table) == -PositionRead(m1)
    case _ => true
  }

  /** Neither the cache nor this motor's offset register differs. */
  predicate OffsetKept(d: Component, d': Component, id: Id) {
    && d'.bus.joints == d.bus.joints && d'.bus.homing == d.bus.homing
    && (id in d.world.motors ==>
          id in d'.world.motors && Offset(d'.world.motors[id].table) == Offset(d.world.motors[id].table))
    && (id !in d.world.motors ==> id !in d'.world.motors)
  }

  lemma KeptIsFresh(d: Component, d': Component, id: Id)
    requires Up(d) && Up(d') && OffsetKept(d, d', id)
    ensures Fresh(d, id) <==> Fresh(d', id)
  {
  }

  lemma {:induction false} GoalsKeepOffset(motors: Motors, entries: seq<Entry>, silent: set<Id>, id: Id)
    requires WellSized(entries)
    ensures var motors' := GoalsStored(motors, entries, silent);
            && motors'.Keys == motors.Keys
            && (id in motors ==> Offset(motors'[id].table) == Offset(motors[id].table))
    decreases |entries|
  {
    if entries != [] {
      hide Offset, Overlay;
      var e := entries[0];
      var rest := if e.id in motors && e.id !in silent
                  then motors[e.id := Stored(motors[e.id], GOAL_POSITION, e.data)] else motors;
      if id in motors { StoreElsewhere(motors[id], GOAL_POSITION, e.data); }
      GoalsKeepOffset(rest, entries[1..], silent, id);
    }
  }

  lemma StoreElsewhere(m: Motor, address: nat, data: seq<Byte>)
    requires address + |data| <= SPAN && Disjoint(address, |data|, HOMING_OFFSET, 4)
    ensures Offset(Stored(m, address, data).table) == Offset(m.table)
  {
    hide Offset, Overlay;
    OffsetAfterStore(m, address, data);
  }

  /** A table with the same EEPROM has the same offset. */
  lemma SameEeprom(t: Table, t': Table)
    requires t'[..EEPROM_END] == t[..EEPROM_END]
    ensures Offset(t') == Offset(t)
  {
    forall a | HOMING_OFFSET <= a < HOMING_OFFSET + 4 ensures t'[a] == t[a] {
      assert t'[a] == t'[..EEPROM_END][a] == t[..EEPROM_END][a];
    }
    assert t'[HOMING_OFFSET..HOMING_OFFSET + 4] == t[HOMING_OFFSET..HOMING_OFFSET + 4];
  }

  lemma TorqueKeepsOffset(script: Script, w: World, target: Id, on: bool, id: Id)
    ensures var w1 := SetTorque(script, w, target, on).1;
            && (id in w1.motors <==> id in w.motors)
            && (id in w.motors ==> Offset(w1.motors[id].table) == Offset(w.motors[id].table))
  {
    hide Offset, Encode, Overlay;
    var value := if on then 1 else 0;
    if id in w.motors {
      WriteOnMotor(script, w, target, TORQUE_ENABLE, 1, value, id);
      StoreElsewhere(w.motors[id], TORQUE_ENABLE, Encode(value, 1));
    }
  }

  lemma RebootKeepsOffset(script: Script, w: World, target: Id, id: Id)
    ensures var w1 := RebootMotor(script, w, target).1;
            && (id in w1.motors <==> id in w.motors)
            && (id in w.motors ==> Offset(w1.motors[id].table) == Offset(w.motors[id].table))
  {
    hide Offset;
    if id in w.motors {
      var t := w.motors[id].table;
      assert Rebooted(w.motors[id]).table[..EEPROM_END] == t[..EEPROM_END];
      SameEeprom(t, Rebooted(w.motors[id]).table);
    }
  }

  lemma ReadCallKeepsHoming(script: Script, b: BusState, w: World)
    requires Ready(b)
    ensures var r := ReadAll(script, b, w);
            r.2.homing == b.homing && r.2.joints == b.joints && r.3.motors == w.motors
  {
    hide Feedbacks, WindowOf, Present, Signed;
  }

  lemma WriteCycleKeepsOffset(script: Script, d: Component, id: Id)
    requires Up(d)
    ensures Up(WriteCycle(script, d)) && OffsetKept(d, WriteCycle(script, d), id)
  {
    hide Goals, GoalsStored, Offset;
    var commands := CommandVector(d.bus.joints, d.names, d.requested);
    assert WellSized([]);
    GoalsKeepOffset(d.world.motors, Goals([], d.bus.joints, commands), script(d.world.now).silent, id);
  }

  predicate Ordinary(e: Event) {
    !e.Configure? && !e.Cleanup? && !e.WriteService? && !e.ZeroService?
  }

  lemma OrdinaryKeepsOffset(script: Script, parse: Parser, d: Component, e: Event, id: Id)
    requires Up(d) && Ordinary(e)
    ensures Up(Step(script, parse, d, e)) && OffsetKept(d, Step(script, parse, d, e), id)
  {
    hide Offset, ReadAll, WriteCycle, SetTorque, RebootMotor, ReadRegister, PublishAll;
    if Enabled(d, e) {
      match e
      case Read => ReadCallKeepsHoming(script, d.bus, d.world);
      case Write => WriteCycleKeepsOffset(script, d, id);
      case TorqueStep(i) => TorqueKeepsOffset(script, d.world, d.bus.joints[i].id, true, id);
      case UntorqueStep(i) => TorqueKeepsOffset(script, d.world, d.bus.joints[i].id, false, id);
      case TorqueService(target, on) => TorqueKeepsOffset(script, d.world, target, on, id);
      case RebootService(target) => RebootKeepsOffset(script, d.world, target, id);
      case ReadService(target, address, size) => ReadKeepsMotors(script, d.world, target, address, size);
      case Drift(motors) =>
        if id in d.world.motors { SameEeprom(d.world.motors[id].table, motors[id].table); }
      case _ =>
    }
  }

  lemma ReadKeepsMotors(script: Script, w: World, id: Id, address: Address, size: nat)
    ensures ReadRegister(script, w, id, address, size).2.motors == w.motors
  {
  }

  predicate HasJoint(specs: seq<JointSpec>, id: Id) {
    exists i :: 0 <= i < |specs| && specs[i].id == id
  }

  lemma JointOfSpec(d: Component, id: Id)
    requires Inv(d) && d.bus.port && HasJoint(d.specs, id)
    ensures exists j :: j in d.bus.joints && j.id == id
  {
    var i :| 0 <= i < |d.specs| && d.specs[i].id == id;
    assert d.bus.joints[i] in d.bus.joints && d.bus.joints[i].id == id;
  }

  lemma WriteServiceFresh(script: Script, parse: Parser, d: Component, e: Event, id: Id)
    requires Inv(d) && Up(d) && Fresh(d, id) && HasJoint(d.specs, id) && e.WriteService?
    ensures Fresh(Step(script, parse, d, e), id) <==> KeepsCache(script, parse, d, e, id)
  {
    hide Offset, WriteRegister, Encode, Stores, CacheFresh, Inv, AgreesWithOffset, CacheHolds;
    JointOfSpec(d, id);
    RawWriteBypassesCache(script, d.bus, d.world, e.id, e.address, e.size, e.value, id);
  }

  lemma ZeroServiceFresh(script: Script, parse: Parser, d: Component, e: Event, id: Id)
    requires Inv(d) && Up(d) && Fresh(d, id) && HasJoint(d.specs, id) && e.ZeroService?
    ensures Fresh(Step(script, parse, d, e), id) <==> KeepsCache(script, parse, d, e, id)
  {
    hide Offset, SetZero, PositionRead, StoresNegative, Cleared, RegisterAfterFailure, Inv;
    JointOfSpec(d, id);
    var w, m := d.world, d.world.motors[id];
    FailedSetZero(script, d.bus, w, e.id, id);
    if !SetZero(script, d.bus, w, e.id).0 {
      HoldsWhatItHeld(d.bus, m, id, RegisterAfterFailure(script, w, e.id, id));
    } else if e.id == id {
      SetZeroOnEveryScript(script, d.bus, w, id);
    } else {
      SetZeroOutcome(script, d.bus, w, e.id);
    }
  }

  lemma HoldsWhatItHeld(b: BusState, m: Motor, id: Id, ticks: int)
    requires |b.homing| == |b.joints| && CacheFresh(b, m, id) && exists j :: j in b.joints && j.id == id
    ensures CacheHolds(b, id, ticks) <==> ticks == Offset(m.table)
  {
    hide OffsetAngle, Offset;
    OffsetAngleInjective(ticks, Offset(m.table));
    var j :| j in b.joints && j.id == id;
    var i :| 0 <= i < |b.joints| && b.joints[i] == j;
  }

  lemma ConfigureFresh(script: Script, parse: Parser, d: Component, e: Event, id: Id)
    requires Inv(d) && HasJoint(d.specs, id) && e.Configure? && Enabled(d, e)
    ensures Fresh(Step(script, parse, d, e), id) <==> KeepsCache(script, parse, d, e, id)
  {
    hide OnConfigure, Inv, CacheFresh, New, ReadsOffset;
    OnConfigureInv(script, parse, d, e.os);
    var (ok, d') := OnConfigure(script, parse, d, e.os);
    if ok {
      OnConfigureKeeps(script, parse, d, e.os);
      InvUp(d');
      ConfiguredFresh(script, parse, d, e.os, id);
    } else {
      assert !Up(d');
    }
  }

  lemma ConfiguredFresh(script: Script, parse: Parser, d: Component, os: OsReply, id: Id)
    requires OnConfigure(script, parse, d, os).0 && HasJoint(d.specs, id)
    requires Inv(OnConfigure(script, parse, d, os).1) && OnConfigure(script, parse, d, os).1.bus.port
    ensures var d' := OnConfigure(script, parse, d, os).1;
            && |d'.bus.homing| == |d'.bus.joints| && id in d'.world.motors
            && (CacheFresh(d'.bus, d'.world.motors[id], id) <==> ReadsOffset(d, d', id))
  {
    hide OnConfigure, BusModel.Configure, OffsetAngle, Offset, New, CacheFresh, Inv;
    ConfiguredParts(script, parse, d, os);
    var bus, d' := Open(d.bus, os).1, OnConfigure(script, parse, d, os).1;
    var sent := New(d.world, d'.world);
    var k :| 0 <= k < |d.specs| && d.specs[k].id == id;
    forall i | 0 <= i < |d.specs| && d.specs[i].id == id
      ensures |d'.bus.homing| == |d.specs| <= |sent| && id in d'.world.motors
      ensures d'.bus.homing[i] == if sent[|sent| - |d.specs| + i].acked
                                  then OffsetAngle(Offset(d'.world.motors[id].table)) else 0.0
    {
      ConfigureCachesOffsets(script, parse, bus, d.world, d.specs, i);
    }
    SameIdPlaces(d');
    OnConfigureKeeps(script, parse, d, os);
    FreshOfReads(d'.bus, d'.world.motors[id], d.specs, sent, id);
  }

  lemma ConfiguredParts(script: Script, parse: Parser, d: Component, os: OsReply)
    requires OnConfigure(script, parse, d, os).0
    ensures var (ok, b', w') := BusModel.Configure(script, parse, Open(d.bus, os).1, d.world, d.specs);
            ok && OnConfigure(script, parse, d, os).1.bus == b' && OnConfigure(script, parse, d, os).1.world == w'
  {
    hide BusModel.Configure;
  }

  lemma SameIdPlaces(d: Component)
    requires Inv(d) && d.bus.port
    ensures |d.bus.joints| == |d.specs| && forall i :: 0 <= i < |d.specs| ==> d.bus.joints[i].id == d.specs[i].id
  {
  }

  /** A cache filled by reads, 0 for one that got lost, is right where it was read or the offset is clear. */
  lemma FreshOfReads(b: BusState, m: Motor, specs: seq<JointSpec>, sent: seq<Sent>, id: Id)
    requires |b.homing| == |b.joints| == |specs| <= |sent|
    requires forall i :: 0 <= i < |specs| ==> b.joints[i].id == specs[i].id
    requires forall i :: 0 <= i < |specs| && specs[i].id == id ==>
               b.homing[i] == if sent[|sent| - |specs| + i].acked then OffsetAngle(Offset(m.table)) else 0.0
    ensures CacheFresh(b, m, id) <==>
            || Offset(m.table) == 0
            || forall i :: 0 <= i < |specs| && specs[i].id == id ==> sent[|sent| - |specs| + i].acked
  {
    hide OffsetAngle, Offset;
    ZeroTicks(Offset(m.table));
  }

  lemma ZeroTicks(ticks: int)
    ensures OffsetAngle(ticks) == 0.0 <==> ticks == 0
  {
  }

  lemma StepFresh(script: Script, parse: Parser, d: Component, e: Event, id: Id)
    requires Inv(d) && Fresh(d, id) && HasJoint(d.specs, id)
    ensures Fresh(Step(script, parse, d, e), id) <==> KeepsCache(script, parse, d, e, id)
  {
    hide OnConfigure, CacheFresh, ReadAll, WriteCycle, SetZero, SetTorque, RebootMotor, ReadRegister, WriteRegister;
    hide Offset, DistinctIds, SameJoints, NoneBroadcast, HasJoint;
    if e.Configure? && Enabled(d, e) {
      ConfigureFresh(script, parse, d, e, id);
    } else if !Up(d) {
      assert !Up(Step(script, parse, d, e));
    } else if e.WriteService? {
      WriteServiceFresh(script, parse, d, e, id);
    } else if e.ZeroService? {
      ZeroServiceFresh(script, parse, d, e, id);
    } else if Ordinary(e) {
      OrdinaryKeepsOffset(script, parse, d, e, id);
      KeptIsFresh(d, Step(script, parse, d, e), id);
    }
  }

  /**
   The cache over whole runs, from on_init on or from any state in which it is right: it is right
   throughout, whenever the component is configured, exactly when every event keeps it.
   */
  lemma {:induction false} CacheFollowsTheMotor(script: Script, parse: Parser, d: Component, events: seq<Event>, id: Id)
    requires Inv(d) && Fresh(d, id) && HasJoint(d.specs, id)
    ensures (forall k :: 0 <= k <= |events| ==> Fresh(Run(script, parse, d, events[..k]), id)) <==>
            (forall k :: 0 <= k < |events| ==>
               KeepsCache(script, parse, Run(script, parse, d, events[..k]), events[k], id))
    decreases |events|
  {
    hide Run, Step, Fresh, KeepsCache, Inv, HasJoint;
    var n := |events| - 1;
    if n < 0 {
      assert events[..0] == [];
      NoEvents(script, parse, d);
    } else {
      var before, e := events[..n], events[n];
      assert events == before + [e] && events[..n + 1] == events;
      assert forall k :: 0 <= k <= n ==> before[..k] == events[..k];
      CacheFollowsTheMotor(script, parse, d, before, id);
      RunInv(script, parse, d, before);
      RunSnoc(script, parse, d, before, e);
      var d1 := Run(script, parse, d, before);
      assert before[..n] == before;
      if Fresh(d1, id) { StepFresh(script, parse, d1, e, id); }
    }
  }

  lemma NoEvents(script: Script, parse: Parser, d: Component)
    ensures Run(script, parse, d, []) == d
  {
    hide Step;
  }

  /** What a careful user does: no raw write near the offset, set_zero of one motor, answered, torque off. */
  predicate Careful(script: Script, d: Component, e: Event, id: Id)
    requires id in d.world.motors
  {
    match e
    case Configure(_) => false
    case WriteService(target, address, size, _) =>
      (target != id && target != BROADCAST) || Disjoint(address, size, HOMING_OFFSET, 4)
    case ZeroService(target) =>
      && target != BROADCAST
      && (target == id ==>
            var m := d.world.motors[id];
            PlainCall(script, d.world, id) && !TorqueOn(m) && Wrap(m.shaft, 4) != MIN_INT32)
    case _ => true
  }

  lemma CarefulKeepsCache(script: Script, parse: Parser, d: Component, e: Event, id: Id)
    requires id in d.world.motors && Careful(script, d, e, id)
    ensures KeepsCache(script, parse, d, e, id)
  {
    hide PositionRead, Offset, Wrap, StoresNegative, Cleared, Encode, RegisterAfter;
    if e.ZeroService? && e.id == id {
      PlainCallMotor(script, d.world, id);
      CancelledPosition(d.world.motors[id]);
    }
  }

  // ---------- polling in turn

  /** Two states of the bus that differ only in the cached offsets and the last goal group. */
  predicate SamePolling(b: BusState, c: BusState) {
    c == b.(homing := c.homing, writeGroup := c.writeGroup)
  }

  lemma ReadAllSame(script: Script, b: BusState, c: BusState, w: World)
    requires Ready(b) && Ready(c) && SamePolling(b, c)
    ensures SamePolling(ReadAll(script, b, w).2, ReadAll(script, c, w).2)
    ensures ReadAll(script, b, w).3 == ReadAll(script, c, w).3
  {
    hide Feedbacks, ReadRegister, WindowOf;
  }

  /** The worlds in which the read cycles of a run find the line. */
  function ReadWorlds(script: Script, parse: Parser, d: Component, events: seq<Event>): seq<World>
    decreases |events|
  {
    if events == [] then []
    else
      (if events[0].Read? then [d.world] else [])
      + ReadWorlds(script, parse, Step(script, parse, d, events[0]), events[1..])
  }

  /** The status reads of a run's read cycles, as their packets say. */
  function Asked(script: Script, parse: Parser, d: Component, events: seq<Event>): seq<Id>
    decreases |events|
  {
    if events == [] then []
    else
      var d' := Step(script, parse, d, events[0]);
      (if events[0].Read? then StatusReads(New(d.world, d'.world)) else []) + Asked(script, parse, d', events[1..])
  }

  /** Only read cycles poll: any other event but cleanup leaves joints, cursor, errors and groups as they are. */
  lemma OthersKeepPolling(script: Script, parse: Parser, d: Component, e: Event)
    requires Up(d) && !e.Read? && !e.Cleanup?
    ensures var d' := Step(script, parse, d, e); Up(d') && SamePolling(d.bus, d'.bus)
  {
    hide OnConfigure, SetTorque, RebootMotor, ReadRegister, WriteRegister, SetZero, Goals, SyncWriteGoals;
  }

  lemma ReadStep(script: Script, parse: Parser, d: Component)
    requires Up(d)
    ensures var d' := Step(script, parse, d, Event.Read);
            && Up(d') && d'.bus == ReadAll(script, d.bus, d.world).2 && d'.world == ReadAll(script, d.bus, d.world).3
  {
    hide ReadAll, PublishAll;
  }

  /**
   A run polls as its read cycles alone would. Services, write cycles, activation steps and movements
   between them change the worlds the cycles find, and nothing of what is polled, or held, next.
   */
  lemma {:induction false} RunPollsAsCalls(script: Script, parse: Parser, d: Component, events: seq<Event>, c: BusState)
    requires Up(d) && Ready(c) && SamePolling(d.bus, c) && forall e :: e in events ==> !e.Cleanup?
    ensures var d', worlds := Run(script, parse, d, events), ReadWorlds(script, parse, d, events);
            && Up(d') && SamePolling(d'.bus, ReadRun(script, c, worlds))
            && Asked(script, parse, d, events) == RunStatusReads(script, c, worlds)
    decreases |events|
  {
    hide Step, ReadAll, StatusReads, New, SamePolling;
    if events != [] {
      var e, d1 := events[0], Step(script, parse, d, events[0]);
      assert forall x :: x in events[1..] ==> x in events;
      var later := ReadWorlds(script, parse, d1, events[1..]);
      if e.Read? {
        ReadStep(script, parse, d);
        ReadAllSame(script, d.bus, c, d.world);
        RunPollsAsCalls(script, parse, d1, events[1..], ReadAll(script, c, d.world).2);
        assert ([d.world] + later)[1..] == later;
      } else {
        OthersKeepPolling(script, parse, d, e);
        SamePollingTwice(d.bus, d1.bus, c);
        RunPollsAsCalls(script, parse, d1, events[1..], c);
        assert [] + later == later;
      }
    }
  }

  lemma SamePollingTwice(a: BusState, b: BusState, c: BusState)
    requires SamePolling(a, b) && SamePolling(a, c)
    ensures SamePolling(b, c)
  {
  }

  /**
   Fairness over whole runs: until cleanup, any n consecutive status reads of the read cycles go to each
   of the n joints exactly once, whatever fails and whatever comes between the cycles.
   */
  lemma EveryRunPollsInTurn(script: Script, parse: Parser, d: Component, events: seq<Event>, start: nat, j: nat)
    requires Up(d) && DistinctIds(d.bus.joints) && j < |d.bus.joints| && forall e :: e in events ==> !e.Cleanup?
    requires start + |d.bus.joints| <= |Asked(script, parse, d, events)|
    ensures var asked, n, id := Asked(script, parse, d, events), |d.bus.joints|, d.bus.joints[j].id;
            && (exists k :: start <= k < start + n && asked[k] == id)
            && forall k, k' :: start <= k < start + n && asked[k] == id && start <= k' < start + n && asked[k'] == id
                 ==> k == k'
  {
    hide Asked, ReadWorlds, Run, RunStatusReads, ReadRun;
    RunPollsAsCalls(script, parse, d, events, d.bus);
    EachJointOncePerRound(script, d.bus, ReadWorlds(script, parse, d, events), start, j);
  }

  /**
   Staleness over whole runs: with the cursor at the first joint, as configuring leaves it, and every
   poll answered, the error held for a joint at the end is at most n successful read cycles old.
   */
  lemma EveryRunHoldsRecentErrors(script: Script, parse: Parser, d: Component, events: seq<Event>, j: nat)
    requires Up(d) && j < |d.bus.joints| && d.bus.cursor == 0 && forall e :: e in events ==> !e.Cleanup?
    requires forall v :: v in Successes(Polls(script, d.bus, ReadWorlds(script, parse, d, events))) ==> v.Some?
    ensures var d', polled := Run(script, parse, d, events),
                              Successes(Polls(script, d.bus, ReadWorlds(script, parse, d, events)));
            Up(d') && |d'.bus.joints| == |d.bus.joints| &&
            Recent(polled, d'.bus.errors[j], d.bus.errors[j], |d.bus.joints|, j)
  {
    hide ReadWorlds, Run, Polls, Successes, ReadRun, Recent;
    RunPollsAsCalls(script, parse, d, events, d.bus);
    ErrorsAreRecent(script, d.bus, ReadWorlds(script, parse, d, events), j);
  }
}
