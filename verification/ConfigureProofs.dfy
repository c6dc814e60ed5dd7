/**
 What configuring guarantees: what it sends and in which order, whether a motor can decline an
 EEPROM write for having torque on, and the exact contents it leaves in every control table.
 */
module ConfigureProofs {
  import opened Bytes
  import opened ControlTable
  import opened Wire
  import opened BusModel

  /** The part of the trace sent since `w`. */
  function New(w: World, w': World): seq<Sent> {
    if |w.trace| <= |w'.trace| then w'.trace[|w.trace|..] else []
  }

  /** Nothing was forgotten, one script entry went to each packet, and the same motors are there. */
  predicate Extends(w: World, w': World) {
    && w'.trace == w.trace + New(w, w')
    && w'.now == w.now + |New(w, w')|
    && w'.motors.Keys == w.motors.Keys
  }

  lemma ExtendsTwice(a: World, b: World, c: World)
    requires Extends(a, b) && Extends(b, c)
    ensures Extends(a, c) && New(a, c) == New(a, b) + New(b, c)
  {
    assert c.trace == a.trace + (New(a, b) + New(b, c));
  }

  // ---------- the shape of a configure run

  predicate IsPing(s: Sent) { s.packet.Ping? }
  predicate IsRead(s: Sent) { s.packet.Read? }

  lemma {:induction false} PingAllFacts(script: Script, w: World, joints: seq<JointSpec>)
    ensures var (ok, joints', w') := PingAll(script, w, joints);
            && Extends(w, w') && w'.motors == w.motors
            && (forall k :: 0 <= k < |New(w, w')| ==> IsPing(New(w, w')[k]))
            && |joints'| == |joints|
            && (forall k :: 0 <= k < |joints| ==>
                  joints'[k] == joints[k] || exists m :: joints'[k] == Detected(joints[k], m))
    decreases |joints|
  {
    if joints != [] {
      var (ok, w1) := PingMotor(script, w, joints[0].id);
      if ok {
        PingAllFacts(script, w1, joints[1..]);
        var w2 := PingAll(script, w1, joints[1..]).2;
        assert New(w, w1) == [w1.trace[|w.trace|]];
        ExtendsTwice(w, w1, w2);
      }
    }
  }

  lemma {:induction false} PingedAreThere(script: Script, w: World, joints: seq<JointSpec>, i: nat)
    requires PingAll(script, w, joints).0 && i < |joints|
    ensures joints[i].id in w.motors
    decreases |joints|
  {
    if i > 0 {
      PingedAreThere(script, PingMotor(script, w, joints[0].id).1, joints[1..], i - 1);
    }
  }

  lemma {:induction false} ReadHomingFacts(script: Script, w: World, joints: seq<JointSpec>)
    ensures var w' := ReadHoming(script, w, joints).1;
            && Extends(w, w') && w'.motors == w.motors
            && forall k :: 0 <= k < |New(w, w')| ==> IsRead(New(w, w')[k])
    decreases |joints|
  {
    if joints != [] {
      var (ok, raw, w1) := ReadRegister(script, w, joints[0].id, HOMING_OFFSET, 4);
      ReadHomingFacts(script, w1, joints[1..]);
      assert New(w, w1) == [w1.trace[|w.trace|]];
      ExtendsTwice(w, w1, ReadHoming(script, w1, joints[1..]).1);
    }
  }

  /** The packets of an execution are those of its first orders; all but the last were acknowledged. */
  predicate Follows(seg: seq<Sent>, orders: seq<Order>, ok: bool) {
    && |seg| <= |orders|
    && (ok ==> |seg| == |orders|)
    && (forall k :: 0 <= k < |seg| ==>
          && orders[k].WriteOrder?
          && seg[k].packet == Write(orders[k].id, orders[k].address, Encode(orders[k].value, orders[k].size)))
    && (forall k :: 0 <= k < |seg| && (k + 1 < |seg| || ok) ==> seg[k].acked)
  }

  lemma IssueFacts(script: Script, w: World, o: Order)
    ensures var (ok, w1) := Issue(script, w, o);
            Extends(w, w1) && Follows(New(w, w1), [o], ok)
  {
  }

  lemma FollowsCons(first: seq<Sent>, o: Order, seg: seq<Sent>, rest: seq<Order>, ok: bool)
    requires Follows(first, [o], true) && Follows(seg, rest, ok)
    ensures Follows(first + seg, [o] + rest, ok)
  {
  }

  lemma FollowsStop(first: seq<Sent>, o: Order, rest: seq<Order>)
    requires Follows(first, [o], false)
    ensures Follows(first, [o] + rest, false)
  {
  }

  lemma ExecuteNone(script: Script, w: World)
    ensures Execute(script, w, []) == (true, w) && Extends(w, w) && Follows(New(w, w), [], true)
  {
  }

  lemma ExecuteOne(script: Script, w: World, orders: seq<Order>)
    requires orders != []
    ensures var (ok, w1) := Issue(script, w, orders[0]);
            Execute(script, w, orders) == if ok then Execute(script, w1, orders[1..]) else (false, w1)
  {
  }

  lemma {:induction false} ExecuteFacts(script: Script, w: World, orders: seq<Order>)
    ensures var (ok, w') := Execute(script, w, orders);
            Extends(w, w') && Follows(New(w, w'), orders, ok)
    decreases |orders|
  {
    hide Issue, Follows, New, Execute;
    ExecuteNone(script, w);
    if orders != [] {
      ExecuteOne(script, w, orders);
      var (ok, w1) := Issue(script, w, orders[0]);
      IssueFacts(script, w, orders[0]);
      assert orders == [orders[0]] + orders[1..];
      if ok {
        ExecuteFacts(script, w1, orders[1..]);
        var (done, w') := Execute(script, w1, orders[1..]);
        ExtendsTwice(w, w1, w');
        FollowsCons(New(w, w1), orders[0], New(w1, w'), orders[1..], done);
      } else {
        FollowsStop(New(w, w1), orders[0], orders[1..]);
      }
    }
  }

  /** The worlds a configure run passes through: after the pings, the writes and the reads. */
  datatype Stages = Stages(pinged: bool, joints: seq<JointSpec>, w1: World, done: bool, w2: World, w3: World)

  function StagesOf(script: Script, parse: Parser, w: World, specs: seq<JointSpec>): Stages {
    var (pinged, joints, w1) := PingAll(script, w, specs);
    var (done, w2) := if pinged then Execute(script, w1, SetupOrders(parse, joints)) else (false, w1);
    Stages(pinged, joints, w1, done, w2, if done then ReadHoming(script, w2, joints).1 else w2)
  }

  lemma ConfigureStages(script: Script, parse: Parser, b: BusState, w: World, specs: seq<JointSpec>)
    requires b.port
    ensures var s := StagesOf(script, parse, w, specs);
            var (ok, b', w') := Configure(script, parse, b, w, specs);
            && w' == s.w3 && Extends(w, w') && Extends(w, s.w1) && Extends(s.w1, s.w2) && Extends(s.w2, s.w3)
            && New(w, w') == New(w, s.w1) + New(s.w1, s.w2) + New(s.w2, s.w3)
            && s.w1.motors == w.motors && s.w3.motors == s.w2.motors
            && (forall k :: 0 <= k < |New(w, s.w1)| ==> IsPing(New(w, s.w1)[k]))
            && (forall k :: 0 <= k < |New(s.w2, s.w3)| ==> IsRead(New(s.w2, s.w3)[k]))
            && (s.w1 == s.w2 || Follows(New(s.w1, s.w2), SetupOrders(parse, specs), s.done))
            && (ok ==> s.pinged && s.done && JoinAll([], s.joints).0)
            && b'.joints == s.joints && SameJoints(s.joints, specs)
  {
    hide PingAll, Execute, ReadHoming, JoinAll, Follows;
    hide TorqueOffOrders, AllJointOrders;
    PingAllFacts(script, w, specs);
    var s := StagesOf(script, parse, w, specs);
    ExecuteFacts(script, s.w1, SetupOrders(parse, s.joints));
    SameOrders(parse, s.joints, specs);
    ReadHomingFacts(script, s.w2, s.joints);
    assert Extends(w, w) && New(w, w) == [];
    assert Extends(s.w1, s.w1) && Extends(s.w2, s.w2);
    ExtendsTwice(w, s.w1, s.w2);
    ExtendsTwice(w, s.w2, s.w3);
  }

  /** Where each packet of a configure run comes from; the writes are those of the middle stage. */
  lemma ConfigureSplit(script: Script, parse: Parser, b: BusState, w: World, specs: seq<JointSpec>)
    requires b.port
    ensures var s := StagesOf(script, parse, w, specs);
            var sent := New(w, Configure(script, parse, b, w, specs).2);
            var p, q := |New(w, s.w1)|, |New(s.w1, s.w2)|;
            && p + q <= |sent| && s.w1.now == w.now + p
            && (forall k :: 0 <= k < p ==> IsPing(sent[k]))
            && (forall k :: p <= k < p + q ==> sent[k] == New(s.w1, s.w2)[k - p])
            && (forall k :: p + q <= k < |sent| ==> IsRead(sent[k]))
            && (s.pinged ==> (s.done, s.w2) == Execute(script, s.w1, SetupOrders(parse, specs)))
            && (q > 0 ==> s.pinged && Follows(New(s.w1, s.w2), SetupOrders(parse, specs), s.done))
            && Configure(script, parse, b, w, specs).2.motors == s.w2.motors
            && s.w1.motors == w.motors
  {
    hide Configure, SetupOrders, Follows, PingAll, Execute, ReadHoming;
    ConfigureStages(script, parse, b, w, specs);
    var s := StagesOf(script, parse, w, specs);
    SameOrders(parse, s.joints, specs);
    SetupOrdersSame(parse, s.joints, specs);
    var sent := New(w, Configure(script, parse, b, w, specs).2);
    var p, q := |New(w, s.w1)|, |New(s.w1, s.w2)|;
    forall k | 0 <= k < p ensures IsPing(sent[k]) { assert sent[k] == New(w, s.w1)[k]; }
    forall k | p + q <= k < |sent| ensures IsRead(sent[k]) { assert sent[k] == New(s.w2, s.w3)[k - p - q]; }
  }

  lemma SetupOrdersSame(parse: Parser, a: seq<JointSpec>, b: seq<JointSpec>)
    requires SameJoints(a, b)
    ensures SetupOrders(parse, a) == SetupOrders(parse, b)
  {
    SameOrders(parse, a, b);
  }

  // ---------- the detected model number changes no order

  ghost predicate SameJoints(a: seq<JointSpec>, b: seq<JointSpec>) {
    |a| == |b| && forall k :: 0 <= k < |a| ==> a[k] == b[k] || exists m :: a[k] == Detected(b[k], m)
  }

  lemma DetectedIsNoRegister(specs: seq<RegisterSpec>)
    requires specs == WRITABLE_REGISTERS
    ensures forall s :: s in specs ==> s.param != DETECTED
  {
    forall k | 0 <= k < |specs| ensures specs[k].param[0] != DETECTED[0] {
    }
  }

  lemma {:induction false} SameParameterOrders(parse: Parser, a: JointSpec, m: nat, specs: seq<RegisterSpec>)
    requires forall s :: s in specs ==> s.param != DETECTED
    ensures ParameterOrders(parse, Detected(a, m), specs) == ParameterOrders(parse, a, specs)
  {
    if specs != [] {
      SameParameterOrders(parse, a, m, specs[1..]);
    }
  }

  lemma {:induction false} SameOrders(parse: Parser, a: seq<JointSpec>, b: seq<JointSpec>)
    requires SameJoints(a, b)
    ensures TorqueOffOrders(a) == TorqueOffOrders(b) && AllJointOrders(parse, a) == AllJointOrders(parse, b)
  {
    if a != [] {
      SameOrders(parse, a[1..], b[1..]);
      DetectedIsNoRegister(WRITABLE_REGISTERS);
      if m :| a[0] == Detected(b[0], m) {
        SameParameterOrders(parse, b[0], m, WRITABLE_REGISTERS);
      }
    }
  }

  // ---------- torque goes off first and stays off

  predicate EnablesTorque(p: Packet) {
    && p.Write? && p.address <= TORQUE_ENABLE < p.address + |p.data|
    && p.data[TORQUE_ENABLE - p.address] != 0
  }

  predicate DisablesTorque(p: Packet, id: Id) {
    p == Write(id, TORQUE_ENABLE, [0])
  }

  predicate LeavesTorqueOff(o: Order) {
    o.WriteOrder? ==> Disjoint(o.address, o.size, TORQUE_ENABLE, 1) || (o.address == TORQUE_ENABLE && o.value == 0)
  }

  lemma {:induction false} TorqueOffOrderAt(joints: seq<JointSpec>)
    ensures |TorqueOffOrders(joints)| == |joints|
    ensures forall i :: 0 <= i < |joints| ==>
                          TorqueOffOrders(joints)[i] == WriteOrder(joints[i].id, TORQUE_ENABLE, 1, 0)
  {
    if joints != [] {
      TorqueOffOrderAt(joints[1..]);
    }
  }

  predicate TableRow(spec: RegisterSpec) {
    && SupportedSize(spec.size) && spec.address + spec.size <= GOAL_POSITION
    && Disjoint(spec.address, spec.size, OPERATING_MODE, 1)
    && Disjoint(spec.address, spec.size, TORQUE_ENABLE, 1)
  }

  lemma TableRows()
    ensures forall s :: s in WRITABLE_REGISTERS ==> TableRow(s)
  {
    forall s | s in WRITABLE_REGISTERS ensures TableRow(s) {
      var i :| 0 <= i < |WRITABLE_REGISTERS| && WRITABLE_REGISTERS[i] == s;
      RegisterLayout(i);
    }
  }

  /** Each parameter order writes one row of the table to the joint's own motor. */
  lemma {:induction false} ParameterOrderRows(parse: Parser, joint: JointSpec, specs: seq<RegisterSpec>)
    ensures forall o :: o in ParameterOrders(parse, joint, specs) && o.WriteOrder? ==>
              o.id == joint.id && exists s :: s in specs && s.address == o.address && s.size == o.size
  {
    if specs != [] {
      ParameterOrderRows(parse, joint, specs[1..]);
      assert forall s :: s in specs[1..] ==> s in specs;
      assert specs[0] in specs;
    }
  }

  /** Every order of a configure run writes below the goal position and enables no torque. */
  predicate SetupOrder(o: Order) {
    LeavesTorqueOff(o) && (o.WriteOrder? ==> SupportedSize(o.size) && o.address + o.size <= GOAL_POSITION)
  }

  lemma {:induction false} AllJointOrdersFacts(parse: Parser, joints: seq<JointSpec>)
    ensures forall o :: o in AllJointOrders(parse, joints) ==> SetupOrder(o)
  {
    if joints != [] {
      AllJointOrdersFacts(parse, joints[1..]);
      ParameterOrderRows(parse, joints[0], WRITABLE_REGISTERS);
      TableRows();
    }
  }

  lemma SetupOrdersFacts(parse: Parser, joints: seq<JointSpec>)
    ensures forall o :: o in SetupOrders(parse, joints) ==> SetupOrder(o)
  {
    TorqueOffOrderAt(joints);
    AllJointOrdersFacts(parse, joints);
  }

  lemma EncodeZero()
    ensures Encode(0, 1) == [0]
  {
  }

  /**
   In every configure run, complete or cut short, an EEPROM write comes after an acknowledged
   torque-off write to every joint, and no packet of the run enables torque.
   */
  lemma EepromWritesFollowTorqueOff(script: Script, parse: Parser, b: BusState, w: World,
                                    specs: seq<JointSpec>, k: nat, j: nat)
    requires b.port
    requires var sent := New(w, Configure(script, parse, b, w, specs).2);
             k < |sent| && sent[k].packet.Write? && sent[k].packet.address < EEPROM_END
    requires j < |specs|
    ensures var sent := New(w, Configure(script, parse, b, w, specs).2);
            && (exists m :: 0 <= m < k && sent[m].acked && DisablesTorque(sent[m].packet, specs[j].id))
            && (forall m :: 0 <= m < |sent| ==> !EnablesTorque(sent[m].packet))
  {
    hide Configure, StagesOf, SetupOrders, New;
    NoTorqueOnWhileConfiguring(script, parse, b, w, specs);
    ConfigureSplit(script, parse, b, w, specs);
    TorqueOffPrefix(parse, specs);
    EncodeZero();
    var s := StagesOf(script, parse, w, specs);
    var p, orders := |New(w, s.w1)|, SetupOrders(parse, specs);
    var sent := New(w, Configure(script, parse, b, w, specs).2);
    assert orders[k - p].address < EEPROM_END;
    assert k - p >= |specs|;
    assert sent[p + j] == New(s.w1, s.w2)[j];
    assert sent[p + j].acked && DisablesTorque(sent[p + j].packet, specs[j].id);
  }

  lemma TorqueOffPrefix(parse: Parser, joints: seq<JointSpec>)
    ensures |SetupOrders(parse, joints)| >= |joints|
    ensures forall i :: 0 <= i < |joints| ==>
              SetupOrders(parse, joints)[i] == WriteOrder(joints[i].id, TORQUE_ENABLE, 1, 0)
  {
    TorqueOffOrderAt(joints);
  }

  lemma NoTorqueOnWhileConfiguring(script: Script, parse: Parser, b: BusState, w: World, specs: seq<JointSpec>)
    requires b.port
    ensures var sent := New(w, Configure(script, parse, b, w, specs).2);
            forall m :: 0 <= m < |sent| ==>
              && !EnablesTorque(sent[m].packet) && !sent[m].packet.SyncWrite?
              && (sent[m].packet.Write? ==> sent[m].packet.address + |sent[m].packet.data| <= GOAL_POSITION)
  {
    hide Configure, StagesOf, SetupOrders, New;
    ConfigureSplit(script, parse, b, w, specs);
    SetupOrdersFacts(parse, specs);
    EncodeZero();
    var s := StagesOf(script, parse, w, specs);
    var sent := New(w, Configure(script, parse, b, w, specs).2);
    var p, q := |New(w, s.w1)|, |New(s.w1, s.w2)|;
    forall m | 0 <= m < |sent|
      ensures && !EnablesTorque(sent[m].packet) && !sent[m].packet.SyncWrite?
              && (sent[m].packet.Write? ==> sent[m].packet.address + |sent[m].packet.data| <= GOAL_POSITION)
    {
      if p <= m < p + q {
        var o := SetupOrders(parse, specs)[m - p];
        assert o in SetupOrders(parse, specs) && SetupOrder(o);
      } else {
        assert IsPing(sent[m]) || IsRead(sent[m]);
      }
    }
  }

  /** With torque off, a write is carried out unless it is lost or declined for another reason. */
  predicate CarriedOut(script: Script, now: nat, s: Sent) {
    s.applied <==> script(now).arrives && !script(now).refuses
  }

  predicate WritesTo(p: Packet, id: Id) {
    p.Write? && p.id == id
  }

  /** Every write to the motor from position `start` on was carried out, unless lost or declined. */
  predicate AllCarriedOut(script: Script, now: nat, sent: seq<Sent>, id: Id, start: nat) {
    forall k :: start <= k < |sent| && WritesTo(sent[k].packet, id) ==> CarriedOut(script, now + k, sent[k])
  }

  lemma CarriedOutAppend(script: Script, now: nat, a: seq<Sent>, b: seq<Sent>, id: Id, start: nat)
    requires AllCarriedOut(script, now, a, id, start)
    requires AllCarriedOut(script, now + |a|, b, id, if start <= |a| then 0 else start - |a|)
    ensures AllCarriedOut(script, now, a + b, id, start)
  {
    forall k | start <= k < |a + b| && WritesTo((a + b)[k].packet, id)
      ensures CarriedOut(script, now + k, (a + b)[k])
    {
      if k >= |a| { assert CarriedOut(script, now + |a| + (k - |a|), b[k - |a|]); }
    }
  }

  /** What is left to do after the first order: the rest, or nothing if it failed. */
  function Remaining(script: Script, w: World, orders: seq<Order>): (r: seq<Order>)
    requires orders != []
    ensures |r| < |orders| && forall o :: o in r ==> o in orders
  {
    if Issue(script, w, orders[0]).0 then orders[1..] else []
  }

  /** One order of an execution: at most one packet, and the rest goes on from where it ends. */
  lemma ExecuteStep(script: Script, w: World, orders: seq<Order>)
    requires orders != []
    ensures var (ok, w1) := Issue(script, w, orders[0]);
            var w' := Execute(script, w, orders).1;
            && w' == Execute(script, w1, Remaining(script, w, orders)).1
            && (ok ==> |New(w, w1)| == 1 && Execute(script, w, orders) == Execute(script, w1, orders[1..]))
            && |New(w, w1)| <= 1 && w1.now == w.now + |New(w, w1)| && w1.motors.Keys == w.motors.Keys
            && New(w, w') == New(w, w1) + New(w1, w')
  {
    hide Issue, Follows;
    var (ok, w1) := Issue(script, w, orders[0]);
    IssueFacts(script, w, orders[0]);
    FollowsOne(New(w, w1), orders[0], ok);
    ExecuteFacts(script, w1, Remaining(script, w, orders));
    ExtendsTwice(w, w1, Execute(script, w, orders).1);
  }

  lemma FollowsOne(seg: seq<Sent>, o: Order, ok: bool)
    requires Follows(seg, [o], ok)
    ensures |seg| <= 1 && (ok ==> |seg| == 1)
  {
  }

  lemma IssueKeepsTorqueOff(script: Script, w: World, o: Order, id: Id)
    requires id in w.motors && !TorqueOn(w.motors[id]) && SetupOrder(o)
    ensures var w1 := Issue(script, w, o).1;
            && id in w1.motors && !TorqueOn(w1.motors[id])
            && AllCarriedOut(script, w.now, New(w, w1), id, 0)
  {
    EncodeZero();
  }

  lemma {:induction false} TorqueOffStays(script: Script, w: World, orders: seq<Order>, id: Id)
    requires id in w.motors && !TorqueOn(w.motors[id])
    requires forall o :: o in orders ==> SetupOrder(o)
    ensures var w' := Execute(script, w, orders).1;
            && id in w'.motors && !TorqueOn(w'.motors[id])
            && AllCarriedOut(script, w.now, New(w, w'), id, 0)
    decreases |orders|
  {
    hide Issue, SetupOrder, Execute, New, AllCarriedOut, TorqueOn, Remaining;
    ExecuteNothing(script, w, id);
    if orders != [] {
      ExecuteStep(script, w, orders);
      IssueKeepsTorqueOff(script, w, orders[0], id);
      var w1, w' := Issue(script, w, orders[0]).1, Execute(script, w, orders).1;
      TorqueOffStays(script, w1, Remaining(script, w, orders), id);
      CarriedOutAppend(script, w.now, New(w, w1), New(w1, w'), id, 0);
    }
  }

  lemma ExecuteNothing(script: Script, w: World, id: Id)
    ensures Execute(script, w, []) == (true, w) && New(w, w) == []
    ensures forall start :: AllCarriedOut(script, w.now, [], id, start)
  {
  }

  /** From an accepted torque-off write on, the motor declines no write for having torque on. */
  lemma {:induction false} AcceptedTorqueOff(script: Script, w: World, orders: seq<Order>, id: Id, m: nat)
    requires id != BROADCAST && forall o :: o in orders ==> SetupOrder(o)
    requires var sent := New(w, Execute(script, w, orders).1);
             m < |sent| && sent[m].applied && DisablesTorque(sent[m].packet, id)
    ensures var w' := Execute(script, w, orders).1;
            && id in w'.motors && !TorqueOn(w'.motors[id])
            && AllCarriedOut(script, w.now, New(w, w'), id, m + 1)
    decreases |orders|
  {
    hide Issue, SetupOrder, Execute, New, AllCarriedOut, TorqueOn, Remaining;
    ExecuteNothing(script, w, id);
    if orders != [] {
      ExecuteStep(script, w, orders);
      var w1, w' := Issue(script, w, orders[0]).1, Execute(script, w, orders).1;
      var rest := Remaining(script, w, orders);
      if m < |New(w, w1)| {
        AppliedTorqueOff(script, w, orders[0], id);
        TorqueOffStays(script, w1, rest, id);
      } else {
        AcceptedTorqueOff(script, w1, rest, id, m - |New(w, w1)|);
      }
      NothingAfter(script, w.now, New(w, w1), id, m + 1);
      CarriedOutAppend(script, w.now, New(w, w1), New(w1, w'), id, m + 1);
    }
  }

  lemma NothingAfter(script: Script, now: nat, sent: seq<Sent>, id: Id, start: nat)
    requires |sent| <= start
    ensures AllCarriedOut(script, now, sent, id, start)
  {
  }

  lemma AppliedTorqueOff(script: Script, w: World, o: Order, id: Id)
    requires id != BROADCAST
    requires var sent := New(w, Issue(script, w, o).1);
             |sent| == 1 && sent[0].applied && DisablesTorque(sent[0].packet, id)
    ensures var w1 := Issue(script, w, o).1;
            id in w1.motors && !TorqueOn(w1.motors[id])
  {
  }

  /** Every order of a setup is for some joint. */
  lemma {:induction false} AllJointOrderIds(parse: Parser, joints: seq<JointSpec>)
    ensures forall o :: o in AllJointOrders(parse, joints) && o.WriteOrder? ==> exists j :: j in joints && j.id == o.id
  {
    if joints != [] {
      AllJointOrderIds(parse, joints[1..]);
      ParameterOrderRows(parse, joints[0], WRITABLE_REGISTERS);
      assert joints[0] in joints && forall j :: j in joints[1..] ==> j in joints;
    }
  }

  lemma SetupOrderIds(parse: Parser, joints: seq<JointSpec>, o: Order)
    requires o in SetupOrders(parse, joints) && o.WriteOrder?
    ensures exists i :: 0 <= i < |joints| && joints[i].id == o.id
  {
    TorqueOffOrderAt(joints);
    AllJointOrderIds(parse, joints);
  }

  /** Once all joints have answered the pings, none of their orders is a broadcast. */
  lemma NoBroadcastOrders(script: Script, parse: Parser, w: World, joints: seq<JointSpec>, o: Order)
    requires StagesOf(script, parse, w, joints).pinged && o in SetupOrders(parse, joints) && o.WriteOrder?
    ensures o.id in w.motors && o.id != BROADCAST
  {
    hide SetupOrders, PingAll, Execute, ReadHoming;
    SetupOrderIds(parse, joints, o);
    var i :| 0 <= i < |joints| && joints[i].id == o.id;
    PingedAreThere(script, w, joints, i);
  }

  /** A write of a configure run goes to a motor of the line. */
  lemma MiddleWrite(script: Script, parse: Parser, b: BusState, w: World, specs: seq<JointSpec>, m: nat)
    requires b.port
    requires var sent := New(w, Configure(script, parse, b, w, specs).2); m < |sent| && sent[m].packet.Write?
    ensures var packet := New(w, Configure(script, parse, b, w, specs).2)[m].packet;
            packet.id in w.motors && packet.id != BROADCAST
  {
    hide Configure, SetupOrders, Execute, PingAll, ReadHoming, New;
    ConfigureSplit(script, parse, b, w, specs);
    var s := StagesOf(script, parse, w, specs);
    var p := |New(w, s.w1)|;
    var o := SetupOrders(parse, specs)[m - p];
    assert o in SetupOrders(parse, specs);
    NoBroadcastOrders(script, parse, w, specs, o);
  }

  /** The same over the whole configure run, and the motor ends it with torque off. */
  lemma NeverLockedAfterTorqueOff(script: Script, parse: Parser, b: BusState, w: World,
                                  specs: seq<JointSpec>, id: Id, m: nat)
    requires b.port
    requires var sent := New(w, Configure(script, parse, b, w, specs).2);
             m < |sent| && sent[m].applied && DisablesTorque(sent[m].packet, id)
    ensures var w' := Configure(script, parse, b, w, specs).2;
            && id in w'.motors && !TorqueOn(w'.motors[id])
            && AllCarriedOut(script, w.now, New(w, w'), id, m + 1)
  {
    hide Configure, SetupOrders, Execute, PingAll, ReadHoming, New, Follows, StagesOf;
    ConfigureSplit(script, parse, b, w, specs);
    var s := StagesOf(script, parse, w, specs);
    SetupOrdersFacts(parse, specs);
    var p, q := |New(w, s.w1)|, |New(s.w1, s.w2)|;
    MiddleWrite(script, parse, b, w, specs, m);
    AcceptedTorqueOff(script, s.w1, SetupOrders(parse, specs), id, m - p);
    var sent := New(w, Configure(script, parse, b, w, specs).2);
    forall k | m + 1 <= k < |sent| && WritesTo(sent[k].packet, id)
      ensures CarriedOut(script, w.now + k, sent[k])
    {
      assert sent[k] == New(s.w1, s.w2)[k - p];
      assert CarriedOut(script, s.w1.now + (k - p), New(s.w1, s.w2)[k - p]);
    }
  }
}
