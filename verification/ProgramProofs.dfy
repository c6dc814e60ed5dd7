/**
 The control tables after a configure whose writes were all accepted: the old bytes overlaid with
 torque off, the operating mode and every supplied parameter, whatever the order of the registers.
 */
module ProgramProofs {
  import opened Bytes
  import opened ControlTable
  import opened Wire
  import opened BusModel
  import opened ConfigureProofs

  predicate Writable(orders: seq<Order>) {
    forall o :: o in orders && o.WriteOrder? ==> SupportedSize(o.size)
  }

  /** The orders for one motor, stored one after another. */
  function Program(t: Table, id: Id, orders: seq<Order>): Table
    requires Writable(orders)
    decreases |orders|
  {
    if orders == [] then t
    else
      var o := orders[0];
      var t' := if o.WriteOrder? && o.id == id then Overlay(t, o.address, Encode(o.value, o.size)) else t;
      Program(t', id, orders[1..])
  }

  predicate AllApplied(sent: seq<Sent>) {
    forall k :: 0 <= k < |sent| && sent[k].packet.Write? ==> sent[k].applied
  }

  /** An execution whose packets were all carried out has stored its orders in every motor. */
  lemma {:induction false} ExecuteProgram(script: Script, w: World, orders: seq<Order>, id: Id)
    requires Writable(orders) && id in w.motors
    requires forall o :: o in orders && o.WriteOrder? ==> o.id != BROADCAST
    requires var (ok, w') := Execute(script, w, orders); ok && AllApplied(New(w, w'))
    ensures var w' := Execute(script, w, orders).1;
            id in w'.motors && w'.motors[id] == w.motors[id].(table := Program(w.motors[id].table, id, orders))
    decreases |orders|
  {
    if orders == [] {
    } else {
      ExecuteStep(script, w, orders);
      var w1 := Issue(script, w, orders[0]).1;
      assert New(w, w1)[0] == New(w, Execute(script, w, orders).1)[0];
      var rest := New(w1, Execute(script, w, orders).1);
      forall k | 0 <= k < |rest| && rest[k].packet.Write? ensures rest[k].applied {
        assert rest[k] == New(w, Execute(script, w, orders).1)[k + 1];
      }
      ExecuteProgram(script, w1, orders[1..], id);
    }
  }

  function OrdersFor(id: Id, orders: seq<Order>): seq<Order> {
    if orders == [] then []
    else (if orders[0].WriteOrder? && orders[0].id == id then [orders[0]] else []) + OrdersFor(id, orders[1..])
  }

  lemma {:induction false} OrdersForAppend(id: Id, a: seq<Order>, b: seq<Order>)
    ensures OrdersFor(id, a + b) == OrdersFor(id, a) + OrdersFor(id, b)
  {
    if a == [] {
      assert a + b == b;
    } else {
      assert (a + b)[1..] == a[1..] + b;
      OrdersForAppend(id, a[1..], b);
    }
  }

  lemma {:induction false} OrdersForWritable(id: Id, orders: seq<Order>)
    requires Writable(orders)
    ensures Writable(OrdersFor(id, orders))
  {
    if orders != [] {
      OrdersForWritable(id, orders[1..]);
    }
  }

  lemma {:induction false} OrdersForNone(id: Id, orders: seq<Order>)
    requires forall o :: o in orders && o.WriteOrder? ==> o.id != id
    ensures OrdersFor(id, orders) == []
  {
    if orders != [] {
      OrdersForNone(id, orders[1..]);
    }
  }

  /** Orders for other motors do not matter. */
  lemma {:induction false} ProgramFiltered(t: Table, id: Id, orders: seq<Order>)
    requires Writable(orders)
    ensures Writable(OrdersFor(id, orders)) && Program(t, id, orders) == Program(t, id, OrdersFor(id, orders))
    decreases |orders|
  {
    OrdersForWritable(id, orders);
    if orders == [] {
    } else {
      var o, rest := orders[0], OrdersFor(id, orders[1..]);
      OrdersForWritable(id, orders[1..]);
      if o.WriteOrder? && o.id == id {
        assert OrdersFor(id, orders)[1..] == rest;
        ProgramFiltered(Overlay(t, o.address, Encode(o.value, o.size)), id, orders[1..]);
      } else {
        assert OrdersFor(id, orders) == rest;
        ProgramFiltered(t, id, orders[1..]);
      }
    }
  }

  lemma {:induction false} ProgramAppend(t: Table, id: Id, a: seq<Order>, b: seq<Order>)
    requires Writable(a) && Writable(b) && Writable(a + b)
    ensures Program(t, id, a + b) == Program(Program(t, id, a), id, b)
    decreases |a|
  {
    if a == [] {
      assert a + b == b;
    } else {
      assert (a + b)[1..] == a[1..] + b;
      var o := a[0];
      var t' := if o.WriteOrder? && o.id == id then Overlay(t, o.address, Encode(o.value, o.size)) else t;
      ProgramAppend(t', id, a[1..], b);
    }
  }

  // ---------- one joint's orders among everybody's

  lemma {:induction false} OtherJoints(parse: Parser, joints: seq<JointSpec>, id: Id)
    requires forall j :: j in joints ==> j.id != id
    ensures OrdersFor(id, TorqueOffOrders(joints)) == [] && OrdersFor(id, AllJointOrders(parse, joints)) == []
  {
    if joints != [] {
      OtherJoints(parse, joints[1..], id);
      OrdersForAppend(id, JointOrders(parse, joints[0]), AllJointOrders(parse, joints[1..]));
      OwnOrders(parse, joints[0], id);
      assert joints[0] in joints;
    }
  }

  /** A joint's orders all go to its own motor. */
  lemma OwnOrders(parse: Parser, joint: JointSpec, id: Id)
    ensures joint.id != id ==> OrdersFor(id, JointOrders(parse, joint)) == []
  {
    ParameterOrderRows(parse, joint, WRITABLE_REGISTERS);
    if joint.id != id {
      OrdersForNone(id, JointOrders(parse, joint));
    }
  }

  lemma {:induction false} OrdersOfJoint(parse: Parser, joints: seq<JointSpec>, i: nat)
    requires DistinctIds(joints) && i < |joints|
    ensures OrdersFor(joints[i].id, TorqueOffOrders(joints)) == [WriteOrder(joints[i].id, TORQUE_ENABLE, 1, 0)]
    ensures OrdersFor(joints[i].id, AllJointOrders(parse, joints))
         == OrdersFor(joints[i].id, JointOrders(parse, joints[i]))
    decreases |joints|
  {
    var id := joints[i].id;
    OrdersForAppend(id, JointOrders(parse, joints[0]), AllJointOrders(parse, joints[1..]));
    if i == 0 {
      OtherJoints(parse, joints[1..], id);
    } else {
      OrdersOfJoint(parse, joints[1..], i - 1);
      OwnOrders(parse, joints[0], id);
    }
  }

  // ---------- one joint's parameters in one table

  predicate Rows(specs: seq<RegisterSpec>) {
    && (forall s :: s in specs ==> TableRow(s))
    && (forall i, j :: 0 <= i < j < |specs| ==>
          Disjoint(specs[i].address, specs[i].size, specs[j].address, specs[j].size))
  }

  predicate Supplies(joint: JointSpec, spec: RegisterSpec, a: nat) {
    spec.param in joint.parameters && spec.address <= a < spec.address + spec.size
  }

  /** Every supplied parameter is a number. */
  predicate Parses(parse: Parser, joint: JointSpec, specs: seq<RegisterSpec>) {
    forall s :: s in specs && s.param in joint.parameters ==> parse(joint.parameters[s.param]).Some?
  }

  /** The byte that address `a` should hold: the supplying register's, or the old one. */
  predicate RightByte(parse: Parser, joint: JointSpec, specs: seq<RegisterSpec>, t: Table, t': Table, a: nat)
    requires Parses(parse, joint, specs) && a < SPAN
  {
    && (forall s :: s in specs && Supplies(joint, s, a) ==>
          t'[a] == Encode(parse(joint.parameters[s.param]).value, s.size)[a - s.address])
    && ((forall s :: s in specs ==> !Supplies(joint, s, a)) ==> t'[a] == t[a])
  }

  lemma ParametersWritable(parse: Parser, joint: JointSpec, specs: seq<RegisterSpec>)
    requires Rows(specs)
    ensures Writable(ParameterOrders(parse, joint, specs))
  {
    ParameterOrderRows(parse, joint, specs);
  }

  lemma {:induction false} ParametersStored(parse: Parser, joint: JointSpec, specs: seq<RegisterSpec>, t: Table, a: nat)
    requires Rows(specs) && Parses(parse, joint, specs) && a < SPAN
    ensures Writable(ParameterOrders(parse, joint, specs))
    ensures RightByte(parse, joint, specs, t, Program(t, joint.id, ParameterOrders(parse, joint, specs)), a)
    decreases |specs|
  {
    ParametersWritable(parse, joint, specs);
    if specs != [] {
      var s, rest := specs[0], specs[1..];
      assert s in specs;
      ParametersWritable(parse, joint, rest);
      var head := ParameterOrder(parse, joint, s);
      ProgramAppend(t, joint.id, head, ParameterOrders(parse, joint, rest));
      var t' := Program(t, joint.id, head);
      ParametersStored(parse, joint, rest, t', a);
      HeadStored(parse, joint, s, t, a);
      if Supplies(joint, s, a) {
        forall r | r in rest ensures !Supplies(joint, r, a) {
          var i :| 0 <= i < |rest| && rest[i] == r;
          assert specs[i + 1] == r;
        }
      }
    }
  }

  lemma HeadStored(parse: Parser, joint: JointSpec, s: RegisterSpec, t: Table, a: nat)
    requires TableRow(s) && a < SPAN && (s.param in joint.parameters ==> parse(joint.parameters[s.param]).Some?)
    ensures var t' := Program(t, joint.id, ParameterOrder(parse, joint, s));
            if Supplies(joint, s, a)
            then t'[a] == Encode(parse(joint.parameters[s.param]).value, s.size)[a - s.address]
            else t'[a] == t[a]
  {
    if s.param in joint.parameters {
      var data := Encode(parse(joint.parameters[s.param]).value, s.size);
      var r := Overlay(t, s.address, data);
      assert Supplies(joint, s, a) ==> r[a] == r[s.address..s.address + |data|][a - s.address];
    }
  }

  /** The order in which the registers are written does not matter. */
  lemma RegisterOrderIrrelevant(parse: Parser, joint: JointSpec, specs: seq<RegisterSpec>,
                                specs': seq<RegisterSpec>, t: Table)
    requires Rows(specs) && Rows(specs') && Parses(parse, joint, specs)
    requires multiset(specs) == multiset(specs')
    ensures Writable(ParameterOrders(parse, joint, specs)) && Writable(ParameterOrders(parse, joint, specs'))
    ensures Program(t, joint.id, ParameterOrders(parse, joint, specs))
         == Program(t, joint.id, ParameterOrders(parse, joint, specs'))
  {
    assert forall s :: s in specs <==> s in multiset(specs);
    assert forall s :: s in specs' <==> s in multiset(specs');
    ParametersWritable(parse, joint, specs);
    ParametersWritable(parse, joint, specs');
    forall a | 0 <= a < SPAN
      ensures Program(t, joint.id, ParameterOrders(parse, joint, specs))[a]
           == Program(t, joint.id, ParameterOrders(parse, joint, specs'))[a]
    {
      ParametersStored(parse, joint, specs, t, a);
      ParametersStored(parse, joint, specs', t, a);
    }
  }

  // ---------- the whole run

  lemma TableIsRows()
    ensures Rows(WRITABLE_REGISTERS)
  {
    TableRows();
    forall i, j | 0 <= i < j < |WRITABLE_REGISTERS|
      ensures Disjoint(WRITABLE_REGISTERS[i].address, WRITABLE_REGISTERS[i].size,
                       WRITABLE_REGISTERS[j].address, WRITABLE_REGISTERS[j].size)
    {
      RegistersDisjoint(i, j);
    }
  }

  /** An execution that succeeds met no parameter that is not a number. */
  lemma {:induction false} SucceededOrders(script: Script, w: World, orders: seq<Order>)
    requires Execute(script, w, orders).0
    ensures forall o :: o in orders ==> o.WriteOrder?
    decreases |orders|
  {
    if orders != [] {
      SucceededOrders(script, Issue(script, w, orders[0]).1, orders[1..]);
      assert forall o :: o in orders <==> o == orders[0] || o in orders[1..];
    }
  }

  lemma {:induction false} OrdersParse(parse: Parser, joint: JointSpec, specs: seq<RegisterSpec>)
    requires forall o :: o in ParameterOrders(parse, joint, specs) ==> o.WriteOrder?
    ensures Parses(parse, joint, specs)
  {
    if specs != [] {
      var head, rest := ParameterOrder(parse, joint, specs[0]), ParameterOrders(parse, joint, specs[1..]);
      assert forall o :: o in head || o in rest ==> o in head + rest;
      OrdersParse(parse, joint, specs[1..]);
      if specs[0].param in joint.parameters {
        assert head[0] in ParameterOrders(parse, joint, specs);
      }
    }
  }

  lemma {:induction false} JointOrdersIncluded(parse: Parser, joints: seq<JointSpec>, i: nat)
    requires i < |joints|
    ensures forall o :: o in JointOrders(parse, joints[i]) ==> o in AllJointOrders(parse, joints)
  {
    if i > 0 {
      JointOrdersIncluded(parse, joints[1..], i - 1);
    }
  }

  /** What one joint's own orders leave in its table. */
  predicate Configured(parse: Parser, joint: JointSpec, t: Table, t': Table)
    requires Parses(parse, joint, WRITABLE_REGISTERS)
  {
    && t'[TORQUE_ENABLE] == 0
    && t'[OPERATING_MODE] == OperatingModeValue(joint.operatingMode)
    && forall a :: 0 <= a < SPAN && a != TORQUE_ENABLE && a != OPERATING_MODE ==>
                     RightByte(parse, joint, WRITABLE_REGISTERS, t, t', a)
  }

  lemma FixedBytesFree(joint: JointSpec, specs: seq<RegisterSpec>)
    requires Rows(specs)
    ensures forall s :: s in specs ==> !Supplies(joint, s, TORQUE_ENABLE) && !Supplies(joint, s, OPERATING_MODE)
  {
    forall s | s in specs ensures !Supplies(joint, s, TORQUE_ENABLE) && !Supplies(joint, s, OPERATING_MODE) {
      assert TableRow(s);
    }
  }

  lemma JointTable(parse: Parser, joint: JointSpec, t: Table)
    requires Parses(parse, joint, WRITABLE_REGISTERS)
    ensures var orders := [WriteOrder(joint.id, TORQUE_ENABLE, 1, 0)] + JointOrders(parse, joint);
            Writable(orders) && Configured(parse, joint, t, Program(t, joint.id, orders))
  {
    TableIsRows();
    hide WRITABLE_REGISTERS, ParameterOrders, Program, Supplies, Parses;
    ParametersWritable(parse, joint, WRITABLE_REGISTERS);
    var head := [WriteOrder(joint.id, TORQUE_ENABLE, 1, 0), ModeOrder(joint)];
    var tail := ParameterOrders(parse, joint, WRITABLE_REGISTERS);
    assert [WriteOrder(joint.id, TORQUE_ENABLE, 1, 0)] + JointOrders(parse, joint) == head + tail;
    ProgramAppend(t, joint.id, head, tail);
    HeadTable(joint, t);
    assert Writable(head) && Writable(head + tail);
    FixedBytesFree(joint, WRITABLE_REGISTERS);
    var t1 := Program(t, joint.id, head);
    forall a | 0 <= a < SPAN
      ensures RightByte(parse, joint, WRITABLE_REGISTERS, t1, Program(t1, joint.id, tail), a)
    {
      ParametersStored(parse, joint, WRITABLE_REGISTERS, t1, a);
    }
    var t' := Program(t1, joint.id, tail);
    assert RightByte(parse, joint, WRITABLE_REGISTERS, t1, t', TORQUE_ENABLE);
    assert RightByte(parse, joint, WRITABLE_REGISTERS, t1, t', OPERATING_MODE);
    forall a | 0 <= a < SPAN && a != TORQUE_ENABLE && a != OPERATING_MODE
      ensures RightByte(parse, joint, WRITABLE_REGISTERS, t, t', a)
    {
      assert RightByte(parse, joint, WRITABLE_REGISTERS, t1, t', a);
    }
  }

  lemma EncodeByte(v: int)
    requires 0 <= v < 256
    ensures Encode(v, 1) == [v]
  {
  }

  lemma HeadTable(joint: JointSpec, t: Table)
    ensures var head := [WriteOrder(joint.id, TORQUE_ENABLE, 1, 0), ModeOrder(joint)];
            var t1 := Program(t, joint.id, head);
            && t1[TORQUE_ENABLE] == 0 && t1[OPERATING_MODE] == OperatingModeValue(joint.operatingMode)
            && forall a :: 0 <= a < SPAN && a != TORQUE_ENABLE && a != OPERATING_MODE ==> t1[a] == t[a]
  {
    var off, mode := WriteOrder(joint.id, TORQUE_ENABLE, 1, 0), ModeOrder(joint);
    assert [off, mode][1..] == [mode];
    var t1 := Overlay(t, TORQUE_ENABLE, Encode(0, 1));
    var t2 := Overlay(t1, OPERATING_MODE, Encode(OperatingModeValue(joint.operatingMode), 1));
    assert Program(t, joint.id, [off, mode]) == Program(t1, joint.id, [mode]) == t2;
    EncodeByte(0);
    EncodeByte(OperatingModeValue(joint.operatingMode));
    assert t1[TORQUE_ENABLE] == t1[TORQUE_ENABLE..TORQUE_ENABLE + 1][0];
    assert t2[OPERATING_MODE] == t2[OPERATING_MODE..OPERATING_MODE + 1][0];
  }

  lemma SetupWritable(parse: Parser, joints: seq<JointSpec>)
    ensures Writable(SetupOrders(parse, joints))
    ensures Writable(TorqueOffOrders(joints)) && Writable(AllJointOrders(parse, joints))
  {
    SetupOrdersFacts(parse, joints);
    forall o | o in TorqueOffOrders(joints) || o in AllJointOrders(parse, joints)
      ensures SetupOrder(o)
    {
      assert o in SetupOrders(parse, joints);
    }
  }

  /** What the orders of all joints do to one joint's table is what its own orders do. */
  lemma OwnTable(parse: Parser, joints: seq<JointSpec>, i: nat, t: Table)
    requires DistinctIds(joints) && i < |joints|
    ensures var own := [WriteOrder(joints[i].id, TORQUE_ENABLE, 1, 0)] + JointOrders(parse, joints[i]);
            && Writable(own) && Writable(SetupOrders(parse, joints))
            && Program(t, joints[i].id, SetupOrders(parse, joints)) == Program(t, joints[i].id, own)
  {
    var id := joints[i].id;
    SetupWritable(parse, joints);
    ProgramFiltered(t, id, SetupOrders(parse, joints));
    OrdersForAppend(id, TorqueOffOrders(joints), AllJointOrders(parse, joints));
    OrdersOfJoint(parse, joints, i);
    ParameterOrderRows(parse, joints[i], WRITABLE_REGISTERS);
    TableRows();
    var own := [WriteOrder(id, TORQUE_ENABLE, 1, 0)] + JointOrders(parse, joints[i]);
    ProgramFiltered(t, id, own);
    OrdersForAppend(id, [WriteOrder(id, TORQUE_ENABLE, 1, 0)], JointOrders(parse, joints[i]));
  }

  /** A successful configure has distinct ids and, if every write was accepted, stored its orders. */
  lemma ConfigureRan(script: Script, parse: Parser, b: BusState, w: World, specs: seq<JointSpec>, id: Id)
    requires Configure(script, parse, b, w, specs).0
    requires AllApplied(New(w, Configure(script, parse, b, w, specs).2))
    requires id in w.motors
    ensures DistinctIds(specs) && Writable(SetupOrders(parse, specs))
    ensures forall o :: o in SetupOrders(parse, specs) ==> o.WriteOrder?
    ensures var w' := Configure(script, parse, b, w, specs).2;
            && id in w'.motors
            && w'.motors[id] == w.motors[id].(table := Program(w.motors[id].table, id, SetupOrders(parse, specs)))
  {
    hide SetupOrders, Configure, StagesOf, PingAll, Execute, ReadHoming, JoinAll, Program, New;
    PortWasOpen(script, parse, b, w, specs);
    ConfigureSplit(script, parse, b, w, specs);
    ConfigureStages(script, parse, b, w, specs);
    var s := StagesOf(script, parse, w, specs);
    JoinAllDistinct([], s.joints);
    SameIds(s.joints, specs);
    SetupWritable(parse, specs);
    var p, sent := |New(w, s.w1)|, New(w, Configure(script, parse, b, w, specs).2);
    forall k | 0 <= k < |New(s.w1, s.w2)| && New(s.w1, s.w2)[k].packet.Write?
      ensures New(s.w1, s.w2)[k].applied
    {
      assert sent[p + k] == New(s.w1, s.w2)[k];
    }
    forall o | o in SetupOrders(parse, specs) && o.WriteOrder? ensures o.id != BROADCAST {
      NoBroadcastOrders(script, parse, w, specs, o);
    }
    ExecuteProgram(script, s.w1, SetupOrders(parse, specs), id);
    SucceededOrders(script, s.w1, SetupOrders(parse, specs));
  }

  lemma PortWasOpen(script: Script, parse: Parser, b: BusState, w: World, specs: seq<JointSpec>)
    requires Configure(script, parse, b, w, specs).0
    ensures b.port
  {
  }

  /** A successful configure has found every joint's motor on the line. */
  lemma EveryJointAnswered(script: Script, parse: Parser, b: BusState, w: World, specs: seq<JointSpec>, i: nat)
    requires Configure(script, parse, b, w, specs).0 && i < |specs|
    ensures specs[i].id in w.motors
  {
    PingedAreThere(script, w, specs, i);
  }

  lemma SameIds(a: seq<JointSpec>, b: seq<JointSpec>)
    requires SameJoints(a, b) && DistinctIds(a)
    ensures DistinctIds(b)
  {
    forall i, j | 0 <= i < j < |b| ensures b[i].id != b[j].id {
      assert a[i].id == b[i].id && a[j].id == b[j].id;
    }
  }

  lemma JointParses(parse: Parser, joints: seq<JointSpec>, i: nat)
    requires i < |joints| && forall o :: o in SetupOrders(parse, joints) ==> o.WriteOrder?
    ensures Parses(parse, joints[i], WRITABLE_REGISTERS)
  {
    hide WRITABLE_REGISTERS;
    JointOrdersIncluded(parse, joints, i);
    forall o | o in ParameterOrders(parse, joints[i], WRITABLE_REGISTERS) ensures o.WriteOrder? {
      assert o in JointOrders(parse, joints[i]);
      assert o in SetupOrders(parse, joints);
    }
    OrdersParse(parse, joints[i], WRITABLE_REGISTERS);
  }

  /**
   A successful configure whose writes were all accepted. The ids are distinct, and each joint's
   motor is as before except that its table is overlaid with torque off, the joint's mode and its
   parameters.
   */
  lemma ConfigureProgramsMotors(script: Script, parse: Parser, b: BusState, w: World, specs: seq<JointSpec>, i: nat)
    requires Configure(script, parse, b, w, specs).0
    requires AllApplied(New(w, Configure(script, parse, b, w, specs).2))
    requires i < |specs|
    ensures DistinctIds(specs) && Parses(parse, specs[i], WRITABLE_REGISTERS)
    ensures specs[i].id in w.motors && specs[i].id in Configure(script, parse, b, w, specs).2.motors
    ensures var m, m' := w.motors[specs[i].id], Configure(script, parse, b, w, specs).2.motors[specs[i].id];
            && Configured(parse, specs[i], m.table, m'.table)
            && m' == m.(table := m'.table)
  {
    hide SetupOrders, Configure, Program, New, WRITABLE_REGISTERS, Parses, Configured;
    var id := specs[i].id;
    EveryJointAnswered(script, parse, b, w, specs, i);
    ConfigureRan(script, parse, b, w, specs, id);
    JointParses(parse, specs, i);
    OwnTable(parse, specs, i, w.motors[id].table);
    JointTable(parse, specs[i], w.motors[id].table);
  }

  // ---------- which register a parameter name stands for

  /** Name, address and size of a register, as the table of readable registers lists it. */
  predicate Documented(name: string, address: nat, size: nat) {
    || (name == "drive_mode" && address == 10 && size == 1)
    || (name == "homing_offset" && address == 20 && size == 4)
    || (name == "temperature_limit" && address == 31 && size == 1)
    || (name == "max_voltage_limit" && address == 32 && size == 2)
    || (name == "min_voltage_limit" && address == 34 && size == 2)
    || (name == "pwm_limit" && address == 36 && size == 2)
    || (name == "current_limit" && address == 38 && size == 2)
    || (name == "velocity_limit" && address == 44 && size == 4)
    || (name == "max_position_limit" && address == 48 && size == 4)
    || (name == "min_position_limit" && address == 52 && size == 4)
    || (name == "shutdown" && address == 63 && size == 1)
    || (name == "velocity_i_gain" && address == 76 && size == 2)
    || (name == "velocity_p_gain" && address == 78 && size == 2)
    || (name == "position_d_gain" && address == 80 && size == 2)
    || (name == "position_i_gain" && address == 82 && size == 2)
    || (name == "position_p_gain" && address == 84 && size == 2)
    || (name == "goal_current" && address == 102 && size == 2)
    || (name == "profile_acceleration" && address == 108 && size == 4)
    || (name == "profile_velocity" && address == 112 && size == 4)
  }

  /** The number of an operating mode; a name that is none stands for position. */
  function ModeNumber(mode: string): nat {
    var modes := map["current" := 0, "velocity" := 1, "position" := 3, "extended_position" := 4,
                     "current_based_position" := 5, "pwm" := 16];
    if mode in modes then modes[mode] else 3
  }

  lemma DocumentedRow(name: string, address: nat, size: nat)
    requires Documented(name, address, size)
    ensures exists s :: s in WRITABLE_REGISTERS && s.param == name && s.address == address && s.size == size
  {
    var rows := WRITABLE_REGISTERS;
    var k := if address <= 31 then (if address == 10 then 0 else if address == 20 then 1 else 2)
             else if address <= 38 then (address - 32) / 2 + 3
             else if address <= 52 then (address - 44) / 4 + 7
             else if address == 63 then 10
             else if address <= 84 then (address - 76) / 2 + 11
             else if address == 102 then 16
             else (address - 108) / 4 + 17;
    assert rows[k].param == name && rows[k].address == address && rows[k].size == size;
    assert rows[k] in rows;
  }

  lemma ModeNumbers(mode: string)
    ensures OperatingModeValue(mode) == ModeNumber(mode)
  {
  }

  /**
   By name: after a successful configure whose writes were all accepted, the register that a parameter's
   name stands for holds the number supplied, and the mode register that of the mode's name.
   */
  lemma ParameterReachesRegister(script: Script, parse: Parser, b: BusState, w: World, specs: seq<JointSpec>, i: nat,
                                 name: string, address: nat, size: nat)
    requires Configure(script, parse, b, w, specs).0
    requires AllApplied(New(w, Configure(script, parse, b, w, specs).2))
    requires i < |specs| && Documented(name, address, size) && name in specs[i].parameters
    ensures specs[i].id in Configure(script, parse, b, w, specs).2.motors
    ensures var t := Configure(script, parse, b, w, specs).2.motors[specs[i].id].table;
            var value := parse(specs[i].parameters[name]);
            && value.Some? && address + size < SPAN && t[address..address + size] == Encode(value.value, size)
            && t[11] == ModeNumber(specs[i].operatingMode) && t[64] == 0
  {
    hide Configure, WRITABLE_REGISTERS, New, OperatingModeValue, ModeNumber, Documented;
    ConfigureProgramsMotors(script, parse, b, w, specs, i);
    DocumentedRow(name, address, size);
    TableRows();
    ModeNumbers(specs[i].operatingMode);
    var s :| s in WRITABLE_REGISTERS && s.param == name && s.address == address && s.size == size;
    StoredRow(parse, specs[i], s, w.motors[specs[i].id].table,
              Configure(script, parse, b, w, specs).2.motors[specs[i].id].table);
  }

  lemma StoredRow(parse: Parser, joint: JointSpec, s: RegisterSpec, t: Table, t': Table)
    requires TableRow(s) && s in WRITABLE_REGISTERS && s.param in joint.parameters
    requires Parses(parse, joint, WRITABLE_REGISTERS) && Configured(parse, joint, t, t')
    ensures parse(joint.parameters[s.param]).Some? && s.address + s.size < SPAN
    ensures t'[s.address..s.address + s.size] == Encode(parse(joint.parameters[s.param]).value, s.size)
  {
    hide WRITABLE_REGISTERS, Encode;
    var data := Encode(parse(joint.parameters[s.param]).value, s.size);
    forall a | s.address <= a < s.address + s.size ensures t'[a] == data[a - s.address] {
      assert Supplies(joint, s, a);
      assert RightByte(parse, joint, WRITABLE_REGISTERS, t, t', a);
    }
  }

  lemma {:induction false} ExecuteSpares(script: Script, w: World, orders: seq<Order>, id: Id)
    requires id in w.motors && forall o :: o in orders && o.WriteOrder? ==> o.id != id && o.id != BROADCAST
    ensures var w' := Execute(script, w, orders).1; id in w'.motors && w'.motors[id] == w.motors[id]
    decreases |orders|
  {
    if orders != [] {
      assert orders[0] in orders;
      var (ok, w1) := Issue(script, w, orders[0]);
      assert id in w1.motors && w1.motors[id] == w.motors[id];
      if ok { ExecuteSpares(script, w1, orders[1..], id); }
    }
  }

  /** No configure run, failing or not, changes a motor that is no joint's. */
  lemma ConfigureSparesOthers(script: Script, parse: Parser, b: BusState, w: World, specs: seq<JointSpec>, id: Id)
    requires id in w.motors && forall j :: j in specs ==> j.id != id
    ensures var w' := Configure(script, parse, b, w, specs).2;
            id in w'.motors && w'.motors[id] == w.motors[id]
  {
    hide SetupOrders, Configure, PingAll, Execute, ReadHoming, Follows, New, StagesOf, Extends, IsPing, IsRead;
    if !b.port {
      ClosedConfigure(script, parse, b, w, specs);
    } else {
      ConfigureStages(script, parse, b, w, specs);
      MiddleStage(script, parse, w, specs);
      var s := StagesOf(script, parse, w, specs);
      if s.pinged {
        forall o | o in SetupOrders(parse, specs) && o.WriteOrder? ensures o.id != id && o.id != BROADCAST {
          NoBroadcastOrders(script, parse, w, specs, o);
          SetupOrderIds(parse, specs, o);
        }
        ExecuteSpares(script, s.w1, SetupOrders(parse, specs), id);
      }
    }
  }

  lemma ClosedConfigure(script: Script, parse: Parser, b: BusState, w: World, specs: seq<JointSpec>)
    requires !b.port
    ensures Configure(script, parse, b, w, specs) == (false, b, w)
  {
  }

  lemma MiddleStage(script: Script, parse: Parser, w: World, specs: seq<JointSpec>)
    ensures var s := StagesOf(script, parse, w, specs);
            s.w2 == if s.pinged then Execute(script, s.w1, SetupOrders(parse, specs)).1 else s.w1
  {
    hide SetupOrders, PingAll, Execute, ReadHoming;
    PingAllFacts(script, w, specs);
    SetupOrdersSame(parse, PingAll(script, w, specs).1, specs);
  }
}
