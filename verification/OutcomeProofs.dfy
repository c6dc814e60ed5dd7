/**
 When a call reports success, and what a service for one motor or for all of them has sent by then.
 */
module OutcomeProofs {
  import opened Bytes
  import opened ControlTable
  import opened Wire
  import opened BusModel
  import opened DriverModel
  import opened ConfigureProofs
  import opened ProgramProofs
  import opened FeedbackProofs
  import opened DriverProofs

  // ---------- when configuring succeeds

  /** Every transaction from `from` up to `to` gets through both ways. */
  predicate AllAnswered(script: Script, from: nat, to: nat) {
    forall t :: from <= t < to ==> Answered(script, t)
  }

  /** How many of these registers the joint's description supplies. */
  function Supplied(joint: JointSpec, rows: seq<RegisterSpec>): nat {
    if rows == [] then 0
    else (if rows[0].param in joint.parameters then 1 else 0) + Supplied(joint, rows[1..])
  }

  /** The writes of a setup: torque and mode of every joint, and each parameter supplied. */
  function SetupWrites(joints: seq<JointSpec>): nat {
    if joints == [] then 0 else 2 + Supplied(joints[0], WRITABLE_REGISTERS) + SetupWrites(joints[1..])
  }

  predicate AllThere(w: World, joints: seq<JointSpec>) {
    forall i :: 0 <= i < |joints| ==> joints[i].id in w.motors
  }

  predicate AllParse(parse: Parser, joints: seq<JointSpec>) {
    forall i :: 0 <= i < |joints| ==> Parses(parse, joints[i], WRITABLE_REGISTERS)
  }

  lemma {:induction false} PingAllSucceeds(script: Script, w: World, joints: seq<JointSpec>)
    ensures var (ok, joints', w') := PingAll(script, w, joints);
            && (ok <==> AllThere(w, joints) && AllAnswered(script, w.now, w.now + |joints|))
            && (ok ==> w'.now == w.now + |joints|) && w'.motors == w.motors
    decreases |joints|
  {
    if joints != [] {
      var (ok, w1) := PingMotor(script, w, joints[0].id);
      PingAllSucceeds(script, w1, joints[1..]);
      assert AllThere(w, joints) <==> joints[0].id in w.motors && AllThere(w, joints[1..]) by {
        if joints[0].id in w.motors && AllThere(w, joints[1..]) {
          forall i | 0 <= i < |joints| ensures joints[i].id in w.motors {
            if i > 0 { assert joints[i] == joints[1..][i - 1]; }
          }
        }
        if AllThere(w, joints) {
          assert joints[0].id in w.motors;
          forall i | 0 <= i < |joints[1..]| ensures joints[1..][i].id in w.motors {
            assert joints[1..][i] == joints[i + 1];
          }
        }
      }
      AnsweredFirst(script, w.now, w.now + |joints|);
    }
  }

  lemma AnsweredFirst(script: Script, from: nat, to: nat)
    requires from < to
    ensures AllAnswered(script, from, to) <==> Answered(script, from) && AllAnswered(script, from + 1, to)
  {
  }

  lemma {:induction false} ExecuteSucceeds(script: Script, w: World, orders: seq<Order>)
    requires forall o :: o in orders && o.WriteOrder? ==>
               o.id in w.motors && o.id != BROADCAST && SupportedSize(o.size)
    ensures Execute(script, w, orders).0 <==>
            (forall o :: o in orders ==> o.WriteOrder?) && AllAnswered(script, w.now, w.now + |orders|)
    decreases |orders|
  {
    if orders != [] {
      var o := orders[0];
      assert o in orders && forall x :: x in orders <==> x == o || x in orders[1..];
      AnsweredFirst(script, w.now, w.now + |orders|);
      if o.WriteOrder? {
        WriteOnMotor(script, w, o.id, o.address, o.size, o.value, o.id);
        DeclinedWriteReportsSuccess(script, w, o.id, o.address, o.size, o.value);
        ExecuteSucceeds(script, Issue(script, w, o).1, orders[1..]);
      }
    }
  }

  lemma {:induction false} ParameterOrdersCount(parse: Parser, joint: JointSpec, rows: seq<RegisterSpec>)
    ensures |ParameterOrders(parse, joint, rows)| == Supplied(joint, rows)
    ensures (forall o :: o in ParameterOrders(parse, joint, rows) ==> o.WriteOrder?) <==> Parses(parse, joint, rows)
  {
    if rows != [] {
      ParameterOrdersCount(parse, joint, rows[1..]);
      var head, rest := ParameterOrder(parse, joint, rows[0]), ParameterOrders(parse, joint, rows[1..]);
      assert forall o :: o in head + rest <==> o in head || o in rest;
      assert forall s :: s in rows <==> s == rows[0] || s in rows[1..];
      assert rows[0].param in joint.parameters ==> head[0] in head;
    }
  }

  lemma {:induction false} TorqueOffCount(joints: seq<JointSpec>)
    ensures |TorqueOffOrders(joints)| == |joints| && forall o :: o in TorqueOffOrders(joints) ==> o.WriteOrder?
  {
    if joints != [] { TorqueOffCount(joints[1..]); }
  }

  lemma {:induction false} JointOrdersCount(parse: Parser, joints: seq<JointSpec>)
    ensures |joints| + |AllJointOrders(parse, joints)| == SetupWrites(joints)
    ensures (forall o :: o in AllJointOrders(parse, joints) ==> o.WriteOrder?) <==> AllParse(parse, joints)
  {
    if joints != [] {
      hide Parses, WRITABLE_REGISTERS;
      JointOrdersCount(parse, joints[1..]);
      ParameterOrdersCount(parse, joints[0], WRITABLE_REGISTERS);
      AllParseFirst(parse, joints);
      var head, rest := JointOrders(parse, joints[0]), AllJointOrders(parse, joints[1..]);
      var own := ParameterOrders(parse, joints[0], WRITABLE_REGISTERS);
      assert forall o :: o in head <==> o == ModeOrder(joints[0]) || o in own;
      assert forall o :: o in head + rest <==> o in head || o in rest;
    }
  }

  lemma AllParseFirst(parse: Parser, joints: seq<JointSpec>)
    requires joints != []
    ensures AllParse(parse, joints) <==>
            Parses(parse, joints[0], WRITABLE_REGISTERS) && AllParse(parse, joints[1..])
  {
    hide Parses, WRITABLE_REGISTERS;
    if Parses(parse, joints[0], WRITABLE_REGISTERS) && AllParse(parse, joints[1..]) {
      forall i | 0 <= i < |joints| ensures Parses(parse, joints[i], WRITABLE_REGISTERS) {
        if i > 0 { assert joints[i] == joints[1..][i - 1]; }
      }
    }
    if AllParse(parse, joints) {
      forall i | 0 <= i < |joints[1..]| ensures Parses(parse, joints[1..][i], WRITABLE_REGISTERS) {
        assert joints[1..][i] == joints[i + 1];
      }
    }
  }

  lemma SetupCount(parse: Parser, joints: seq<JointSpec>)
    ensures |SetupOrders(parse, joints)| == SetupWrites(joints)
    ensures (forall o :: o in SetupOrders(parse, joints) ==> o.WriteOrder?) <==> AllParse(parse, joints)
  {
    TorqueOffCount(joints);
    JointOrdersCount(parse, joints);
    assert forall o :: o in SetupOrders(parse, joints) <==>
      o in TorqueOffOrders(joints) || o in AllJointOrders(parse, joints);
  }

  /** The setup writes of joints that have all answered. */
  lemma SetupSucceeds(script: Script, parse: Parser, w: World, w1: World, specs: seq<JointSpec>)
    requires StagesOf(script, parse, w, specs).pinged && w1.motors == w.motors
    ensures Execute(script, w1, SetupOrders(parse, specs)).0 <==>
            AllParse(parse, specs) && AllAnswered(script, w1.now, w1.now + SetupWrites(specs))
  {
    hide SetupOrders, StagesOf, Execute, AllParse, SetupWrites;
    SetupCount(parse, specs);
    SetupOrdersFacts(parse, specs);
    forall o | o in SetupOrders(parse, specs) && o.WriteOrder?
      ensures o.id in w.motors && o.id != BROADCAST && SupportedSize(o.size)
    {
      NoBroadcastOrders(script, parse, w, specs, o);
    }
    ExecuteSucceeds(script, w1, SetupOrders(parse, specs));
  }

  /**
   Exactly when configuring succeeds, for every script and whatever the driver held before: the port is
   open, the ids are distinct, every joint's motor is on the line, every supplied parameter of the table
   is a number, and the pings and the writes that follow them are all answered. The offset reads after
   them need not be.
   */
  lemma ConfigureSucceeds(script: Script, parse: Parser, b: BusState, w: World, specs: seq<JointSpec>)
    ensures BusModel.Configure(script, parse, b, w, specs).0 <==>
            && b.port && DistinctIds(specs) && AllThere(w, specs) && AllParse(parse, specs)
            && AllAnswered(script, w.now, w.now + |specs| + SetupWrites(specs))
  {
    hide PingAll, Execute, ReadHoming, JoinAll, SetupOrders, DistinctIds, AllThere, AllParse, SetupWrites, AllAnswered;
    var (pinged, joints, w1) := PingAll(script, w, specs);
    PingAllSucceeds(script, w, specs);
    JoinAllDistinct([], joints);
    PingedIds(script, w, specs);
    SetupOrdersSame(parse, joints, specs);
    SameDistinct(joints, specs);
    if pinged {
      SetupSucceeds(script, parse, w, w1, specs);
    }
    AnsweredSplit(script, w.now, w.now + |specs|, w.now + |specs| + SetupWrites(specs));
  }

  lemma AnsweredSplit(script: Script, from: nat, middle: nat, to: nat)
    requires from <= middle <= to
    ensures AllAnswered(script, from, to) <==> AllAnswered(script, from, middle) && AllAnswered(script, middle, to)
  {
  }

  lemma SameDistinct(a: seq<JointSpec>, b: seq<JointSpec>)
    requires IdsOf(a) == IdsOf(b)
    ensures DistinctIds(a) <==> DistinctIds(b)
  {
    assert forall i :: 0 <= i < |a| ==> a[i].id == IdsOf(a)[i] && b[i].id == IdsOf(b)[i];
  }

  /** on_configure succeeds exactly when the system grants lock, port and baud rate and that holds. */
  lemma OnConfigureSucceeds(script: Script, parse: Parser, d: Component, os: OsReply)
    ensures OnConfigure(script, parse, d, os).0 <==>
            && os.fd.Some? && os.locks && os.opens && os.setsBaud
            && DistinctIds(d.specs) && AllThere(d.world, d.specs) && AllParse(parse, d.specs)
            && AllAnswered(script, d.world.now, d.world.now + |d.specs| + SetupWrites(d.specs))
  {
    hide BusModel.Configure, DistinctIds, AllThere, AllParse, SetupWrites, AllAnswered;
    ConfigureSucceeds(script, parse, Open(d.bus, os).1, d.world, d.specs);
  }

  /**
   What a configure that fails leaves of the driver's state: all but the list of joints, unless it failed
   for repeated ids at the very end.
   */
  lemma FailedConfigureKeeps(script: Script, parse: Parser, b: BusState, w: World, specs: seq<JointSpec>)
    requires !BusModel.Configure(script, parse, b, w, specs).0 && DistinctIds(specs)
    ensures var b' := BusModel.Configure(script, parse, b, w, specs).1;
            b' == b.(joints := b'.joints) && (!b.port ==> b' == b)
  {
    hide PingAll, Execute, ReadHoming, JoinAll, SetupOrders, DistinctIds;
    var joints := PingAll(script, w, specs).1;
    JoinAllDistinct([], joints);
    PingedIds(script, w, specs);
    SameDistinct(joints, specs);
  }

  // ---------- the model number it records

  predicate Digit(c: char) { '0' <= c <= '9' }

  predicate AllDigits(s: string) { forall k :: 0 <= k < |s| ==> Digit(s[k]) }

  /** The number a string of digits stands for. */
  function NumberOf(s: string): nat
    requires AllDigits(s)
  {
    if s == [] then 0
    else
      assert Digit(s[|s| - 1]);
      10 * NumberOf(s[..|s| - 1]) + (s[|s| - 1] - '0') as nat
  }

  lemma {:induction false} DecimalIsNumber(n: nat)
    ensures var s := Decimal(n);
            s != [] && AllDigits(s) && NumberOf(s) == n && (s[0] == '0' ==> n == 0)
  {
    if n >= 10 {
      DecimalIsNumber(n / 10);
      var digit := ['0' + (n % 10) as char];
      assert (Decimal(n / 10) + digit)[..|Decimal(n / 10)|] == Decimal(n / 10);
    } else {
      assert Decimal(n)[..0] == [];
    }
  }

  lemma {:induction false} PingAllRecords(script: Script, w: World, joints: seq<JointSpec>, i: nat)
    requires PingAll(script, w, joints).0 && i < |joints|
    ensures var joints' := PingAll(script, w, joints).1;
            && |joints'| == |joints| && joints[i].id in w.motors
            && joints'[i] == Detected(joints[i], w.motors[joints[i].id].model)
    decreases |joints|
  {
    PingAllFacts(script, w, joints);
    if i > 0 { PingAllRecords(script, PingMotor(script, w, joints[0].id).1, joints[1..], i - 1); }
  }

  /** A successful configure adds to each joint's parameters the decimal number of its motor's model. */
  lemma ConfigureRecordsModels(script: Script, parse: Parser, b: BusState, w: World, specs: seq<JointSpec>, i: nat)
    requires BusModel.Configure(script, parse, b, w, specs).0 && i < |specs|
    ensures var joints, key := BusModel.Configure(script, parse, b, w, specs).1.joints, "_detected_model_number";
            && |joints| == |specs| && specs[i].id in w.motors && key in joints[i].parameters
            && joints[i] == specs[i].(parameters := specs[i].parameters[key := joints[i].parameters[key]])
            && var number := joints[i].parameters[key];
               && number != [] && AllDigits(number)
               && NumberOf(number) == w.motors[specs[i].id].model && (number[0] == '0' ==> NumberOf(number) == 0)
  {
    hide PingAll, Execute, ReadHoming, JoinAll, SetupOrders, Decimal, NumberOf;
    PingAllRecords(script, w, specs, i);
    DecimalIsNumber(w.motors[specs[i].id].model);
  }

  // ---------- when initialising succeeds

  /** A description with a numeric device_id. */
  predicate Describes(stoi: Parser, info: JointInfo) {
    "device_id" in info.parameters && stoi(info.parameters["device_id"]).Some?
  }

  /** What on_init reads out of a description. */
  predicate AsDescribed(stoi: Parser, info: JointInfo, spec: JointSpec) {
    && "device_id" in info.parameters && stoi(info.parameters["device_id"]).Some?
    && spec.name == info.name && spec.parameters == info.parameters
    && spec.id == stoi(info.parameters["device_id"]).value % 256
    && spec.operatingMode ==
       (if "operating_mode" in info.parameters then info.parameters["operating_mode"] else "position")
    && (spec.commandable <==> "position" in info.commandInterfaces)
  }

  lemma SpecAsDescribed(stoi: Parser, info: JointInfo)
    ensures var spec := SpecOf(stoi, info);
            && (spec.Built? <==> Describes(stoi, info)) && (spec.MissingId? <==> "device_id" !in info.parameters)
            && (spec.Built? ==> AsDescribed(stoi, info, spec.value))
  {
  }

  /**
   on_init builds the specs exactly when every joint has a numeric device_id, each from its own
   description; else the first joint without one decides between the error and the exception.
   */
  lemma {:induction false} InitSucceeds(stoi: Parser, infos: seq<JointInfo>)
    ensures var specs := SpecsOf(stoi, infos);
            && (specs.Built? <==> forall i :: 0 <= i < |infos| ==> Describes(stoi, infos[i]))
            && (specs.Built? ==>
                  && |specs.value| == |infos|
                  && forall i :: 0 <= i < |infos| ==> AsDescribed(stoi, infos[i], specs.value[i]))
            && (!specs.Built? ==>
                  exists i :: 0 <= i < |infos| && !Describes(stoi, infos[i])
                    && (forall k :: 0 <= k < i ==> Describes(stoi, infos[k]))
                    && (specs.MissingId? <==> "device_id" !in infos[i].parameters))
    decreases |infos|
  {
    if infos != [] {
      hide SpecOf, AsDescribed, Describes;
      SpecAsDescribed(stoi, infos[0]);
      InitSucceeds(stoi, infos[1..]);
      var rest := SpecsOf(stoi, infos[1..]);
      if SpecOf(stoi, infos[0]).Built? && !rest.Built? {
        var i :| 0 <= i < |infos[1..]| && !Describes(stoi, infos[1..][i])
                 && (forall k :: 0 <= k < i ==> Describes(stoi, infos[1..][k]))
                 && (rest.MissingId? <==> "device_id" !in infos[1..][i].parameters);
        forall k | 0 <= k < i + 1 ensures Describes(stoi, infos[k]) {
          if k > 0 { assert infos[k] == infos[1..][k - 1]; }
        }
        assert infos[i + 1] == infos[1..][i];
      } else if SpecOf(stoi, infos[0]).Built? {
        forall k | 0 <= k < |infos| ensures Describes(stoi, infos[k]) {
          if k > 0 { assert infos[k] == infos[1..][k - 1]; }
        }
      }
    }
  }

  // ---------- what a service sends

  /**
   The transactions of a call that has `n` to make and stops at the first that is not acknowledged: it
   reports success exactly when all were made and acknowledged, and otherwise the last one failed.
   */
  predicate StopsAtFailure(sent: seq<Sent>, n: nat, ok: bool) {
    && |sent| <= n
    && (forall k :: 0 <= k < |sent| - 1 ==> sent[k].acked)
    && (ok ==> |sent| == n && forall k :: 0 <= k < n ==> sent[k].acked)
    && (!ok ==> sent != [] && !sent[|sent| - 1].acked)
  }

  /** For how many motors a service request is: id 0 stands for every joint. */
  function Addressees(joints: seq<JointSpec>, id: Id): nat { if id == 0 then |joints| else 1 }

  /** The k-th of them, in the order of the joints. */
  function Addressee(joints: seq<JointSpec>, id: Id, k: nat): Id
    requires k < Addressees(joints, id)
  {
    if id == 0 then joints[k].id else id
  }

  lemma Resolved(joints: seq<JointSpec>, id: Id)
    ensures var ids := ResolveIds(joints, id);
            && |ids| == Addressees(joints, id)
            && forall k :: 0 <= k < |ids| ==> ids[k] == Addressee(joints, id, k)
  {
  }

  lemma StopsAppend(a: seq<Sent>, b: seq<Sent>, n: nat, ok: bool)
    requires StopsAtFailure(a, |a|, true) && StopsAtFailure(b, n, ok)
    ensures StopsAtFailure(a + b, |a| + n, ok)
  {
  }

  lemma StopsEarly(a: seq<Sent>, n: nat, more: nat)
    requires StopsAtFailure(a, n, false)
    ensures StopsAtFailure(a, n + more, false)
  {
  }

  /** One register write of a supported size is one transaction. */
  lemma WriteTrace(script: Script, w: World, id: Id, address: Address, size: nat, value: int)
    requires SupportedSize(size)
    ensures var (ok, w1) := WriteRegister(script, w, id, address, size, value);
            && Extends(w, w1) && |New(w, w1)| == 1 && StopsAtFailure(New(w, w1), 1, ok)
            && New(w, w1)[0].packet == Packet.Write(id, address, Encode(value, size))
  {
  }

  lemma ReadTrace(script: Script, w: World, id: Id, address: Address, size: nat)
    requires SupportedSize(size)
    ensures var (ok, value, w1) := ReadRegister(script, w, id, address, size);
            && Extends(w, w1) && |New(w, w1)| == 1 && StopsAtFailure(New(w, w1), 1, ok)
            && New(w, w1)[0].packet == Packet.Read(id, address, size)
  {
    hide Present, Signed;
  }

  lemma RebootTrace(script: Script, w: World, id: Id)
    ensures var (ok, w1) := RebootMotor(script, w, id);
            && Extends(w, w1) && |New(w, w1)| == 1 && StopsAtFailure(New(w, w1), 1, ok)
            && New(w, w1)[0].packet == Reboot(id)
  {
  }

  lemma {:induction false} WriteEachTrace(script: Script, w: World, ids: seq<Id>, address: Address,
                                          size: nat, value: int)
    requires SupportedSize(size)
    ensures var (ok, w') := WriteEach(script, w, ids, address, size, value);
            && Extends(w, w') && StopsAtFailure(New(w, w'), |ids|, ok)
            && forall k :: 0 <= k < |New(w, w')| ==>
                 New(w, w')[k].packet == Packet.Write(ids[k], address, Encode(value, size))
    decreases |ids|
  {
    hide WriteRegister, Encode, StopsAtFailure;
    NothingToSend(w);
    if ids != [] {
      var (ok, w1) := WriteRegister(script, w, ids[0], address, size, value);
      WriteTrace(script, w, ids[0], address, size, value);
      if ok {
        WriteEachTrace(script, w1, ids[1..], address, size, value);
        var (rest, w') := WriteEach(script, w1, ids[1..], address, size, value);
        ExtendsTwice(w, w1, w');
        StopsAppend(New(w, w1), New(w1, w'), |ids| - 1, rest);
      } else {
        StopsEarly(New(w, w1), 1, |ids| - 1);
      }
    }
  }

  lemma NothingToSend(w: World)
    ensures Extends(w, w) && New(w, w) == [] && StopsAtFailure([], 0, true)
  {
  }

  lemma {:induction false} TorqueEachIsWriteEach(script: Script, w: World, ids: seq<Id>, on: bool)
    ensures TorqueEach(script, w, ids, on) == WriteEach(script, w, ids, 64, 1, if on then 1 else 0)
    decreases |ids|
  {
    hide WriteRegister;
    if ids != [] {
      TorqueEachIsWriteEach(script, SetTorque(script, w, ids[0], on).1, ids[1..], on);
    }
  }

  lemma {:induction false} RebootEachTrace(script: Script, w: World, ids: seq<Id>)
    ensures var (ok, w') := RebootEach(script, w, ids);
            && Extends(w, w') && StopsAtFailure(New(w, w'), |ids|, ok)
            && forall k :: 0 <= k < |New(w, w')| ==> New(w, w')[k].packet == Reboot(ids[k])
    decreases |ids|
  {
    hide RebootMotor, StopsAtFailure;
    NothingToSend(w);
    if ids != [] {
      var (ok, w1) := RebootMotor(script, w, ids[0]);
      RebootTrace(script, w, ids[0]);
      if ok {
        RebootEachTrace(script, w1, ids[1..]);
        var (rest, w') := RebootEach(script, w1, ids[1..]);
        ExtendsTwice(w, w1, w');
        StopsAppend(New(w, w1), New(w1, w'), |ids| - 1, rest);
      } else {
        StopsEarly(New(w, w1), 1, |ids| - 1);
      }
    }
  }

  /** The three packets of a set_zero: the offset cleared, the position read, the offset written. */
  predicate ZeroPacket(p: Packet, id: Id, step: int) {
    if step == 0 then p == Packet.Write(id, 20, [0, 0, 0, 0])
    else if step == 1 then p == Packet.Read(id, 132, 4)
    else p.Write? && p.id == id && p.address == 20 && |p.data| == 4
  }

  lemma EncodeClear()
    ensures Encode(0, 4) == [0, 0, 0, 0]
  {
  }

  lemma SetZeroTrace(script: Script, b: BusState, w: World, id: Id)
    requires |b.homing| == |b.joints|
    ensures var (ok, b', w') := SetZero(script, b, w, id);
            && Extends(w, w') && StopsAtFailure(New(w, w'), 3, ok)
            && forall k :: 0 <= k < |New(w, w')| ==> ZeroPacket(New(w, w')[k].packet, id, k)
  {
    hide WriteRegister, ReadRegister, StopsAtFailure, Encode, TicksToAngle;
    EncodeClear();
    var (cleared, w1) := WriteRegister(script, w, id, HOMING_OFFSET, 4, 0);
    WriteTrace(script, w, id, HOMING_OFFSET, 4, 0);
    if !cleared {
      StopsEarly(New(w, w1), 1, 2);
    } else {
      var (got, present, w2) := ReadRegister(script, w1, id, PRESENT_POSITION, 4);
      ReadTrace(script, w1, id, PRESENT_POSITION, 4);
      ExtendsTwice(w, w1, w2);
      StopsAppend(New(w, w1), New(w1, w2), 1, got);
      if !got {
        StopsEarly(New(w, w2), 2, 1);
      } else {
        var (moved, w3) := WriteRegister(script, w2, id, HOMING_OFFSET, 4, -present);
        WriteTrace(script, w2, id, HOMING_OFFSET, 4, -present);
        ExtendsTwice(w, w2, w3);
        StopsAppend(New(w, w2), New(w2, w3), 1, moved);
      }
    }
  }

  lemma {:induction false} ZeroEachTrace(script: Script, b: BusState, w: World, ids: seq<Id>)
    requires |b.homing| == |b.joints|
    ensures var (ok, b', w') := ZeroEach(script, b, w, ids);
            && Extends(w, w') && StopsAtFailure(New(w, w'), 3 * |ids|, ok) && ZeroPackets(New(w, w'), ids)
    decreases |ids|
  {
    hide SetZero, StopsAtFailure, ZeroPackets, ZeroPacket, New;
    NothingToSend(w);
    NoZeroPackets();
    if ids != [] {
      var (ok, b1, w1) := SetZero(script, b, w, ids[0]);
      SetZeroTrace(script, b, w, ids[0]);
      ThreeAtMost(New(w, w1), ok);
      if ok {
        ZeroEachTrace(script, b1, w1, ids[1..]);
        var (rest, b', w') := ZeroEach(script, b1, w1, ids[1..]);
        ExtendsTwice(w, w1, w');
        StopsAppend(New(w, w1), New(w1, w'), 3 * (|ids| - 1), rest);
        ThreeAndTheRest(New(w, w1), New(w1, w'), ids);
      } else {
        StopsEarly(New(w, w1), 3, 3 * (|ids| - 1));
        FirstThree(New(w, w1), ids);
      }
    }
  }

  lemma NoZeroPackets()
    ensures ZeroPackets([], [])
  {
  }

  predicate ZeroPackets(sent: seq<Sent>, ids: seq<Id>) {
    |sent| <= 3 * |ids| && forall k :: 0 <= k < |sent| ==> ZeroPacket(sent[k].packet, ids[k / 3], k % 3)
  }

  lemma FirstThree(a: seq<Sent>, ids: seq<Id>)
    requires |a| <= 3 && ids != [] && forall k :: 0 <= k < |a| ==> ZeroPacket(a[k].packet, ids[0], k)
    ensures ZeroPackets(a, ids)
  {
    hide ZeroPacket;
    forall k | 0 <= k < |a| ensures ZeroPacket(a[k].packet, ids[k / 3], k % 3) {
      assert k / 3 == 0 && k % 3 == k;
    }
  }

  lemma ThreeAndTheRest(a: seq<Sent>, b: seq<Sent>, ids: seq<Id>)
    requires |a| == 3 && ids != [] && forall k :: 0 <= k < 3 ==> ZeroPacket(a[k].packet, ids[0], k)
    requires ZeroPackets(b, ids[1..])
    ensures ZeroPackets(a + b, ids)
  {
    hide ZeroPacket;
    forall k | 0 <= k < |a + b| ensures ZeroPacket((a + b)[k].packet, ids[k / 3], k % 3) {
      if k < 3 {
        assert (a + b)[k] == a[k] && k / 3 == 0 && k % 3 == k;
      } else {
        assert (a + b)[k] == b[k - 3] && (k - 3) / 3 == k / 3 - 1 && (k - 3) % 3 == k % 3;
        assert ids[1..][(k - 3) / 3] == ids[k / 3];
      }
    }
  }

  lemma ThreeAtMost(sent: seq<Sent>, ok: bool)
    requires StopsAtFailure(sent, 3, ok)
    ensures |sent| <= 3 && (ok ==> |sent| == 3 && StopsAtFailure(sent, |sent|, true))
  {
  }

  /** set_torque: one torque byte to each motor addressed, in order. */
  lemma TorqueServiceTrace(script: Script, d: Component, id: Id, on: bool)
    ensures var joints := d.bus.joints;
            var (ok, w') := TorqueEach(script, d.world, ResolveIds(joints, id), on);
            var sent := New(d.world, w');
            && Extends(d.world, w') && StopsAtFailure(sent, Addressees(joints, id), ok)
            && forall k :: 0 <= k < |sent| ==>
                 sent[k].packet == Packet.Write(Addressee(joints, id, k), 64, [if on then 1 else 0])
  {
    hide ResolveIds, TorqueEach, Encode, New;
    TorqueBytes();
    Resolved(d.bus.joints, id);
    TorqueEachIsWriteEach(script, d.world, ResolveIds(d.bus.joints, id), on);
    WriteEachTrace(script, d.world, ResolveIds(d.bus.joints, id), 64, 1, if on then 1 else 0);
  }

  lemma TorqueBytes()
    ensures Encode(0, 1) == [0] && Encode(1, 1) == [1]
  {
  }

  /** reboot: one reboot packet to each. */
  lemma RebootServiceTrace(script: Script, d: Component, id: Id)
    ensures var joints := d.bus.joints;
            var (ok, w') := RebootEach(script, d.world, ResolveIds(joints, id));
            var sent := New(d.world, w');
            && Extends(d.world, w') && StopsAtFailure(sent, Addressees(joints, id), ok)
            && forall k :: 0 <= k < |sent| ==> sent[k].packet == Reboot(Addressee(joints, id, k))
  {
    hide ResolveIds, RebootEach, New;
    Resolved(d.bus.joints, id);
    RebootEachTrace(script, d.world, ResolveIds(d.bus.joints, id));
  }

  /** set_zero: three transactions with each. */
  lemma ZeroServiceTrace(script: Script, d: Component, id: Id)
    requires Up(d)
    ensures var joints := d.bus.joints;
            var (ok, bus, w') := ZeroEach(script, d.bus, d.world, ResolveIds(joints, id));
            var sent := New(d.world, w');
            && Extends(d.world, w') && StopsAtFailure(sent, 3 * Addressees(joints, id), ok)
            && forall k :: 0 <= k < |sent| ==> ZeroPacket(sent[k].packet, Addressee(joints, id, k / 3), k % 3)
  {
    hide ResolveIds, ZeroEach, StopsAtFailure, New, ZeroPacket;
    Resolved(d.bus.joints, id);
    ZeroEachTrace(script, d.bus, d.world, ResolveIds(d.bus.joints, id));
  }

  /** write_register: one write to each; an unsupported size sends nothing and fails if there is anyone to send to. */
  lemma WriteServiceTrace(script: Script, d: Component, id: Id, address: Address, size: nat, value: int)
    ensures var joints := d.bus.joints;
            var (ok, w') := WriteEach(script, d.world, ResolveIds(joints, id), address, size, value);
            var sent := New(d.world, w');
            && Extends(d.world, w')
            && (!SupportedSize(size) ==> sent == [] && w' == d.world && (ok <==> Addressees(joints, id) == 0))
            && (SupportedSize(size) ==>
                  && StopsAtFailure(sent, Addressees(joints, id), ok)
                  && forall k :: 0 <= k < |sent| ==>
                       sent[k].packet == Packet.Write(Addressee(joints, id, k), address, Encode(value, size)))
  {
    hide ResolveIds, Encode;
    Resolved(d.bus.joints, id);
    if SupportedSize(size) {
      WriteEachTrace(script, d.world, ResolveIds(d.bus.joints, id), address, size, value);
    } else {
      NothingToSend(d.world);
    }
  }
}
