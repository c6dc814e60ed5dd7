/**
 What each operation of the bus driver does to its own state and to the world behind the port, as
 functions. The methods of class Bus.DynamixelBus are proved equal to these.
 */
module BusModel {
  import opened Wrappers
  import opened Bytes
  import opened Units
  import opened ControlTable
  import opened Wire

  datatype JointSpec = JointSpec(name: string, id: Id, operatingMode: string, commandable: bool,
                                 parameters: map<string, string>)

  datatype JointFeedback = JointFeedback(position: real, velocity: real, effort: real,
                                         temperature: real, voltage: real, pwm: real, moving: real,
                                         error: real, homingOffset: real, valid: bool)

  /** A command; NaN means that nobody has commanded the joint. */
  type Command = Reading

  /** String to 64-bit integer; None stands for the exceptions of std::stoll. */
  type Parser = string -> Option<int>

  datatype BusState = BusState(lockFd: Option<nat>, port: bool, joints: seq<JointSpec>,
                               homing: seq<real>, errors: seq<real>, cursor: nat,
                               readGroup: Option<seq<Id>>, writeGroup: Option<seq<Entry>>)

  const BLANK := JointFeedback(0.0, 0.0, 0.0, 0.0, 0.0, 0.0, 0.0, 0.0, 0.0, false)
  const CLOSED := BusState(None, false, [], [], [], 0, None, None)

  function IdsOf(joints: seq<JointSpec>): (r: seq<Id>)
    ensures |r| == |joints| && forall i :: 0 <= i < |r| ==> r[i] == joints[i].id
  {
    seq(|joints|, i requires 0 <= i < |joints| => joints[i].id)
  }

  /** After a successful configure and until close: the read group is the joints' ids in order. */
  predicate Ready(b: BusState) {
    && b.port && b.readGroup == Some(IdsOf(b.joints)) && b.writeGroup.Some?
    && |b.homing| == |b.errors| == |b.joints|
    && (b.joints != [] ==> b.cursor < |b.joints|)
  }

  // ---------- opening and closing the port

  datatype OsReply = OsReply(fd: Option<nat>, locks: bool, opens: bool, setsBaud: bool)

  function Open(b: BusState, os: OsReply): (bool, BusState) {
    if os.fd.None? || !os.locks then (false, b.(lockFd := None))
    else if !os.opens || !os.setsBaud then (false, b.(lockFd := None, port := false))
    else (true, b.(lockFd := os.fd, port := true))
  }

  function Close(b: BusState): BusState {
    b.(lockFd := None, port := false, readGroup := None, writeGroup := None)
  }

  // ---------- single registers

  function ReadRegister(script: Script, w: World, id: Id, address: Address, size: nat): (bool, int, World) {
    if !SupportedSize(size) then (false, 0, w)
    else
      var (ok, data, w') := ReadBytes(script, w, id, address, size);
      (ok, Signed(data), w')
  }

  function WriteRegister(script: Script, w: World, id: Id, address: Address, size: nat, value: int): (bool, World) {
    if SupportedSize(size) then WriteBytes(script, w, id, address, Encode(value, size)) else (false, w)
  }

  function SetTorque(script: Script, w: World, id: Id, on: bool): (bool, World) {
    WriteRegister(script, w, id, TORQUE_ENABLE, 1, if on then 1 else 0)
  }

  // ---------- configure

  datatype Order = WriteOrder(id: Id, address: Address, size: nat, value: int) | BadParameter

  function Issue(script: Script, w: World, o: Order): (bool, World) {
    match o
    case WriteOrder(id, address, size, value) => WriteRegister(script, w, id, address, size, value)
    case BadParameter => (false, w)
  }

  /** Issue orders until one fails. */
  function Execute(script: Script, w: World, orders: seq<Order>): (bool, World)
    decreases |orders|
  {
    if orders == [] then (true, w)
    else
      var (ok, w') := Issue(script, w, orders[0]);
      if ok then Execute(script, w', orders[1..]) else (false, w')
  }

  function TorqueOffOrders(joints: seq<JointSpec>): seq<Order> {
    if joints == [] then []
    else [WriteOrder(joints[0].id, TORQUE_ENABLE, 1, 0)] + TorqueOffOrders(joints[1..])
  }

  function ParameterOrder(parse: Parser, joint: JointSpec, spec: RegisterSpec): seq<Order> {
    if spec.param !in joint.parameters then []
    else
      match parse(joint.parameters[spec.param])
      case None => [BadParameter]
      case Some(v) => [WriteOrder(joint.id, spec.address, spec.size, v)]
  }

  function ParameterOrders(parse: Parser, joint: JointSpec, specs: seq<RegisterSpec>): seq<Order> {
    if specs == [] then []
    else ParameterOrder(parse, joint, specs[0]) + ParameterOrders(parse, joint, specs[1..])
  }

  function ModeOrder(joint: JointSpec): Order {
    WriteOrder(joint.id, OPERATING_MODE, 1, OperatingModeValue(joint.operatingMode))
  }

  function JointOrders(parse: Parser, joint: JointSpec): seq<Order> {
    [ModeOrder(joint)] + ParameterOrders(parse, joint, WRITABLE_REGISTERS)
  }

  function AllJointOrders(parse: Parser, joints: seq<JointSpec>): seq<Order> {
    if joints == [] then [] else JointOrders(parse, joints[0]) + AllJointOrders(parse, joints[1..])
  }

  /** Torque goes off on every joint before any joint's mode or registers are touched. */
  function SetupOrders(parse: Parser, joints: seq<JointSpec>): seq<Order> {
    TorqueOffOrders(joints) + AllJointOrders(parse, joints)
  }

  const DETECTED := "_detected_model_number"

  function Decimal(n: nat): string {
    var digit := ['0' + (n % 10) as char];
    if n < 10 then digit else Decimal(n / 10) + digit
  }

  function Detected(joint: JointSpec, model: nat): JointSpec {
    joint.(parameters := joint.parameters[DETECTED := Decimal(model)])
  }

  function PingAll(script: Script, w: World, joints: seq<JointSpec>): (bool, seq<JointSpec>, World)
    decreases |joints|
  {
    if joints == [] then (true, [], w)
    else
      var (ok, w') := PingMotor(script, w, joints[0].id);
      if !ok then (false, joints, w')
      else
        var (rest, joints', w'') := PingAll(script, w', joints[1..]);
        (rest, [Detected(joints[0], w.motors[joints[0].id].model)] + joints', w'')
  }

  function TicksToAngle(ticks: int): real { ticks as real * (2.0 * M_PI / TICKS_PER_REV) }

  /** A homing offset that cannot be read is taken as zero. */
  function ReadHoming(script: Script, w: World, joints: seq<JointSpec>): (r: (seq<real>, World))
    ensures |r.0| == |joints|
    decreases |joints|
  {
    if joints == [] then ([], w)
    else
      var (ok, raw, w') := ReadRegister(script, w, joints[0].id, HOMING_OFFSET, 4);
      var (rest, w'') := ReadHoming(script, w', joints[1..]);
      ([if ok then TicksToAngle(raw) else 0.0] + rest, w'')
  }

  /** The sync group takes an id once; the first repeated id ends the setup. */
  function JoinAll(group: seq<Id>, joints: seq<JointSpec>): (bool, seq<Id>)
    decreases |joints|
  {
    if joints == [] then (true, group)
    else if joints[0].id in group then (false, group)
    else JoinAll(group + [joints[0].id], joints[1..])
  }

  predicate DistinctIds(joints: seq<JointSpec>) {
    forall i, j :: 0 <= i < j < |joints| ==> joints[i].id != joints[j].id
  }

  /** The read group is complete exactly when the ids are distinct. */
  lemma {:induction false} JoinAllDistinct(group: seq<Id>, joints: seq<JointSpec>)
    ensures JoinAll(group, joints).0 <==> DistinctIds(joints) && forall j :: j in joints ==> j.id !in group
    decreases |joints|
  {
    hide DistinctIds;
    NoneDistinct();
    if joints != [] {
      var first, rest := joints[0], joints[1..];
      JoinAllDistinct(group + [first.id], rest);
      DistinctFirst(joints);
      assert forall j :: j in joints <==> j == first || j in rest;
      assert forall j :: j in rest ==> (j.id !in group + [first.id] <==> j.id !in group && j.id != first.id);
    }
  }

  lemma NoneDistinct()
    ensures DistinctIds([])
  {
  }

  /** A complete read group holds the joints' ids in order. */
  lemma {:induction false} JoinAllIds(group: seq<Id>, joints: seq<JointSpec>)
    requires JoinAll(group, joints).0
    ensures JoinAll(group, joints).1 == group + IdsOf(joints)
    decreases |joints|
  {
    if joints != [] {
      JoinAllIds(group + [joints[0].id], joints[1..]);
      assert IdsOf(joints) == [joints[0].id] + IdsOf(joints[1..]);
    }
  }

  lemma JoinedIds(joints: seq<JointSpec>)
    requires JoinAll([], joints).0
    ensures JoinAll([], joints).1 == IdsOf(joints)
  {
    JoinAllIds([], joints);
    assert [] + IdsOf(joints) == IdsOf(joints);
  }

  lemma DistinctFirst(joints: seq<JointSpec>)
    requires joints != []
    ensures DistinctIds(joints) <==>
            DistinctIds(joints[1..]) && forall j :: j in joints[1..] ==> j.id != joints[0].id
  {
    var first, rest := joints[0], joints[1..];
    if DistinctIds(rest) && forall j :: j in rest ==> j.id != first.id {
      forall i, k | 0 <= i < k < |joints| ensures joints[i].id != joints[k].id {
        assert joints[k] == rest[k - 1];
        if i > 0 { assert joints[i] == rest[i - 1]; }
      }
    }
  }

  function Zeros(n: nat): (r: seq<real>)
    ensures |r| == n && forall i :: 0 <= i < n ==> r[i] == 0.0
  {
    seq(n, i => 0.0)
  }

  function Configure(script: Script, parse: Parser, b: BusState, w: World, specs: seq<JointSpec>):
    (bool, BusState, World)
  {
    if !b.port then (false, b, w)
    else
      var (pinged, joints, w1) := PingAll(script, w, specs);
      if !pinged then (false, b.(joints := joints), w1)
      else
        var (done, w2) := Execute(script, w1, SetupOrders(parse, joints));
        if !done then (false, b.(joints := joints), w2)
        else
          var (homing, w3) := ReadHoming(script, w2, joints);
          var (joined, group) := JoinAll([], joints);
          (joined,
           b.(joints := joints, homing := homing, errors := Zeros(|joints|), cursor := 0,
              readGroup := Some(group), writeGroup := Some([])),
           w3)
  }

  // ---------- the cyclic loop

  predicate Available(windows: map<Id, Window>, id: Id, address: nat, size: nat) {
    id in windows && SYNC_READ_START <= address && address + size <= SYNC_READ_START + SYNC_READ_LENGTH
  }

  function Field(window: Window, address: nat, size: nat): seq<Byte>
    requires SYNC_READ_START <= address && address + size <= SYNC_READ_START + SYNC_READ_LENGTH
  {
    window[address - SYNC_READ_START..address - SYNC_READ_START + size]
  }

  function FeedbackOf(windows: map<Id, Window>, id: Id, homing: real, error: real): JointFeedback {
    if id !in windows then BLANK
    else
      var win := windows[id];
      JointFeedback(
        TickToRad(Signed(Field(win, PRESENT_POSITION, 4))),
        RawToRadPerS(Signed(Field(win, PRESENT_VELOCITY, 4))),
        0.0,
        Unsigned(Field(win, PRESENT_TEMPERATURE, 1)) as real,
        Unsigned(Field(win, PRESENT_INPUT_VOLTAGE, 2)) as real * 0.1,
        Signed(Field(win, PRESENT_PWM, 2)) as real,
        Unsigned(Field(win, MOVING, 1)) as real,
        error, homing, true)
  }

  function Feedbacks(windows: map<Id, Window>, b: BusState): (r: seq<JointFeedback>)
    requires |b.homing| == |b.errors| == |b.joints|
    ensures |r| == |b.joints|
    ensures forall i :: 0 <= i < |r| ==>
                          r[i] == FeedbackOf(windows, b.joints[i].id, b.homing[i], b.errors[i])
  {
    seq(|b.joints|, i requires 0 <= i < |b.joints| =>
      FeedbackOf(windows, b.joints[i].id, b.homing[i], b.errors[i]))
  }

  function Blanks(n: nat): seq<JointFeedback> { seq(n, i => BLANK) }

  /** One joint's error status is polled a call, in turn. */
  function PollError(script: Script, b: BusState, w: World): (BusState, World)
    requires |b.errors| == |b.joints|
  {
    if b.joints == [] then (b, w)
    else
      var i := b.cursor % |b.joints|;
      var (ok, raw, w') := ReadRegister(script, w, b.joints[i].id, HARDWARE_ERROR_STATUS, 1);
      (b.(errors := if ok then b.errors[i := raw as real] else b.errors,
          cursor := (b.cursor + 1) % |b.joints|), w')
  }

  function ReadAll(script: Script, b: BusState, w: World):
    (r: (bool, seq<JointFeedback>, BusState, World))
    requires Ready(b)
    ensures Ready(r.2) && r.2.joints == b.joints && |r.1| == |b.joints|
  {
    var (ok, windows, w1) := SyncReadWindows(script, w, b.readGroup.value);
    if !ok then (false, Blanks(|b.joints|), b, w1)
    else
      var (b', w2) := PollError(script, b, w1);
      (true, Feedbacks(windows, b), b', w2)
  }

  predicate HasEntry(group: seq<Entry>, id: Id) {
    exists e :: e in group && e.id == id
  }

  predicate WellSized(group: seq<Entry>) {
    forall e :: e in group ==> |e.data| == GOAL_POSITION_LENGTH
  }

  /** The sync group keeps the first entry of an id and rejects another. */
  function AddGoal(group: seq<Entry>, joint: JointSpec, command: Command): (r: seq<Entry>)
    ensures WellSized(group) ==> WellSized(r)
  {
    if !joint.commandable || command.NaN? || HasEntry(group, joint.id) then group
    else group + [Entry(joint.id, GoalBytes(RadToTick(command.value)))]
  }

  function Goals(group: seq<Entry>, joints: seq<JointSpec>, commands: seq<Command>): (r: seq<Entry>)
    ensures WellSized(group) ==> WellSized(r)
    decreases |joints|
  {
    if joints == [] || commands == [] then group
    else Goals(AddGoal(group, joints[0], commands[0]), joints[1..], commands[1..])
  }

  function WritePositions(script: Script, b: BusState, w: World, commands: seq<Command>): (r: (bool, BusState, World))
    requires Ready(b)
    ensures Ready(r.1) && r.1.joints == b.joints
  {
    var entries := Goals([], b.joints, commands);
    var (ok, w') := SyncWriteGoals(script, w, entries);
    (ok, b.(writeGroup := Some(entries)), w')
  }

  // ---------- services

  function Cached(joints: seq<JointSpec>, homing: seq<real>, id: Id, offset: real): (r: seq<real>)
    requires |homing| == |joints|
    ensures |r| == |joints|
    ensures forall i :: 0 <= i < |r| ==> r[i] == if joints[i].id == id then offset else homing[i]
  {
    seq(|joints|, i requires 0 <= i < |joints| => if joints[i].id == id then offset else homing[i])
  }

  function SetZero(script: Script, b: BusState, w: World, id: Id): (r: (bool, BusState, World))
    requires |b.homing| == |b.joints|
    ensures |r.1.homing| == |b.homing| && r.1 == b.(homing := r.1.homing)
  {
    var (cleared, w1) := WriteRegister(script, w, id, HOMING_OFFSET, 4, 0);
    if !cleared then (false, b, w1)
    else
      var (got, present, w2) := ReadRegister(script, w1, id, PRESENT_POSITION, 4);
      if !got then (false, b, w2)
      else
        var (moved, w3) := WriteRegister(script, w2, id, HOMING_OFFSET, 4, -present);
        (moved, if moved then b.(homing := Cached(b.joints, b.homing, id, TicksToAngle(-present))) else b, w3)
  }

  lemma {:induction false} ExecuteAppend(script: Script, w: World, a: seq<Order>, b: seq<Order>)
    ensures Execute(script, w, a + b)
         == var (ok, w') := Execute(script, w, a); if ok then Execute(script, w', b) else (false, w')
    decreases |a|
  {
    if a == [] {
      assert a + b == b;
    } else {
      assert (a + b)[1..] == a[1..] + b;
      ExecuteAppend(script, Issue(script, w, a[0]).1, a[1..], b);
    }
  }

  lemma ShiftOne<T>(s: seq<T>, i: nat, rest: seq<T>)
    requires i < |s|
    ensures s[..i] + ([s[i]] + rest) == s[..i + 1] + rest
  {
  }

  lemma PingAllStep(script: Script, w: World, joints: seq<JointSpec>, i: nat)
    requires i < |joints|
    ensures PingAll(script, w, joints[i..])
         == var (ok, w') := PingMotor(script, w, joints[i].id);
            if !ok then (false, joints[i..], w')
            else var r := PingAll(script, w', joints[i + 1..]);
                 (r.0, [Detected(joints[i], w.motors[joints[i].id].model)] + r.1, r.2)
  {
    assert joints[i..][1..] == joints[i + 1..];
  }

  lemma ReadHomingStep(script: Script, w: World, joints: seq<JointSpec>, i: nat)
    requires i < |joints|
    ensures ReadHoming(script, w, joints[i..])
         == var (ok, raw, w') := ReadRegister(script, w, joints[i].id, HOMING_OFFSET, 4);
            var r := ReadHoming(script, w', joints[i + 1..]);
            ([if ok then TicksToAngle(raw) else 0.0] + r.0, r.1)
  {
    assert joints[i..][1..] == joints[i + 1..];
  }

  lemma PingAllDone(script: Script, w: World, joints: seq<JointSpec>)
    requires joints == []
    ensures PingAll(script, w, joints) == (true, [], w)
  {
  }

  lemma ReadHomingDone(script: Script, w: World, joints: seq<JointSpec>)
    ensures joints == [] ==> ReadHoming(script, w, joints) == ([], w)
  {
  }
}
