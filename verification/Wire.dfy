/**
 The motors and the half-duplex line to them. What the environment decides is a script, one entry
 a transaction: whether the request and the reply get through, whether a motor declines a write for
 a reason of its own, and which motors miss a group packet. Quantifying over scripts is quantifying
 over every pattern of communication failure.
 */
module Wire {
  import opened Bytes
  import opened ControlTable

  type Id = i: nat | i < 256

  /** The id whose writes and reboots every motor obeys and none answers; no motor has it. */
  const BROADCAST: Id := 254

  const SPAN := 0x1_0004

  /** The bytes of one motor, over the whole address space. */
  type Table = t: seq<Byte> | |t| == SPAN ghost witness seq(SPAN, i => 0)

  /** What one sync-read reply carries: addresses 122 to 146. */
  type Window = s: seq<Byte> | |s| == SYNC_READ_LENGTH ghost witness seq(SYNC_READ_LENGTH, i => 0)

  datatype Motor = Motor(table: Table, shaft: int, model: nat, powerOn: Table)

  type Motors = m: map<Id, Motor> | BROADCAST !in m witness map[]

  datatype Entry = Entry(id: Id, data: seq<Byte>)

  datatype Packet =
    | Ping(id: Id)
    | Read(id: Id, address: Address, size: nat)
    | Write(id: Id, address: Address, data: seq<Byte>)
    | SyncRead(ids: seq<Id>)
    | SyncWrite(entries: seq<Entry>)
    | Reboot(id: Id)

  /** A packet the host sent, whether the host saw it succeed, whether the motor carried it out. */
  datatype Sent = Sent(packet: Packet, acked: bool, applied: bool)

  /** `silent` are the motors that miss, or do not act on, a packet meant for several. */
  datatype Line = Line(arrives: bool, answers: bool, refuses: bool, silent: set<Id>)

  type Script = nat -> Line

  datatype World = World(motors: Motors, trace: seq<Sent>, now: nat)

  function Overlay(t: Table, address: nat, data: seq<Byte>): (r: Table)
    requires address + |data| <= SPAN
    ensures r[address..address + |data|] == data
    ensures forall a :: 0 <= a < SPAN && !(address <= a < address + |data|) ==> r[a] == t[a]
  {
    t[..address] + data + t[address + |data|..]
  }

  function Offset(t: Table): int { Signed(t[HOMING_OFFSET..HOMING_OFFSET + 4]) }

  /** What the host reads: present position is the shaft's position plus the homing offset. */
  function Present(m: Motor): Table {
    Overlay(m.table, PRESENT_POSITION, Encode(m.shaft + Offset(m.table), 4))
  }

  predicate TorqueOn(m: Motor) { m.table[TORQUE_ENABLE] != 0 }

  /** The EEPROM area is writable only with torque off. */
  predicate Locked(m: Motor, address: nat) { address < EEPROM_END && TorqueOn(m) }

  function Stored(m: Motor, address: nat, data: seq<Byte>): Motor
    requires address + |data| <= SPAN
  {
    m.(table := Overlay(m.table, address, data))
  }

  /** A reboot keeps the EEPROM, reloads the RAM area and, as the motors are assumed to, leaves torque off. */
  function Rebooted(m: Motor): Motor {
    m.(table := m.table[..EEPROM_END] + [0] + m.powerOn[EEPROM_END + 1..])
  }

  /** What a motor may do on its own: move, change RAM bytes, drop torque; never enable it. */
  predicate Drifts(m: Motor, m': Motor) {
    && m'.table[..EEPROM_END] == m.table[..EEPROM_END]
    && (TorqueOn(m') ==> TorqueOn(m))
  }

  predicate Acked(l: Line, w: World, id: Id) {
    id in w.motors && l.arrives && l.answers
  }

  function Logged(w: World, motors: Motors, sent: Sent): World {
    World(motors, w.trace + [sent], w.now + 1)
  }

  function PingMotor(script: Script, w: World, id: Id): (r: (bool, World)) {
    var l := script(w.now);
    var ok := Acked(l, w, id);
    (ok, Logged(w, w.motors, Sent(Ping(id), ok, id in w.motors && l.arrives)))
  }

  predicate Takes(l: Line, w: World, id: Id, address: nat) {
    id in w.motors && l.arrives && !l.refuses && !Locked(w.motors[id], address)
  }

  /** A broadcast counts as successful once it is on the line, any other packet once it is answered. */
  predicate Delivered(l: Line, w: World, id: Id) {
    if id == BROADCAST then l.answers else Acked(l, w, id)
  }

  /** A broadcast write as the motors that act on it store it; the EEPROM lock is each motor's own. */
  function StoredByAll(l: Line, motors: Motors, address: nat, data: seq<Byte>): Motors
    requires address + |data| <= SPAN
  {
    map m | m in motors ::
      if l.arrives && m !in l.silent && !Locked(motors[m], address) then Stored(motors[m], address, data) else motors[m]
  }

  /** A write whose status byte reports an error is still a successful transaction to the host. */
  function WriteBytes(script: Script, w: World, id: Id, address: Address, data: seq<Byte>): (r: (bool, World))
    requires |data| <= 4
  {
    var l := script(w.now);
    var applied := if id == BROADCAST then l.arrives else Takes(l, w, id, address);
    var motors :=
      if id == BROADCAST then StoredByAll(l, w.motors, address, data)
      else if applied then w.motors[id := Stored(w.motors[id], address, data)]
      else w.motors;
    var ok := Delivered(l, w, id);
    (ok, Logged(w, motors, Sent(Write(id, address, data), ok, applied)))
  }

  /** The bytes arrive only with a successful reply; a failed read leaves the caller's zeros. */
  function ReadBytes(script: Script, w: World, id: Id, address: Address, size: nat): (r: (bool, seq<Byte>, World))
    requires size <= 4
    ensures |r.1| == size
  {
    var l := script(w.now);
    var ok := Acked(l, w, id);
    var data := if ok then Present(w.motors[id])[address..address + size] else Encode(0, size);
    (ok, data, Logged(w, w.motors, Sent(Read(id, address, size), ok, id in w.motors && l.arrives)))
  }

  function WindowOf(m: Motor): Window {
    Present(m)[SYNC_READ_START..SYNC_READ_START + SYNC_READ_LENGTH]
  }

  function SyncReadWindows(script: Script, w: World, ids: seq<Id>): (r: (bool, map<Id, Window>, World)) {
    var l := script(w.now);
    var ok := l.arrives && l.answers;
    var windows := map id | id in w.motors && id in ids && id !in l.silent :: WindowOf(w.motors[id]);
    (ok, if ok then windows else map[], Logged(w, w.motors, Sent(SyncRead(ids), ok, l.arrives)))
  }

  /** Each addressed motor that hears the packet stores its own entry; nobody replies. */
  function GoalsStored(motors: Motors, entries: seq<Entry>, silent: set<Id>): Motors
    requires forall e :: e in entries ==> |e.data| == GOAL_POSITION_LENGTH
  {
    if entries == [] then motors
    else
      var e := entries[0];
      var rest := if e.id in motors && e.id !in silent
                  then motors[e.id := Stored(motors[e.id], GOAL_POSITION, e.data)] else motors;
      GoalsStored(rest, entries[1..], silent)
  }

  function SyncWriteGoals(script: Script, w: World, entries: seq<Entry>): (r: (bool, World))
    requires forall e :: e in entries ==> |e.data| == GOAL_POSITION_LENGTH
  {
    var l := script(w.now);
    var motors := if l.arrives then GoalsStored(w.motors, entries, l.silent) else w.motors;
    (l.answers, Logged(w, motors, Sent(SyncWrite(entries), l.answers, l.arrives)))
  }

  function RebootMotor(script: Script, w: World, id: Id): (r: (bool, World)) {
    var l := script(w.now);
    var applied := l.arrives && (id == BROADCAST || id in w.motors);
    var motors: Motors := map m | m in w.motors ::
      if applied && (m == id || (id == BROADCAST && m !in l.silent)) then Rebooted(w.motors[m]) else w.motors[m];
    var ok := Delivered(l, w, id);
    (ok, Logged(w, motors, Sent(Reboot(id), ok, applied)))
  }

  /** The serial port as the driver holds it: each method is one packet and its reply. */
  class SerialLine {
    var world: World
    const script: Script

    constructor (script: Script, world: World)
      ensures this.script == script && this.world == world
    {
      this.script := script;
      this.world := world;
    }

    method Ping(id: Id) returns (ok: bool, model: nat)
      modifies this
      ensures (ok, world) == PingMotor(script, old(world), id)
      ensures ok ==> model == old(world).motors[id].model
    {
      var r := PingMotor(script, world, id);
      model := if r.0 then world.motors[id].model else 0;
      ok, world := r.0, r.1;
    }

    method Write(id: Id, address: Address, data: seq<Byte>) returns (ok: bool)
      requires |data| <= 4
      modifies this
      ensures (ok, world) == WriteBytes(script, old(world), id, address, data)
    {
      var r := WriteBytes(script, world, id, address, data);
      ok, world := r.0, r.1;
    }

    method Read(id: Id, address: Address, size: nat) returns (ok: bool, data: seq<Byte>)
      requires size <= 4
      modifies this
      ensures (ok, data, world) == ReadBytes(script, old(world), id, address, size)
    {
      var r := ReadBytes(script, world, id, address, size);
      ok, data, world := r.0, r.1, r.2;
    }

    method SyncRead(ids: seq<Id>) returns (ok: bool, windows: map<Id, Window>)
      modifies this
      ensures (ok, windows, world) == SyncReadWindows(script, old(world), ids)
    {
      var r := SyncReadWindows(script, world, ids);
      ok, windows, world := r.0, r.1, r.2;
    }

    method SyncWrite(entries: seq<Entry>) returns (ok: bool)
      requires forall e :: e in entries ==> |e.data| == GOAL_POSITION_LENGTH
      modifies this
      ensures (ok, world) == SyncWriteGoals(script, old(world), entries)
    {
      var r := SyncWriteGoals(script, world, entries);
      ok, world := r.0, r.1;
    }

    method Reboot(id: Id) returns (ok: bool)
      modifies this
      ensures (ok, world) == RebootMotor(script, old(world), id)
    {
      var r := RebootMotor(script, world, id);
      ok, world := r.0, r.1;
    }
  }
}
