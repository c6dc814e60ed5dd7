/**
 The cyclic loop. One sync read gives what six register reads would; the hardware error status is
 polled in turn; the goal packet of a cycle is a function of that cycle's commands.
 */
module FeedbackProofs {
  import opened Wrappers
  import opened Bytes
  import opened Units
  import opened ControlTable
  import opened Wire
  import opened BusModel
  import opened ConfigureProofs

  // ---------- the fast read refines single register reads

  /** The transaction with this script entry gets through both ways. */
  predicate Answered(script: Script, now: nat) {
    script(now).arrives && script(now).answers
  }

  /** What reading one register of a motor gives. */
  function RegisterValue(m: Motor, address: Address, size: nat): int
    requires SupportedSize(size)
  {
    Signed(Present(m)[address..address + size])
  }

  lemma ReadRegisterValue(script: Script, w: World, id: Id, address: Address, size: nat)
    requires SupportedSize(size)
    ensures var (ok, value, w') := ReadRegister(script, w, id, address, size);
            && w'.motors == w.motors && (ok <==> Acked(script(w.now), w, id))
            && (ok ==> value == RegisterValue(w.motors[id], address, size))
  {
  }

  /** A read that fails gives 0, and one of an unsupported size fails without a packet. */
  lemma FailedReadIsZero(script: Script, w: World, id: Id, address: Address, size: nat)
    ensures var (ok, value, w') := ReadRegister(script, w, id, address, size);
            && (ok <==> SupportedSize(size) && Acked(script(w.now), w, id)) && (!ok ==> value == 0)
            && (!SupportedSize(size) ==> w' == w)
  {
    if SupportedSize(size) {
      ZeroBytes(size);
    }
  }

  lemma ZeroBytes(size: nat)
    requires SupportedSize(size)
    ensures Signed(Encode(0, size)) == 0
  {
    RegisterRoundTrip(0, size);
    Modulus4();
  }

  /**
   Reading a register back after an accepted write, unless it lies in the present position, gives
   the signed representative of the value written: the value itself exactly when that fits.
   */
  lemma RegisterReadBack(script: Script, w: World, id: Id, address: Address, size: nat, value: int)
    requires SupportedSize(size) && Disjoint(address, size, PRESENT_POSITION, 4)
    requires Takes(script(w.now), w, id, address)
    requires Answered(script, w.now + 1)
    ensures var w1 := WriteRegister(script, w, id, address, size, value).1;
            var (ok, read, w2) := ReadRegister(script, w1, id, address, size);
            && ok && InSignedRange(read, size) && read % Modulus(size) == value % Modulus(size)
            && (read == value <==> InSignedRange(value, size))
  {
    hide Encode, Overlay, Present, Signed, WriteRegister, BusModel.ReadRegister, Takes;
    AcceptedWriteStores(script, w, id, address, size, value);
    StoredReads(w.motors[id], address, Encode(value, size));
    ReadRegisterValue(script, WriteRegister(script, w, id, address, size, value).1, id, address, size);
    RegisterRoundTrip(value, size);
  }

  lemma AcceptedWriteStores(script: Script, w: World, id: Id, address: Address, size: nat, value: int)
    requires SupportedSize(size) && Takes(script(w.now), w, id, address)
    ensures var w1 := WriteRegister(script, w, id, address, size, value).1;
            && id in w.motors && w1.now == w.now + 1
            && w1.motors == w.motors[id := Stored(w.motors[id], address, Encode(value, size))]
  {
  }

  lemma StoredReads(m: Motor, address: nat, data: seq<Byte>)
    requires address + |data| <= SPAN && Disjoint(address, |data|, PRESENT_POSITION, 4)
    ensures Present(Stored(m, address, data))[address..address + |data|] == data
  {
    hide Encode;
    var t := Stored(m, address, data).table;
    assert t[address..address + |data|] == data;
    assert Present(Stored(m, address, data))[address..address + |data|] == t[address..address + |data|];
  }

  /** Whether a motor stores a write: one of its own that it does not decline, or a broadcast it acts on. */
  predicate Stores(l: Line, w: World, target: Id, address: nat, id: Id)
    requires id in w.motors
  {
    && l.arrives && !Locked(w.motors[id], address)
    && if target == BROADCAST then id !in l.silent else target == id && !l.refuses
  }

  /** What a register write to any target leaves in any motor of the line. */
  lemma WriteOnMotor(script: Script, w: World, target: Id, address: Address, size: nat, value: int, id: Id)
    requires SupportedSize(size) && id in w.motors
    ensures var w1 := WriteRegister(script, w, target, address, size, value).1;
            && w1.motors.Keys == w.motors.Keys && w1.now == w.now + 1
            && w1.motors[id] == if Stores(script(w.now), w, target, address, id)
                                then Stored(w.motors[id], address, Encode(value, size)) else w.motors[id]
  {
  }

  /**
   Success means that a reply came, or for a broadcast that it was sent, and says nothing of the motor.
   The motor carries the write out exactly when the request arrives, the motor does not decline it for
   a reason of its own and it is not locked; else nothing changes. So a successful write has left its
   value in the register exactly when the motor did carry it out or the value was there already, and
   where the motor has no reason of its own to decline it did exactly when its torque is off or the
   address lies outside the EEPROM.
   */
  lemma DeclinedWriteReportsSuccess(script: Script, w: World, id: Id, address: Address, size: nat, value: int)
    requires SupportedSize(size) && id in w.motors
    ensures var (ok, w1) := WriteRegister(script, w, id, address, size, value);
            var l, m, data := script(w.now), w.motors[id], Encode(value, size);
            && |w1.trace| == |w.trace| + 1 && id in w1.motors
            && var applied := w1.trace[|w.trace|].applied;
               && (ok <==> l.arrives && l.answers)
               && (applied <==> l.arrives && !l.refuses && !Locked(m, address))
               && w1.motors == (if applied then w.motors[id := Stored(m, address, data)] else w.motors)
               && (w1.motors[id].table[address..address + size] == data <==>
                     applied || m.table[address..address + size] == data)
               && (ok && !l.refuses ==> (applied <==> !TorqueOn(m) || address >= EEPROM_END))
  {
    hide Encode;
  }

  /**
   Reading back is what tells. After any answered write, declined or not, an answered read of the same
   register gives the value exactly when it was stored and fits, or was there before.
   */
  lemma ReadBackTells(script: Script, w: World, id: Id, address: Address, size: nat, value: int)
    requires SupportedSize(size) && Disjoint(address, size, PRESENT_POSITION, 4)
    requires id in w.motors && Answered(script, w.now) && Answered(script, w.now + 1)
    ensures var (ok, w1) := WriteRegister(script, w, id, address, size, value);
            var (got, read, w2) := ReadRegister(script, w1, id, address, size);
            && ok && got
            && (read == value <==>
                  || (!script(w.now).refuses && !Locked(w.motors[id], address) && InSignedRange(value, size))
                  || RegisterValue(w.motors[id], address, size) == value)
  {
    hide Encode, Overlay, Present, Signed, WriteRegister, BusModel.ReadRegister, InSignedRange;
    DeclinedWriteReportsSuccess(script, w, id, address, size, value);
    WriteOnMotor(script, w, id, address, size, value, id);
    ReadRegisterValue(script, WriteRegister(script, w, id, address, size, value).1, id, address, size);
    RegisterValueInRange(w.motors[id], address, size);
    if Takes(script(w.now), w, id, address) {
      RegisterReadBack(script, w, id, address, size, value);
    }
  }

  lemma RegisterValueInRange(m: Motor, address: Address, size: nat)
    requires SupportedSize(size)
    ensures InSignedRange(RegisterValue(m, address, size), size)
  {
    WrapSpec(Unsigned(Present(m)[address..address + size]), size);
  }

  lemma FieldOfWindow(m: Motor, address: nat, size: nat)
    requires SYNC_READ_START <= address && address + size <= SYNC_READ_START + SYNC_READ_LENGTH
    ensures Field(WindowOf(m), address, size) == Present(m)[address..address + size]
  {
  }

  lemma UnsignedIsSigned(bs: seq<Byte>)
    requires |bs| > 0
    ensures Unsigned(bs) == Signed(bs) <==> 2 * Unsigned(bs) < Modulus(|bs|)
  {
    SmallMod(Unsigned(bs), Modulus(|bs|));
  }

  /** A motor of the line that does not miss the coming group packet. */
  predicate Heard(script: Script, w: World, id: Id) {
    id in w.motors && id !in script(w.now).silent
  }

  /**
   Every field the loop decodes lies in the window. Position, velocity and PWM are the values single
   register reads return. Voltage, temperature and moving, which the loop decodes as unsigned and a
   register read as signed, agree exactly in the lower half of their range.
   */
  lemma SyncReadRefinesRegisterReads(script: Script, b: BusState, w: World, i: nat)
    requires Ready(b) && Answered(script, w.now) && i < |b.joints|
    ensures var (ok, out, b', w') := ReadAll(script, b, w);
            var id := b.joints[i].id;
            && ok
            && |out| == |b.joints| && (out[i].valid <==> Heard(script, w, id)) && (!out[i].valid ==> out[i] == BLANK)
            && (out[i].valid ==>
                  var m := w.motors[id];
                  && out[i].position == TickToRad(RegisterValue(m, PRESENT_POSITION, 4))
                  && out[i].velocity == RawToRadPerS(RegisterValue(m, PRESENT_VELOCITY, 4))
                  && out[i].pwm == RegisterValue(m, PRESENT_PWM, 2) as real
                  && (out[i].voltage == RegisterValue(m, PRESENT_INPUT_VOLTAGE, 2) as real * 0.1 <==>
                        Unsigned(Present(m)[PRESENT_INPUT_VOLTAGE..][..2]) < 0x8000)
                  && (out[i].temperature == RegisterValue(m, PRESENT_TEMPERATURE, 1) as real <==>
                        Present(m)[PRESENT_TEMPERATURE] < 0x80)
                  && (out[i].moving == RegisterValue(m, MOVING, 1) as real <==> Present(m)[MOVING] < 0x80)
                  && out[i].effort == 0.0 && out[i].homingOffset == b.homing[i] && out[i].error == b.errors[i])
  {
    hide Signed, Unsigned, TickToRad, RawToRadPerS, Present;
    var id := b.joints[i].id;
    if Heard(script, w, id) {
      var m := w.motors[id];
      FieldOfWindow(m, PRESENT_POSITION, 4);
      FieldOfWindow(m, PRESENT_VELOCITY, 4);
      FieldOfWindow(m, PRESENT_PWM, 2);
      UnsignedFields(m);
    }
  }

  lemma UnsignedFields(m: Motor)
    ensures var win := WindowOf(m);
            && (Unsigned(Field(win, PRESENT_INPUT_VOLTAGE, 2)) == RegisterValue(m, PRESENT_INPUT_VOLTAGE, 2) <==>
                  Unsigned(Present(m)[PRESENT_INPUT_VOLTAGE..][..2]) < 0x8000)
            && (Unsigned(Field(win, PRESENT_TEMPERATURE, 1)) == RegisterValue(m, PRESENT_TEMPERATURE, 1) <==>
                  Present(m)[PRESENT_TEMPERATURE] < 0x80)
            && (Unsigned(Field(win, MOVING, 1)) == RegisterValue(m, MOVING, 1) <==> Present(m)[MOVING] < 0x80)
  {
    Modulus4();
    FieldOfWindow(m, PRESENT_INPUT_VOLTAGE, 2);
    FieldOfWindow(m, PRESENT_TEMPERATURE, 1);
    FieldOfWindow(m, MOVING, 1);
    var p := Present(m);
    assert p[PRESENT_INPUT_VOLTAGE..][..2] == p[PRESENT_INPUT_VOLTAGE..PRESENT_INPUT_VOLTAGE + 2];
    UnsignedIsSigned(p[PRESENT_INPUT_VOLTAGE..PRESENT_INPUT_VOLTAGE + 2]);
    SingleByte(p, PRESENT_TEMPERATURE);
    SingleByte(p, MOVING);
  }

  lemma SingleByte(t: Table, a: nat)
    requires a < SPAN
    ensures Unsigned(t[a..a + 1]) == t[a]
    ensures Unsigned(t[a..a + 1]) == Signed(t[a..a + 1]) <==> t[a] < 0x80
  {
    Modulus4();
    assert t[a..a + 1] == [t[a]];
    assert Unsigned([t[a]]) == t[a] + 256 * Unsigned([]);
    UnsignedIsSigned(t[a..a + 1]);
  }

  // ---------- polling in turn

  /** What one call polls: nothing if the sync read fails, else one joint, whose read may fail. */
  datatype Poll = Skipped | Polled(value: Option<real>)

  function PollOf(script: Script, b: BusState, w: World): Poll
    requires Ready(b) && b.joints != []
  {
    var (ok, windows, w1) := SyncReadWindows(script, w, b.readGroup.value);
    if !ok then Skipped
    else
      var (got, raw, w2) := ReadRegister(script, w1, b.joints[b.cursor].id, HARDWARE_ERROR_STATUS, 1);
      Polled(if got then Some(raw as real) else None)
  }

  /** The driver over any worlds: the environment may do anything between two calls. */
  function ReadRun(script: Script, b: BusState, worlds: seq<World>): (r: BusState)
    requires Ready(b)
    ensures Ready(r) && r.joints == b.joints
    decreases |worlds|
  {
    if worlds == [] then b else ReadRun(script, ReadAll(script, b, worlds[0]).2, worlds[1..])
  }

  /** What was polled, call by call. */
  function Polls(script: Script, b: BusState, worlds: seq<World>): (r: seq<Poll>)
    requires Ready(b) && b.joints != []
    ensures |r| == |worlds|
    decreases |worlds|
  {
    if worlds == [] then []
    else [PollOf(script, b, worlds[0])] + Polls(script, ReadAll(script, b, worlds[0]).2, worlds[1..])
  }

  /** The values of the calls that succeeded, oldest first. */
  function Successes(polls: seq<Poll>): seq<Option<real>> {
    if polls == [] then []
    else (if polls[0].Polled? then [polls[0].value] else []) + Successes(polls[1..])
  }

  /** A position in a cycle of `n` places, `k` steps after place `c`. */
  lemma NextInTurn(c: nat, k: nat, n: nat)
    requires n > 0
    ensures ((c + 1) % n + k) % n == (c + (k + 1)) % n
  {
    var q := (c + 1) / n;
    var r := ((c + 1) % n + k) / n;
    DivModUnique(c + 1 + k, n, q + r, ((c + 1) % n + k) % n);
  }

  lemma ReadAllPolls(script: Script, b: BusState, w: World)
    requires Ready(b) && b.joints != []
    ensures var b' := ReadAll(script, b, w).2;
            match PollOf(script, b, w)
            case Skipped => b' == b
            case Polled(v) =>
              && b'.cursor == (b.cursor + 1) % |b.joints|
              && b'.errors == if v.Some? then b.errors[b.cursor := v.value] else b.errors
  {
    SmallMod(b.cursor, |b.joints|);
  }

  /** What one poll adds to the successes. */
  function Outcome(p: Poll): seq<Option<real>> {
    match p case Skipped => [] case Polled(v) => [v]
  }

  lemma ReadRunCons(script: Script, b: BusState, worlds: seq<World>)
    requires Ready(b) && b.joints != []
    ensures worlds == [] ==> ReadRun(script, b, worlds) == b && Successes(Polls(script, b, worlds)) == []
    ensures worlds != [] ==>
              var b' := ReadAll(script, b, worlds[0]).2;
              && ReadRun(script, b, worlds) == ReadRun(script, b', worlds[1..])
              && Successes(Polls(script, b, worlds))
              == Outcome(PollOf(script, b, worlds[0])) + Successes(Polls(script, b', worlds[1..]))
  {
    hide ReadAll, PollOf;
    if worlds != [] {
      assert Polls(script, b, worlds)[1..] == Polls(script, ReadAll(script, b, worlds[0]).2, worlds[1..]);
    }
  }

  /** A call keeps the joints and, when it succeeds, moves the cursor one place on. */
  lemma CallMovesCursor(script: Script, b: BusState, w: World)
    requires Ready(b) && b.joints != []
    ensures var b', ids := ReadAll(script, b, w).2, IdsOf(b.joints);
            && Ready(b') && b'.joints == b.joints && IdsOf(b'.joints) == ids && b.cursor < |ids|
            && b'.cursor == if PollOf(script, b, w).Polled? then (b.cursor + 1) % |ids| else b.cursor
  {
    hide ReadAll, PollOf;
    ReadAllPolls(script, b, w);
  }

  /** After k successful calls the cursor has moved k places round the joints. */
  lemma {:induction false} CursorCountsSuccesses(script: Script, b: BusState, worlds: seq<World>)
    requires Ready(b) && b.joints != []
    ensures ReadRun(script, b, worlds).cursor
         == (b.cursor + |Successes(Polls(script, b, worlds))|) % |b.joints|
    decreases |worlds|
  {
    hide ReadAll, PollOf, ReadRun, Polls, Successes, Ready, IdsOf;
    ReadRunCons(script, b, worlds);
    if worlds == [] {
      CursorAtRest(b);
    } else {
      var b' := ReadAll(script, b, worlds[0]).2;
      var later := |Successes(Polls(script, b', worlds[1..]))|;
      CallMovesCursor(script, b, worlds[0]);
      CursorCountsSuccesses(script, b', worlds[1..]);
      MovedOn(b.cursor, later, |b.joints|, |Outcome(PollOf(script, b, worlds[0]))|);
    }
  }

  lemma CursorAtRest(b: BusState)
    requires Ready(b) && b.joints != []
    ensures b.cursor % |b.joints| == b.cursor
  {
    SmallMod(b.cursor, |b.joints|);
  }

  lemma MovedOn(c: nat, later: nat, n: nat, moved: nat)
    requires c < n && moved <= 1
    ensures ((if moved == 1 then (c + 1) % n else c) + later) % n == (c + (moved + later)) % n
  {
    NextInTurn(c, later, n);
  }

  /** From a fresh configure, the successful call number k polls joint k mod n. */
  lemma PollsInTurn(script: Script, b: BusState, worlds: seq<World>, w: World)
    requires Ready(b) && b.joints != [] && b.cursor == 0
    ensures var b1 := ReadRun(script, b, worlds);
            var k := |Successes(Polls(script, b, worlds))|;
            var (ok, out, b2, w2) := ReadAll(script, b1, w);
            && (ok <==> PollOf(script, b1, w).Polled?)
            && (ok ==>
                  && |w2.trace| == |w.trace| + 2
                  && w2.trace[|w.trace| + 1].packet == Read(b.joints[k % |b.joints|].id, 70, 1))
  {
    hide ReadRun, Polls, Successes;
    CursorCountsSuccesses(script, b, worlds);
    var b1 := ReadRun(script, b, worlds);
    SmallMod(b1.cursor, |b.joints|);
  }

  /** The ids of the motors whose error status was asked for, as the packets of a trace say. */
  function StatusReads(sent: seq<Sent>): seq<Id> {
    if sent == [] then []
    else
      var p := sent[0].packet;
      (if p.Read? && p.address == 70 then [p.id] else []) + StatusReads(sent[1..])
  }

  /** The status reads a run of calls has sent, call by call. */
  function RunStatusReads(script: Script, b: BusState, worlds: seq<World>): seq<Id>
    requires Ready(b)
    decreases |worlds|
  {
    if worlds == [] then []
    else
      var (ok, out, b', w') := ReadAll(script, b, worlds[0]);
      StatusReads(New(worlds[0], w')) + RunStatusReads(script, b', worlds[1..])
  }

  lemma CallStatusReads(script: Script, b: BusState, w: World)
    requires Ready(b) && b.joints != []
    ensures StatusReads(New(w, ReadAll(script, b, w).3))
         == if PollOf(script, b, w).Polled? then [b.joints[b.cursor].id] else []
    ensures PollOf(script, b, w).Polled? <==> ReadAll(script, b, w).0
  {
    SmallMod(b.cursor, |b.joints|);
    var w' := ReadAll(script, b, w).3;
    var sent := New(w, w');
    if ReadAll(script, b, w).0 {
      var status := Read(b.joints[b.cursor].id, HARDWARE_ERROR_STATUS, 1);
      assert |sent| == 2 && sent[0].packet == SyncRead(b.readGroup.value) && sent[1].packet == status;
      assert StatusReads(sent) == StatusReads(sent[1..]);
      assert sent[1..][1..] == [];
    } else {
      assert |sent| == 1 && sent[0].packet == SyncRead(b.readGroup.value);
      assert sent[1..] == [];
    }
  }

  lemma RunStatusReadsCons(script: Script, b: BusState, worlds: seq<World>)
    requires Ready(b) && b.joints != []
    ensures worlds == [] ==> RunStatusReads(script, b, worlds) == []
    ensures worlds != [] ==>
              RunStatusReads(script, b, worlds) ==
              (if PollOf(script, b, worlds[0]).Polled? then [IdsOf(b.joints)[b.cursor]] else []) +
              RunStatusReads(script, ReadAll(script, b, worlds[0]).2, worlds[1..])
  {
    hide ReadAll, PollOf, StatusReads, New;
    if worlds != [] {
      CallStatusReads(script, b, worlds[0]);
    }
  }

  /** Reads that go round `ids` from place `c` on. */
  predicate InTurn(asked: seq<Id>, ids: seq<Id>, c: nat)
    requires ids != []
  {
    forall k :: 0 <= k < |asked| ==> asked[k] == ids[(c + k) % |ids|]
  }

  lemma InTurnCons(asked: seq<Id>, ids: seq<Id>, c: nat)
    requires c < |ids| && InTurn(asked, ids, (c + 1) % |ids|)
    ensures InTurn([ids[c]] + asked, ids, c)
  {
    var all := [ids[c]] + asked;
    SmallMod(c, |ids|);
    forall k | 0 <= k < |all| ensures all[k] == ids[(c + k) % |ids|] {
      if k > 0 { NextInTurn(c, k - 1, |ids|); }
    }
  }

  /** A run sends one status read a successful call, to the joints in turn. */
  lemma {:induction false} StatusReadsInTurn(script: Script, b: BusState, worlds: seq<World>)
    requires Ready(b) && b.joints != []
    ensures |RunStatusReads(script, b, worlds)| == |Successes(Polls(script, b, worlds))|
    ensures InTurn(RunStatusReads(script, b, worlds), IdsOf(b.joints), b.cursor)
    decreases |worlds|
  {
    hide ReadAll, PollOf, ReadRun, Polls, Successes, Ready, RunStatusReads, InTurn, IdsOf;
    ReadRunCons(script, b, worlds);
    RunStatusReadsCons(script, b, worlds);
    NothingInTurn(IdsOf(b.joints), b.cursor);
    if worlds != [] {
      var b' := ReadAll(script, b, worlds[0]).2;
      CallMovesCursor(script, b, worlds[0]);
      StatusReadsInTurn(script, b', worlds[1..]);
      TurnOn(RunStatusReads(script, b', worlds[1..]), IdsOf(b.joints), b.cursor, PollOf(script, b, worlds[0]).Polled?);
    }
  }

  lemma TurnOn(asked: seq<Id>, ids: seq<Id>, c: nat, polled: bool)
    requires c < |ids| && InTurn(asked, ids, if polled then (c + 1) % |ids| else c)
    ensures InTurn((if polled then [ids[c]] else []) + asked, ids, c)
  {
    if polled { InTurnCons(asked, ids, c); } else { assert [] + asked == asked; }
  }

  lemma NothingInTurn(ids: seq<Id>, c: nat)
    requires ids != []
    ensures InTurn([], ids, c)
  {
  }

  /** Among any `n` reads in turn the j-th of `n` distinct ids comes exactly once. */
  lemma OncePerRound(asked: seq<Id>, ids: seq<Id>, c: nat, start: nat, j: nat)
    requires j < |ids| && InTurn(asked, ids, c) && start + |ids| <= |asked|
    requires forall i, k :: 0 <= i < k < |ids| ==> ids[i] != ids[k]
    ensures exists k :: start <= k < start + |ids| && asked[k] == ids[j]
    ensures forall k, k' ::
              && start <= k < start + |ids| && asked[k] == ids[j]
              && start <= k' < start + |ids| && asked[k'] == ids[j]
              ==> k == k'
  {
    hide InTurn;
    var n := |ids|;
    PlaceInRound(c + start, n, j);
    var p :| c + start <= p < c + start + n && p % n == j;
    AskedAt(asked, ids, c, p - c);
    assert c + (p - c) == p;
    forall k, k' | && start <= k < start + n && asked[k] == ids[j]
                   && start <= k' < start + n && asked[k'] == ids[j]
      ensures k == k'
    {
      AskedAt(asked, ids, c, k);
      AskedAt(asked, ids, c, k');
      OnePlaceInRound(c + start, n, c + k, c + k');
    }
  }

  lemma AskedAt(asked: seq<Id>, ids: seq<Id>, c: nat, k: nat)
    requires ids != [] && InTurn(asked, ids, c) && k < |asked|
    ensures asked[k] == ids[(c + k) % |ids|]
  {
  }

  /**
   Fairness. In every run of calls, whichever of them fail, any n consecutive status reads, which are
   those of n consecutive successful calls, go to each of the n joints exactly once.
   */
  lemma EachJointOncePerRound(script: Script, b: BusState, worlds: seq<World>, start: nat, j: nat)
    requires Ready(b) && DistinctIds(b.joints) && j < |b.joints|
    requires start + |b.joints| <= |RunStatusReads(script, b, worlds)|
    ensures exists k :: start <= k < start + |b.joints| && RunStatusReads(script, b, worlds)[k] == b.joints[j].id
    ensures forall k, k' ::
              && start <= k < start + |b.joints| && RunStatusReads(script, b, worlds)[k] == b.joints[j].id
              && start <= k' < start + |b.joints| && RunStatusReads(script, b, worlds)[k'] == b.joints[j].id
              ==> k == k'
  {
    hide RunStatusReads, Ready, Polls, Successes, InTurn;
    StatusReadsInTurn(script, b, worlds);
    OncePerRound(RunStatusReads(script, b, worlds), IdsOf(b.joints), b.cursor, start, j);
  }

  lemma PlaceInRound(start: nat, n: nat, j: nat)
    requires j < n
    ensures exists k :: start <= k < start + n && k % n == j
  {
    var d := (j - start) % n;
    var q := (j - start) / n;
    assert start + d == n * (-q) + j;
    DivModUnique(start + d, n, -q, j);
  }

  lemma OnePlaceInRound(start: nat, n: nat, k: int, k': int)
    requires n > 0 && start <= k < start + n && start <= k' < start + n && k % n == k' % n
    ensures k == k'
  {
    assert k - k' == n * (k / n - k' / n);
    MultipleGap(n, k / n - k' / n);
  }

  /** Where the latest of `m` successes that polled joint `j` stands, from a cursor at zero. */
  predicate LatestPoll(k: int, m: nat, n: nat, j: nat)
    requires n > 0
  {
    0 <= k < m <= k + n && k % n == j
  }

  /** What is held for joint `j` after successes `vals`: its latest value, or the initial one. */
  ghost predicate Recent(vals: seq<Option<real>>, held: real, initial: real, n: nat, j: nat)
    requires n > 0
  {
    && (|vals| <= j ==> held == initial)
    && (|vals| > j ==> exists k :: LatestPoll(k, |vals|, n, j) && vals[k] == Some(held))
  }

  lemma RecentStep(vals: seq<Option<real>>, v: real, held: real, initial: real, n: nat, j: nat)
    requires j < n && Recent(vals, held, initial, n, j)
    ensures Recent(vals + [Some(v)], if |vals| % n == j then v else held, initial, n, j)
  {
    var vals' := vals + [Some(v)];
    if |vals| % n == j {
      PolledNow(|vals|, n, j);
      assert vals'[|vals|] == Some(v);
    } else {
      NotPolledNow(|vals|, n, j);
      if |vals| > j {
        var k :| LatestPoll(k, |vals|, n, j) && vals[k] == Some(held);
        StillLatest(k, |vals|, n, j);
        assert vals'[k] == Some(held);
      }
    }
  }

  /**
   Bounded staleness. From a fresh configure, once a joint has been polled and if every poll
   succeeded, the error value held for it was read at most n successful calls ago; before its first
   poll it is the initial one.
   */
  lemma {:induction false} ErrorsAreRecent(script: Script, b: BusState, worlds: seq<World>, j: nat)
    requires Ready(b) && j < |b.joints| && b.cursor == 0
    requires forall v :: v in Successes(Polls(script, b, worlds)) ==> v.Some?
    ensures Recent(Successes(Polls(script, b, worlds)), ReadRun(script, b, worlds).errors[j],
                   b.errors[j], |b.joints|, j)
    decreases |worlds|
  {
    if worlds == [] {
    } else {
      hide ReadAll, PollOf, Ready, Recent, Outcome, ReadRun, Polls, Successes;
      var last := |worlds| - 1;
      RunSplit(script, b, worlds);
      var b1 := ReadRun(script, b, worlds[..last]);
      var p := PollOf(script, b1, worlds[last]);
      SuccessesAppend(Polls(script, b, worlds[..last]), p);
      var before := Successes(Polls(script, b, worlds[..last]));
      AllSome(before, Outcome(p));
      ErrorsAreRecent(script, b, worlds[..last], j);
      CursorCountsSuccesses(script, b, worlds[..last]);
      RecentCall(script, b1, worlds[last], before, b.errors[j], j);
    }
  }

  lemma RecentCall(script: Script, b: BusState, w: World, vals: seq<Option<real>>, initial: real, j: nat)
    requires Ready(b) && j < |b.joints| && b.cursor == |vals| % |b.joints|
    requires Recent(vals, b.errors[j], initial, |b.joints|, j)
    requires forall v :: v in Outcome(PollOf(script, b, w)) ==> v.Some?
    ensures Recent(vals + Outcome(PollOf(script, b, w)), ReadAll(script, b, w).2.errors[j],
                   initial, |b.joints|, j)
  {
    hide PollOf, Recent, ReadAll;
    ReadAllPolls(script, b, w);
    var p := PollOf(script, b, w);
    if p.Polled? {
      assert p.value in Outcome(p);
      RecentStep(vals, p.value.value, b.errors[j], initial, |b.joints|, j);
    } else {
      assert vals + Outcome(p) == vals;
    }
  }

  lemma AllSome(a: seq<Option<real>>, b: seq<Option<real>>)
    requires forall v :: v in a + b ==> v.Some?
    ensures forall v :: v in a || v in b ==> v.Some?
  {
    assert forall v :: v in a || v in b ==> v in a + b;
  }

  /**
   Since a successful configure: the cursor counts the successful calls round the joints, and if all
   their polls succeeded the error held for every joint is at most n of those calls old, or still 0.
   */
  lemma PollingSinceConfigure(script: Script, parse: Parser, b: BusState, w: World, specs: seq<JointSpec>,
                              b1: BusState, worlds: seq<World>, j: nat)
    requires Configure(script, parse, b, w, specs).0 && b1 == Configure(script, parse, b, w, specs).1 && j < |specs|
    ensures Ready(b1) && |b1.joints| == |specs|
    ensures ReadRun(script, b1, worlds).cursor == |Successes(Polls(script, b1, worlds))| % |specs|
    ensures (forall v :: v in Successes(Polls(script, b1, worlds)) ==> v.Some?) ==>
              Recent(Successes(Polls(script, b1, worlds)), ReadRun(script, b1, worlds).errors[j], 0.0, |specs|, j)
  {
    hide Configure, ReadRun, Polls, Successes, Recent;
    ConfigureStartsPolling(script, parse, b, w, specs);
    CursorCountsSuccesses(script, b1, worlds);
    if forall v :: v in Successes(Polls(script, b1, worlds)) ==> v.Some? {
      ErrorsAreRecent(script, b1, worlds, j);
    }
  }

  lemma ConfigureStartsPolling(script: Script, parse: Parser, b: BusState, w: World, specs: seq<JointSpec>)
    requires Configure(script, parse, b, w, specs).0
    ensures var b1 := Configure(script, parse, b, w, specs).1;
            && Ready(b1) && |b1.joints| == |specs| && b1.cursor == 0
            && forall j :: 0 <= j < |specs| ==> b1.errors[j] == 0.0
  {
    PingAllFacts(script, w, specs);
    hide PingAll, Execute, ReadHoming, JoinAll, SetupOrders;
    JoinedIds(PingAll(script, w, specs).1);
  }

  lemma PolledNow(m: nat, n: nat, j: nat)
    requires j < n && m % n == j
    ensures LatestPoll(m, m + 1, n, j) && m >= j
  {
  }

  lemma NotPolledNow(m: nat, n: nat, j: nat)
    requires j < n && m % n != j
    ensures m != j
  {
    SmallMod(j, n);
  }

  lemma StillLatest(k: int, m: nat, n: nat, j: nat)
    requires j < n && LatestPoll(k, m, n, j) && m % n != j
    ensures LatestPoll(k, m + 1, n, j)
  {
    if m == k + n {
      DivModUnique(k + n, n, k / n + 1, k % n);
    }
  }

  /** A run is all its calls but the last, then the last. */
  lemma {:induction false} RunSplit(script: Script, b: BusState, worlds: seq<World>)
    requires Ready(b) && b.joints != [] && worlds != []
    ensures var last := |worlds| - 1;
            var b1 := ReadRun(script, b, worlds[..last]);
            && ReadRun(script, b, worlds) == ReadAll(script, b1, worlds[last]).2
            && Polls(script, b, worlds) == Polls(script, b, worlds[..last]) + [PollOf(script, b1, worlds[last])]
    decreases |worlds|
  {
    hide ReadAll, PollOf;
    var last := |worlds| - 1;
    if last > 0 {
      RunSplit(script, ReadAll(script, b, worlds[0]).2, worlds[1..]);
      assert worlds[1..][..last - 1] == worlds[..last][1..];
    }
  }

  lemma {:induction false} SuccessesAppend(a: seq<Poll>, p: Poll)
    ensures Successes(a + [p]) == Successes(a) + Outcome(p)
  {
    if a != [] {
      assert (a + [p])[1..] == a[1..] + [p];
      SuccessesAppend(a[1..], p);
    }
  }

  /**
   From poll to report. After a call whose poll of the joint in turn was answered, the next call that
   hears the joint reports the status byte its motor held at the poll, exactly when that byte is below
   128; otherwise it reports 256 less, because the register is read signed.
   */
  lemma ReportedErrorStatus(script: Script, b: BusState, w: World, b1: BusState, w1: World)
    requires Ready(b) && b.joints != [] && Answered(script, w.now) && Answered(script, w.now + 1)
    requires b1 == ReadAll(script, b, w).2 && b.joints[b.cursor].id in w.motors
    requires Answered(script, w1.now) && Heard(script, w1, b.joints[b.cursor].id)
    ensures Ready(b1) && |ReadAll(script, b1, w1).1| == |b.joints|
    ensures var status: int := w.motors[b.joints[b.cursor].id].table[70];
            var report := ReadAll(script, b1, w1).1[b.cursor];
            && report.valid && report.error == (if status < 0x80 then status else status - 256) as real
            && (report.error == status as real <==> status < 0x80)
  {
    ErrorStatusValue(w.motors[b.joints[b.cursor].id]);
    PolledValue(script, b, w);
    hide ReadAll, PollOf, RegisterValue;
    ReadAllPolls(script, b, w);
    SyncReadRefinesRegisterReads(script, b1, w1, b.cursor);
  }

  lemma PolledValue(script: Script, b: BusState, w: World)
    requires Ready(b) && b.joints != [] && Answered(script, w.now) && Answered(script, w.now + 1)
    requires b.joints[b.cursor].id in w.motors
    ensures PollOf(script, b, w)
         == Polled(Some(RegisterValue(w.motors[b.joints[b.cursor].id], HARDWARE_ERROR_STATUS, 1) as real))
  {
  }

  lemma ErrorStatusValue(m: Motor)
    ensures var status: int := m.table[HARDWARE_ERROR_STATUS];
            RegisterValue(m, HARDWARE_ERROR_STATUS, 1) == if status < 0x80 then status else status - 256
  {
    var p := Present(m);
    assert p[HARDWARE_ERROR_STATUS..HARDWARE_ERROR_STATUS + 1] == [p[HARDWARE_ERROR_STATUS]];
    SignedByte(p[HARDWARE_ERROR_STATUS]);
  }

  lemma SignedByte(b: Byte)
    ensures Signed([b]) == if b < 0x80 then b else b - 256
  {
    Modulus4();
    assert Unsigned([b]) == b + 256 * Unsigned([]);
    SmallMod(b, 256);
  }

  // ---------- the goal packet

  /** The reference: commandable joints with a real command, in joint order. */
  function FilterMap(joints: seq<JointSpec>, commands: seq<Command>): seq<Entry> {
    if joints == [] || commands == [] then []
    else
      (if joints[0].commandable && commands[0].Rad?
       then [Entry(joints[0].id, GoalBytes(RadToTick(commands[0].value)))] else [])
      + FilterMap(joints[1..], commands[1..])
  }

  predicate Commanded(joints: seq<JointSpec>, commands: seq<Command>, i: int) {
    0 <= i < |joints| && i < |commands| && joints[i].commandable && commands[i].Rad?
  }

  /** Entries come from commanded joints and no other, and say their tick. */
  lemma {:induction false} FilterMapEntries(joints: seq<JointSpec>, commands: seq<Command>)
    ensures forall e :: e in FilterMap(joints, commands) <==>
              exists i :: Commanded(joints, commands, i) &&
                          e == Entry(joints[i].id, GoalBytes(RadToTick(commands[i].value)))
  {
    if joints != [] && commands != [] {
      FilterMapEntries(joints[1..], commands[1..]);
      assert forall i :: Commanded(joints[1..], commands[1..], i) ==> Commanded(joints, commands, i + 1);
      forall e | exists i :: Commanded(joints, commands, i) &&
                             e == Entry(joints[i].id, GoalBytes(RadToTick(commands[i].value)))
        ensures e in FilterMap(joints, commands)
      {
        var i :| Commanded(joints, commands, i) && e == Entry(joints[i].id, GoalBytes(RadToTick(commands[i].value)));
        if i > 0 { assert Commanded(joints[1..], commands[1..], i - 1); }
      }
    }
  }

  predicate OnePerId(entries: seq<Entry>) {
    forall i, j :: 0 <= i < j < |entries| ==> entries[i].id != entries[j].id
  }

  lemma {:induction false} GoalsFilterMap(group: seq<Entry>, joints: seq<JointSpec>, commands: seq<Command>)
    requires DistinctIds(joints) && forall j :: j in joints ==> !HasEntry(group, j.id)
    ensures Goals(group, joints, commands) == group + FilterMap(joints, commands)
    decreases |joints|
  {
    hide GoalBytes, RadToTick;
    if joints != [] && commands != [] {
      var first, rest := joints[0], joints[1..];
      assert first in joints && !HasEntry(group, first.id);
      var group' := AddGoal(group, first, commands[0]);
      forall j | j in rest ensures !HasEntry(group', j.id) {
        assert j in joints;
        var k :| 0 <= k < |rest| && rest[k] == j;
        assert joints[k + 1] == j;
      }
      GoalsFilterMap(group', rest, commands[1..]);
    }
  }

  lemma {:induction false} GoalsOnePerId(group: seq<Entry>, joints: seq<JointSpec>, commands: seq<Command>)
    requires OnePerId(group)
    ensures OnePerId(Goals(group, joints, commands))
    decreases |joints|
  {
    if joints != [] && commands != [] {
      var group' := AddGoal(group, joints[0], commands[0]);
      assert OnePerId(group') by {
        forall i, j | 0 <= i < j < |group'| ensures group'[i].id != group'[j].id {
          assert group'[i] in group && (j < |group| ==> group[j] == group'[j]);
        }
      }
      GoalsOnePerId(group', joints[1..], commands[1..]);
    }
  }

  lemma OnePerIdOfNone()
    ensures OnePerId([])
  {
  }

  /** A run of write cycles: one command vector each. */
  function WriteRun(script: Script, b: BusState, w: World, history: seq<seq<Command>>): World
    requires Ready(b)
    decreases |history|
  {
    if history == [] then w
    else
      var (ok, b', w') := WritePositions(script, b, w, history[0]);
      WriteRun(script, b', w', history[1..])
  }

  /**
   For every history the k-th packet is the filter-map of the k-th vector, whatever was sent, lost
   or left in the group before.
   */
  lemma {:induction false} PacketsAreFilterMaps(script: Script, b: BusState, w: World,
                                                history: seq<seq<Command>>, k: nat)
    requires Ready(b) && DistinctIds(b.joints) && k < |history|
    ensures var w' := WriteRun(script, b, w, history);
            && Extends(w, w') && |New(w, w')| == |history|
            && New(w, w')[k].packet == SyncWrite(FilterMap(b.joints, history[k]))
            && OnePerId(FilterMap(b.joints, history[k]))
    decreases |history|
  {
    hide Goals, FilterMap, OnePerId;
    OnePerIdOfNone();
    GoalsFilterMap([], b.joints, history[k]);
    GoalsOnePerId([], b.joints, history[k]);
    WriteRunExtends(script, b, w, history);
    var (ok, b', w1) := WritePositions(script, b, w, history[0]);
    GoalsFilterMap([], b.joints, history[0]);
    WriteOnceExtends(script, b, w, history[0]);
    WriteRunExtends(script, b', w1, history[1..]);
    ExtendsTwice(w, w1, WriteRun(script, b, w, history));
    if k > 0 {
      PacketsAreFilterMaps(script, b', w1, history[1..], k - 1);
    }
  }

  lemma {:induction false} GoalsStoredKeys(motors: Motors, entries: seq<Entry>, silent: set<Id>)
    requires WellSized(entries)
    ensures GoalsStored(motors, entries, silent).Keys == motors.Keys
    decreases |entries|
  {
    if entries != [] {
      var e := entries[0];
      var rest: Motors := if e.id in motors && e.id !in silent
                          then motors[e.id := Stored(motors[e.id], GOAL_POSITION, e.data)] else motors;
      GoalsStoredKeys(rest, entries[1..], silent);
    }
  }

  lemma WriteOnceExtends(script: Script, b: BusState, w: World, commands: seq<Command>)
    requires Ready(b)
    ensures var (ok, b', w') := WritePositions(script, b, w, commands);
            && Extends(w, w') && |New(w, w')| == 1
            && New(w, w')[0].packet == SyncWrite(Goals([], b.joints, commands))
            && (ok <==> script(w.now).answers) && b' == b.(writeGroup := Some(New(w, w')[0].packet.entries))
  {
    GoalsStoredKeys(w.motors, Goals([], b.joints, commands), script(w.now).silent);
  }

  lemma {:induction false} WriteRunExtends(script: Script, b: BusState, w: World, history: seq<seq<Command>>)
    requires Ready(b)
    ensures var w' := WriteRun(script, b, w, history); Extends(w, w') && |New(w, w')| == |history|
    decreases |history|
  {
    if history != [] {
      var (ok, b', w1) := WritePositions(script, b, w, history[0]);
      WriteOnceExtends(script, b, w, history[0]);
      WriteRunExtends(script, b', w1, history[1..]);
      ExtendsTwice(w, w1, WriteRun(script, b', w1, history[1..]));
    }
  }
}
