/**
 Setting the zero pose: clear the homing offset, read the position, write its negative back and
 remember that in the cache of homing offsets.
 */
module ZeroProofs {
  import opened Bytes
  import opened Units
  import opened ControlTable
  import opened Wire
  import opened BusModel
  import opened ConfigureProofs
  import opened ProgramProofs
  import opened FeedbackProofs

  const MIN_INT32 := -0x8000_0000

  /** The angle of so many ticks of offset, each a 4096th of a turn. */
  function OffsetAngle(ticks: int): real { ticks as real * (2.0 * M_PI / 4096.0) }

  /** What a host reads as the motor's position. */
  function PositionRead(m: Motor): int { RegisterValue(m, PRESENT_POSITION, 4) }

  lemma PositionIsShaftPlusOffset(m: Motor)
    ensures PositionRead(m) == Wrap(m.shaft + Offset(m.table), 4)
  {
    UnsignedEncode(m.shaft + Offset(m.table), 4);
    SmallMod((m.shaft + Offset(m.table)) % Modulus(4), Modulus(4));
  }

  function WithOffset(m: Motor, value: int): Motor {
    Stored(m, HOMING_OFFSET, Encode(value, 4))
  }

  lemma OffsetStored(m: Motor, value: int)
    ensures Offset(WithOffset(m, value).table) == Wrap(value, 4)
  {
    var data := Encode(value, 4);
    var t := Overlay(m.table, HOMING_OFFSET, data);
    assert t[HOMING_OFFSET..HOMING_OFFSET + |data|] == data;
    UnsignedEncode(value, 4);
    SmallMod(value % Modulus(4), Modulus(4));
  }

  lemma WrapOfSum(a: int, b: int)
    ensures Wrap(a + Wrap(b, 4), 4) == Wrap(a + b, 4)
  {
    var m := Modulus(4);
    var k := if 2 * (b % m) >= m then b / m + 1 else b / m;
    assert Wrap(b, 4) == b - m * k;
    DivModUnique(a + b - m * k, m, (a + b) / m - k, (a + b) % m);
  }

  lemma WrapZero()
    ensures Wrap(0, 4) == 0
  {
    Modulus4();
  }

  /** Cancelling the position leaves tick 0, even where the shaft's count does not fit 32 bits. */
  lemma CancelledPosition(m: Motor)
    ensures PositionRead(WithOffset(m, 0)) == Wrap(m.shaft, 4)
    ensures PositionRead(WithOffset(m, -Wrap(m.shaft, 4))) == 0
  {
    hide Wrap, PositionRead, Offset, Overlay, Encode;
    WrapZero();
    OffsetStored(m, 0);
    PositionIsShaftPlusOffset(WithOffset(m, 0));
    var p := Wrap(m.shaft, 4);
    OffsetStored(m, -p);
    PositionIsShaftPlusOffset(WithOffset(m, -p));
    WrapOfSum(m.shaft, -p);
    WrapOfSum(-p, m.shaft);
  }

  lemma OffsetOverwritten(m: Motor, a: int, b: int)
    ensures WithOffset(WithOffset(m, a), b) == WithOffset(m, b)
  {
    var x, y := Encode(a, 4), Encode(b, 4);
    var t := Overlay(m.table, HOMING_OFFSET, x);
    assert Overlay(t, HOMING_OFFSET, y) == Overlay(m.table, HOMING_OFFSET, y);
  }

  lemma WrapOfDifference(a: int, b: int)
    ensures Wrap(a - Wrap(b, 4), 4) == Wrap(a - b, 4)
  {
    var m := Modulus(4);
    var k := if 2 * (b % m) >= m then b / m + 1 else b / m;
    assert Wrap(b, 4) == b - m * k;
    DivModUnique(a - b + m * k, m, (a - b) / m + k, (a - b) % m);
  }

  lemma OppositeIsZero(v: int)
    requires InSignedRange(v, 4)
    ensures Wrap(-v, 4) == 0 <==> v == 0
  {
    Modulus4();
    WrapSpec(-v, 4);
    SmallMod(-v, Modulus(4));
    SmallMod(0, Modulus(4));
  }

  /** Writing back the negative of what is read leaves tick 0 exactly when the offset was clear. */
  lemma NegatedPosition(m: Motor)
    ensures PositionRead(WithOffset(m, -PositionRead(m))) == 0 <==> Offset(m.table) == 0
  {
    hide Wrap, PositionRead, Offset, Overlay, Encode, InSignedRange;
    var p := PositionRead(m);
    PositionIsShaftPlusOffset(m);
    OffsetStored(m, -p);
    PositionIsShaftPlusOffset(WithOffset(m, -p));
    WrapOfSum(m.shaft, -p);
    WrapOfDifference(m.shaft, m.shaft + Offset(m.table));
    OffsetInRange(m);
    OppositeIsZero(Offset(m.table));
  }

  lemma OffsetInRange(m: Motor)
    ensures InSignedRange(Offset(m.table), 4)
  {
    WrapSpec(Unsigned(m.table[HOMING_OFFSET..HOMING_OFFSET + 4]), 4);
  }

  lemma PositionInRange(m: Motor)
    ensures InSignedRange(PositionRead(m), 4)
  {
    WrapSpec(Unsigned(Present(m)[PRESENT_POSITION..PRESENT_POSITION + 4]), 4);
  }

  // ---------- one call, whatever gets lost or declined

  /** The motor stores an offset written in this transaction: it is not locked and does not decline. */
  predicate Obeys(script: Script, now: nat, m: Motor) {
    script(now).arrives && !script(now).refuses && !TorqueOn(m)
  }

  /** The motor after the first write. */
  function Cleared(script: Script, now: nat, m: Motor): Motor {
    if Obeys(script, now, m) then WithOffset(m, 0) else m
  }

  /** The second write is sent and the motor stores it. */
  predicate StoresNegative(script: Script, now: nat, m: Motor) {
    Answered(script, now) && Answered(script, now + 1) && Obeys(script, now + 2, m)
  }

  /** The motor after the call. */
  function AfterZero(script: Script, now: nat, m: Motor): Motor {
    var m1 := Cleared(script, now, m);
    if StoresNegative(script, now, m) then WithOffset(m1, -PositionRead(m1)) else m1
  }

  /** All three transactions of a set_zero get through both ways. */
  predicate ZeroAnswered(script: Script, now: nat) {
    Answered(script, now) && Answered(script, now + 1) && Answered(script, now + 2)
  }

  lemma OffsetKeepsTorque(m: Motor, value: int)
    ensures TorqueOn(WithOffset(m, value)) == TorqueOn(m)
  {
  }

  lemma OffsetWrite(script: Script, w: World, id: Id, value: int)
    requires id in w.motors
    ensures var (ok, w1) := WriteRegister(script, w, id, HOMING_OFFSET, 4, value);
            var m := w.motors[id];
            && (ok <==> Answered(script, w.now)) && w1.now == w.now + 1
            && w1.motors == w.motors[id := if Obeys(script, w.now, m) then WithOffset(m, value) else m]
  {
  }

  /** What one call does to the motors, the cache and the result, for every script. */
  lemma SetZeroOutcome(script: Script, b: BusState, w: World, id: Id)
    requires |b.homing| == |b.joints| && id in w.motors
    ensures var (ok, b', w') := SetZero(script, b, w, id);
            var m := w.motors[id];
            && (ok <==> ZeroAnswered(script, w.now))
            && w'.motors == w.motors[id := AfterZero(script, w.now, m)]
            && b'.homing == (if ok
                             then Cached(b.joints, b.homing, id,
                                         OffsetAngle(-PositionRead(Cleared(script, w.now, m))))
                             else b.homing)
            && (ok ==> w'.now == w.now + 3)
  {
    hide WriteRegister, BusModel.ReadRegister, Stored, PositionRead, OffsetAngle, TicksToAngle;
    var m := w.motors[id];
    OffsetWrite(script, w, id, 0);
    OffsetKeepsTorque(m, 0);
    var w1 := WriteRegister(script, w, id, HOMING_OFFSET, 4, 0).1;
    var p := PositionRead(Cleared(script, w.now, m));
    ReadPosition(script, w1, id);
    var w2 := ReadRegister(script, w1, id, PRESENT_POSITION, 4).2;
    OffsetWrite(script, w2, id, -p);
    OffsetScale(-p);
  }

  lemma ReadPosition(script: Script, w: World, id: Id)
    requires id in w.motors
    ensures var (ok, value, w') := ReadRegister(script, w, id, PRESENT_POSITION, 4);
            && (ok <==> Answered(script, w.now)) && w'.now == w.now + 1 && w'.motors == w.motors
            && (ok ==> value == PositionRead(w.motors[id]))
  {
  }

  /** The cached offset of every joint with this id is the angle of the motor's register. */
  predicate CacheFresh(b: BusState, m: Motor, id: Id)
    requires |b.homing| == |b.joints|
  {
    forall i :: 0 <= i < |b.joints| && b.joints[i].id == id ==> b.homing[i] == OffsetAngle(Offset(m.table))
  }

  /** Every joint with this id has this many ticks cached. */
  predicate CacheHolds(b: BusState, id: Id, ticks: int)
    requires |b.homing| == |b.joints|
  {
    forall i :: 0 <= i < |b.joints| && b.joints[i].id == id ==> b.homing[i] == OffsetAngle(ticks)
  }

  lemma OffsetScale(ticks: int)
    ensures TicksToAngle(ticks) == OffsetAngle(ticks)
  {
  }

  lemma OffsetAngleInjective(a: int, b: int)
    ensures OffsetAngle(a) == OffsetAngle(b) <==> a == b
  {
  }

  /** The register after a call: the written negative as it fits, zero, or what it was. */
  function RegisterAfter(script: Script, now: nat, m: Motor): int {
    if StoresNegative(script, now, m) then Wrap(-PositionRead(Cleared(script, now, m)), 4)
    else if Obeys(script, now, m) then 0
    else Offset(m.table)
  }

  lemma OffsetAfterZero(script: Script, now: nat, m: Motor)
    ensures Offset(AfterZero(script, now, m).table) == RegisterAfter(script, now, m)
    ensures Offset(Cleared(script, now, m).table) == if Obeys(script, now, m) then 0 else Offset(m.table)
  {
    hide Offset, Wrap, PositionRead, Stored;
    WrapZero();
    OffsetStored(m, 0);
    var m1 := Cleared(script, now, m);
    OffsetStored(m1, -PositionRead(m1));
  }

  /**
   set_zero on every script. The position afterwards reads tick 0 exactly when the negative was
   stored over a clear offset or, failing that, the position read 0 already. The cache agrees with
   the register exactly when: after a successful call, the negative written was stored and fits (the
   position was not the least int32) or, not stored, is what the register holds; after a failed one,
   the old cache happens to be the register's value.
   */
  lemma SetZeroOnEveryScript(script: Script, b: BusState, w: World, id: Id)
    requires |b.homing| == |b.joints| && id in w.motors && exists j :: j in b.joints && j.id == id
    ensures var (ok, b', w') := SetZero(script, b, w, id);
            var m := w.motors[id];
            var m1, stored := Cleared(script, w.now, m), StoresNegative(script, w.now, m);
            && id in w'.motors && |b'.homing| == |b'.joints|
            && (PositionRead(w'.motors[id]) == 0 <==>
                  if stored then Offset(m1.table) == 0 else PositionRead(m1) == 0)
            && (CacheFresh(b', w'.motors[id], id) <==>
                  if !ok then CacheHolds(b, id, RegisterAfter(script, w.now, m))
                  else if stored then PositionRead(m1) != MIN_INT32
                  else Offset(m1.table) == -PositionRead(m1))
  {
    hide SetZero, PositionRead, Offset, Wrap, OffsetAngle, Stored, Obeys, StoresNegative;
    SetZeroOutcome(script, b, w, id);
    var (ok, b', w') := SetZero(script, b, w, id);
    var m := w.motors[id];
    var m1 := Cleared(script, w.now, m);
    OffsetAfterZero(script, w.now, m);
    NegatedPosition(m1);
    if ok {
      NegativeFits(m1);
      CachedIsFresh(b, w'.motors[id], id, -PositionRead(m1));
    }
  }

  lemma NegativeFits(m: Motor)
    ensures Wrap(-PositionRead(m), 4) == -PositionRead(m) <==> PositionRead(m) != MIN_INT32
  {
    hide PositionRead, Wrap;
    Modulus4();
    PositionInRange(m);
    WrapSpec(-PositionRead(m), 4);
  }

  lemma CachedIsFresh(b: BusState, m: Motor, id: Id, ticks: int)
    requires |b.homing| == |b.joints| && exists j :: j in b.joints && j.id == id
    ensures CacheFresh(b.(homing := Cached(b.joints, b.homing, id, OffsetAngle(ticks))), m, id) <==>
            Offset(m.table) == ticks
  {
    hide OffsetAngle, Offset;
    OffsetAngleInjective(ticks, Offset(m.table));
    var j :| j in b.joints && j.id == id;
    var i :| 0 <= i < |b.joints| && b.joints[i] == j;
    assert Cached(b.joints, b.homing, id, OffsetAngle(ticks))[i] == OffsetAngle(ticks);
  }

  /** The call is answered, and the motor declines neither write except for having torque on. */
  predicate PlainCall(script: Script, w: World, id: Id) {
    && id in w.motors && ZeroAnswered(script, w.now)
    && !script(w.now).refuses && !script(w.now + 2).refuses
  }

  lemma PlainCallMotor(script: Script, w: World, id: Id)
    requires PlainCall(script, w, id)
    ensures var m := w.motors[id];
            && (TorqueOn(m) ==> !StoresNegative(script, w.now, m) && Cleared(script, w.now, m) == m)
            && (!TorqueOn(m) ==> StoresNegative(script, w.now, m) && Cleared(script, w.now, m) == WithOffset(m, 0))
  {
  }

  /**
   Torque decides. An answered set_zero succeeds either way, with the shaft still and no other motor
   touched. The position then reads tick 0 exactly when torque was off or it read 0 before; with
   torque on no motor changes at all; with torque off a second call changes nothing more.
   */
  lemma SetZeroZeroes(script: Script, b: BusState, w: World, id: Id)
    requires |b.homing| == |b.joints| && PlainCall(script, w, id)
    ensures var (ok, b', w') := SetZero(script, b, w, id);
            && ok && id in w'.motors && w'.motors[id].shaft == w.motors[id].shaft
            && (PositionRead(w'.motors[id]) == 0 <==> !TorqueOn(w.motors[id]) || PositionRead(w.motors[id]) == 0)
            && (TorqueOn(w.motors[id]) ==> w'.motors == w.motors)
            && (forall other :: other in w.motors && other != id ==>
                  other in w'.motors && w'.motors[other] == w.motors[other])
            && (!TorqueOn(w.motors[id]) && PlainCall(script, w', id) ==>
                  SetZero(script, b', w', id).1 == b' && SetZero(script, b', w', id).2.motors == w'.motors)
  {
    hide SetZero, PositionRead, Encode, Overlay, Wrap, Offset, StoresNegative;
    PlainCallMotor(script, w, id);
    SetZeroOutcome(script, b, w, id);
    var (ok, b', w') := SetZero(script, b, w, id);
    var m := w.motors[id];
    var p := Wrap(m.shaft, 4);
    CancelledPosition(m);
    OffsetOverwritten(m, 0, -p);
    if !TorqueOn(m) && PlainCall(script, w', id) {
      OffsetKeepsTorque(m, -p);
      PlainCallMotor(script, w', id);
      SetZeroOutcome(script, b', w', id);
      OffsetOverwritten(m, -p, 0);
      OffsetOverwritten(m, -p, -p);
      assert Cached(b.joints, b'.homing, id, OffsetAngle(-p)) == b'.homing;
    }
  }

  /**
   The cache after such a call: with torque off it agrees with the register exactly when the shaft's
   count does not wrap to the least int32; with torque on, where nothing was stored, exactly when the
   register held the negated position already. Other joints' caches are untouched.
   */
  lemma SetZeroCaches(script: Script, b: BusState, w: World, id: Id)
    requires |b.homing| == |b.joints| && PlainCall(script, w, id) && exists j :: j in b.joints && j.id == id
    ensures var (ok, b', w') := SetZero(script, b, w, id);
            var m := w.motors[id];
            && ok && id in w'.motors && |b'.homing| == |b'.joints|
            && (CacheFresh(b', w'.motors[id], id) <==>
                  if TorqueOn(m) then Offset(m.table) == -PositionRead(m) else Wrap(m.shaft, 4) != MIN_INT32)
            && forall i :: 0 <= i < |b.joints| && b.joints[i].id != id ==> b'.homing[i] == b.homing[i]
  {
    hide SetZero, PositionRead, OffsetAngle, Encode, Overlay, Wrap, Offset, StoresNegative, CacheFresh;
    PlainCallMotor(script, w, id);
    SetZeroOutcome(script, b, w, id);
    SetZeroOnEveryScript(script, b, w, id);
    CancelledPosition(w.motors[id]);
  }

  /**
   set_zero of the broadcast id is a failed call at its worst. The read in its middle is never answered,
   so it returns false and keeps the caches, but every motor with torque off that hears the first write
   has lost its offset.
   */
  lemma BroadcastSetZero(script: Script, b: BusState, w: World)
    requires |b.homing| == |b.joints|
    ensures var (ok, b', w') := SetZero(script, b, w, BROADCAST);
            && !ok && b' == b && w'.motors.Keys == w.motors.Keys
            && forall id :: id in w.motors ==>
                 w'.motors[id] == if script(w.now).arrives && id !in script(w.now).silent && !TorqueOn(w.motors[id])
                                  then WithOffset(w.motors[id], 0) else w.motors[id]
  {
  }

  /** A call for an id that nobody has, nor all, fails and changes nothing. */
  lemma UnknownSetZero(script: Script, b: BusState, w: World, target: Id)
    requires |b.homing| == |b.joints| && target !in w.motors && target != BROADCAST
    ensures var (ok, b', w') := SetZero(script, b, w, target); !ok && b' == b && w'.motors == w.motors
  {
  }

  /** The offset register of a motor after a failed call for any target. */
  function RegisterAfterFailure(script: Script, w: World, target: Id, id: Id): int
    requires id in w.motors
  {
    var l, m := script(w.now), w.motors[id];
    if target == id then RegisterAfter(script, w.now, m)
    else if target == BROADCAST && l.arrives && id !in l.silent && !TorqueOn(m) then 0
    else Offset(m.table)
  }

  /**
   A call fails exactly when one of its three transactions is not answered, or its target is no motor of
   the line. It then never touches the cache, whatever it stored: the register of a motor addressed
   alone holds the negated position if the third reply alone was lost, zero if the first write got
   through, or its old value; that of a motor that stored the first write of a broadcast is zero; and
   the cache agrees exactly when it holds that.
   */
  lemma FailedSetZero(script: Script, b: BusState, w: World, target: Id, id: Id)
    requires |b.homing| == |b.joints| && id in w.motors
    ensures !SetZero(script, b, w, target).0 <==> target !in w.motors || !ZeroAnswered(script, w.now)
    ensures !SetZero(script, b, w, target).0 ==>
              var (ok, b', w') := SetZero(script, b, w, target);
              var register := RegisterAfterFailure(script, w, target, id);
              && b' == b && id in w'.motors && Offset(w'.motors[id].table) == register
              && (CacheFresh(b', w'.motors[id], id) <==> CacheHolds(b, id, register))
  {
    hide SetZero, OffsetAngle, Offset, RegisterAfter, AfterZero, Wrap, WithOffset;
    if target in w.motors {
      SetZeroOutcome(script, b, w, target);
      OffsetAfterZero(script, w.now, w.motors[target]);
    } else if target == BROADCAST {
      BroadcastSetZero(script, b, w);
      WrapZero();
      OffsetStored(w.motors[id], 0);
    } else {
      UnknownSetZero(script, b, w, target);
    }
  }

  /**
   The pose set_zero defines is not 0 rad. After an answered call with torque off, the next read that
   hears the joint reports -pi for it.
   */
  lemma ZeroPoseIsMinusPi(script: Script, b: BusState, w: World, i: nat, b1: BusState, w1: World)
    requires Ready(b) && i < |b.joints| && PlainCall(script, w, b.joints[i].id)
    requires !TorqueOn(w.motors[b.joints[i].id])
    requires b1 == SetZero(script, b, w, b.joints[i].id).1 && w1 == SetZero(script, b, w, b.joints[i].id).2
    requires Answered(script, w1.now) && Heard(script, w1, b.joints[i].id)
    ensures Ready(b1) && |ReadAll(script, b1, w1).1| == |b.joints|
    ensures ReadAll(script, b1, w1).1[i].valid && ReadAll(script, b1, w1).1[i].position == -M_PI
  {
    var id := b.joints[i].id;
    SetZeroZeroes(script, b, w, id);
    assert Ready(b1);
    hide SetZero, ReadAll, TickToRad;
    SyncReadRefinesRegisterReads(script, b1, w1, i);
    CentreAndZero();
  }

  /**
   What the reported offset is for. While a heard joint's cache is right, the reported position less the
   reported offset is the angle of its shaft alone, exactly when shaft and offset add up without
   wrapping.
   */
  lemma PositionLessOffset(script: Script, b: BusState, w: World, i: nat)
    requires Ready(b) && Answered(script, w.now) && i < |b.joints| && Heard(script, w, b.joints[i].id)
    requires CacheFresh(b, w.motors[b.joints[i].id], b.joints[i].id)
    ensures var out, m := ReadAll(script, b, w).1, w.motors[b.joints[i].id];
            && |out| == |b.joints| && out[i].valid
            && (out[i].position - out[i].homingOffset == (m.shaft as real - 2048.0) * (2.0 * M_PI / 4096.0) <==>
                  InSignedRange(m.shaft + Offset(m.table), 4))
  {
    var id := b.joints[i].id;
    var m := w.motors[id];
    hide ReadAll, TickToRad, RawToRadPerS, OffsetAngle, Offset, PositionRead, InSignedRange, Unsigned, Present, Encode;
    HeardReport(script, b, w, i);
    PositionWithoutWrap(m);
    ShaftAngle(PositionRead(m), Offset(m.table), m.shaft);
  }

  lemma HeardReport(script: Script, b: BusState, w: World, i: nat)
    requires Ready(b) && Answered(script, w.now) && i < |b.joints| && Heard(script, w, b.joints[i].id)
    ensures var out := ReadAll(script, b, w).1;
            && |out| == |b.joints| && out[i].valid && out[i].homingOffset == b.homing[i]
            && out[i].position == TickToRad(PositionRead(w.motors[b.joints[i].id]))
  {
    hide ReadAll, TickToRad, RawToRadPerS, RegisterValue, Unsigned, Present;
    SyncReadRefinesRegisterReads(script, b, w, i);
  }

  lemma PositionWithoutWrap(m: Motor)
    ensures PositionRead(m) == m.shaft + Offset(m.table) <==> InSignedRange(m.shaft + Offset(m.table), 4)
  {
    hide PositionRead, Offset, Wrap;
    PositionIsShaftPlusOffset(m);
    WrapSpec(m.shaft + Offset(m.table), 4);
  }

  lemma ShaftAngle(position: int, offset: int, shaft: int)
    ensures TickToRad(position) - OffsetAngle(offset) == (shaft as real - 2048.0) * (2.0 * M_PI / 4096.0)
       <==> position == shaft + offset
  {
    var scale := 2.0 * M_PI / 4096.0;
    assert TickToRad(position) == (position as real - 2048.0) * scale;
    if position != shaft + offset {
      assert (position - shaft - offset) as real * scale != 0.0;
    }
  }

  // ---------- the cache otherwise

  lemma OffsetAsRead(m: Motor)
    ensures RegisterValue(m, HOMING_OFFSET, 4) == Offset(m.table)
  {
    assert Present(m)[HOMING_OFFSET..HOMING_OFFSET + 4] == m.table[HOMING_OFFSET..HOMING_OFFSET + 4];
  }

  lemma {:induction false} HomingReads(script: Script, w: World, joints: seq<JointSpec>, i: nat)
    requires i < |joints| && joints[i].id in w.motors
    ensures var (homing, w') := ReadHoming(script, w, joints);
            var sent := New(w, w');
            && |sent| == |joints| && sent[i].packet == Read(joints[i].id, HOMING_OFFSET, 4)
            && homing[i] == if sent[i].acked then OffsetAngle(Offset(w.motors[joints[i].id].table)) else 0.0
    decreases |joints|
  {
    hide OffsetAngle, TicksToAngle, Signed, Encode, Overlay, Offset, Present;
    HomingReadCount(script, w, joints);
    var (ok, raw, w1) := ReadRegister(script, w, joints[0].id, HOMING_OFFSET, 4);
    var (rest, w') := ReadHoming(script, w1, joints[1..]);
    HomingReadCount(script, w1, joints[1..]);
    ReadHomingFacts(script, w1, joints[1..]);
    assert Extends(w, w1) && New(w, w1) == [w1.trace[|w.trace|]];
    ExtendsTwice(w, w1, w');
    if i > 0 {
      HomingReads(script, w1, joints[1..], i - 1);
    } else {
      OffsetAsRead(w.motors[joints[0].id]);
      ReadRegisterValue(script, w, joints[0].id, HOMING_OFFSET, 4);
      OffsetScale(Offset(w.motors[joints[0].id].table));
    }
  }

  lemma {:induction false} HomingReadCount(script: Script, w: World, joints: seq<JointSpec>)
    ensures |New(w, ReadHoming(script, w, joints).1)| == |joints|
    decreases |joints|
  {
    if joints != [] {
      var w1 := ReadRegister(script, w, joints[0].id, HOMING_OFFSET, 4).2;
      HomingReadCount(script, w1, joints[1..]);
      ReadHomingFacts(script, w1, joints[1..]);
    }
  }

  /**
   A successful configure ends with one offset read a joint, and caches for each joint the angle its
   motor's register holds then, or 0 if that read was not answered.
   */
  lemma ConfigureCachesOffsets(script: Script, parse: Parser, b: BusState, w: World, specs: seq<JointSpec>, i: nat)
    requires Configure(script, parse, b, w, specs).0 && i < |specs|
    ensures var (ok, b', w') := Configure(script, parse, b, w, specs);
            var sent, id := New(w, w'), specs[i].id;
            && |b'.homing| == |specs| <= |sent| && id in w'.motors
            && var read := sent[|sent| - |specs| + i];
               && read.packet == Read(id, HOMING_OFFSET, 4)
               && b'.homing[i] ==
                  if read.acked then OffsetAngle(Offset(w'.motors[id].table)) else 0.0
  {
    EveryJointAnswered(script, parse, b, w, specs, i);
    ConfigureHoming(script, parse, b, w, specs);
    hide Configure, OffsetAngle, Offset, PingAll, Execute, ReadHoming, StagesOf, New, SetupOrders;
    PortWasOpen(script, parse, b, w, specs);
    ConfigureStages(script, parse, b, w, specs);
    var s := StagesOf(script, parse, w, specs);
    assert s.joints[i].id == specs[i].id;
    HomingReads(script, s.w2, s.joints, i);
  }

  lemma ConfigureHoming(script: Script, parse: Parser, b: BusState, w: World, specs: seq<JointSpec>)
    requires Configure(script, parse, b, w, specs).0
    ensures var s := StagesOf(script, parse, w, specs);
            (Configure(script, parse, b, w, specs).1.homing, s.w3) == ReadHoming(script, s.w2, s.joints)
  {
  }

  /** What the offset register holds once `data` is stored at `address`, byte by byte. */
  function OffsetBytesAfter(t: Table, address: nat, data: seq<Byte>): (r: seq<Byte>)
    ensures |r| == 4
  {
    seq(4, k requires 0 <= k < 4 =>
      var a := HOMING_OFFSET + k; if address <= a < address + |data| then data[a - address] else t[a])
  }

  /** A write agrees with the offset register: wherever it reaches one of its bytes, that byte is the same. */
  predicate AgreesWithOffset(t: Table, address: nat, data: seq<Byte>) {
    forall a :: HOMING_OFFSET <= a < HOMING_OFFSET + 4 && address <= a < address + |data| ==> t[a] == data[a - address]
  }

  lemma SignedInjective(a: seq<Byte>, b: seq<Byte>)
    requires |a| == |b| > 0
    ensures Signed(a) == Signed(b) <==> a == b
  {
    hide Signed, Wrap;
    SignedResidue(a);
    SignedResidue(b);
    EncodeUnsigned(a);
    EncodeUnsigned(b);
  }

  lemma SignedResidue(bs: seq<Byte>)
    requires |bs| > 0
    ensures Signed(bs) % Modulus(|bs|) == Unsigned(bs)
  {
    WrapSpec(Unsigned(bs), |bs|);
    SmallMod(Unsigned(bs), Modulus(|bs|));
  }

  lemma OffsetAfterStore(m: Motor, address: nat, data: seq<Byte>)
    requires address + |data| <= SPAN
    ensures Offset(Stored(m, address, data).table) == Signed(OffsetBytesAfter(m.table, address, data))
    ensures Offset(Stored(m, address, data).table) == Offset(m.table) <==> AgreesWithOffset(m.table, address, data)
  {
    var before, after := m.table[HOMING_OFFSET..HOMING_OFFSET + 4], OffsetBytesAfter(m.table, address, data);
    var t := Stored(m, address, data).table;
    assert t[HOMING_OFFSET..HOMING_OFFSET + 4] == after;
    SignedInjective(before, after);
    hide Signed;
    if AgreesWithOffset(m.table, address, data) {
      assert after == before;
    }
    if after == before {
      forall a | HOMING_OFFSET <= a < HOMING_OFFSET + 4 && address <= a < address + |data|
        ensures m.table[a] == data[a - address]
      {
        assert after[a - HOMING_OFFSET] == before[a - HOMING_OFFSET];
      }
    }
  }

  /** A right cache is right for another state of the motor exactly when the register reads the same. */
  lemma FreshForAnother(b: BusState, m: Motor, m': Motor, id: Id)
    requires |b.homing| == |b.joints| && CacheFresh(b, m, id) && exists j :: j in b.joints && j.id == id
    ensures CacheFresh(b, m', id) <==> Offset(m'.table) == Offset(m.table)
  {
    hide OffsetAngle, Offset;
    OffsetAngleInjective(Offset(m.table), Offset(m'.table));
    var j :| j in b.joints && j.id == id;
    var i :| 0 <= i < |b.joints| && b.joints[i] == j;
  }

  /**
   A raw write goes past the cache, whichever motor it is sent to, where and how many bytes. It leaves
   the cache of a motor's joint right exactly when that motor stores nothing or only bytes that its
   offset register already holds; if the cache was wrong before, exactly when it happens to be what the
   bytes stored make of the register.
   */
  lemma RawWriteBypassesCache(script: Script, b: BusState, w: World, target: Id, address: Address, size: nat,
                              value: int, id: Id)
    requires |b.homing| == |b.joints| && id in w.motors && exists j :: j in b.joints && j.id == id
    ensures var w1 := WriteRegister(script, w, target, address, size, value).1;
            var m, data := w.motors[id], Encode(value, size);
            var stores := SupportedSize(size) && Stores(script(w.now), w, target, address, id);
            && id in w1.motors
            && (CacheFresh(b, m, id) ==>
                  (CacheFresh(b, w1.motors[id], id) <==> !stores || AgreesWithOffset(m.table, address, data)))
            && (stores ==>
                  (CacheFresh(b, w1.motors[id], id) <==>
                     CacheHolds(b, id, Signed(OffsetBytesAfter(m.table, address, data)))))
            && (stores && address == HOMING_OFFSET && size == 4 ==>
                  (CacheFresh(b, w1.motors[id], id) <==> CacheHolds(b, id, Wrap(value, 4))))
            && (!stores || Disjoint(address, size, HOMING_OFFSET, 4) ==>
                  (CacheFresh(b, w1.motors[id], id) <==> CacheFresh(b, w.motors[id], id)))
  {
    hide OffsetAngle, Wrap, Encode, WriteRegister, Stores, Offset, Overlay, Signed;
    if SupportedSize(size) {
      WriteOnMotor(script, w, target, address, size, value, id);
    } else {
      UnsupportedWrite(script, w, target, address, size, value);
    }
    var m, data := w.motors[id], Encode(value, size);
    if SupportedSize(size) && Stores(script(w.now), w, target, address, id) {
      OffsetAfterStore(m, address, data);
      if CacheFresh(b, m, id) { FreshForAnother(b, m, Stored(m, address, data), id); }
      OffsetStored(m, value);
    }
  }

  lemma UnsupportedWrite(script: Script, w: World, target: Id, address: Address, size: nat, value: int)
    requires !SupportedSize(size)
    ensures WriteRegister(script, w, target, address, size, value) == (false, w)
  {
  }
}
