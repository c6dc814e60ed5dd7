/**
 From the leader's encoder to the follower's goal register: what the leader's driver reports, the
 mirror maps and the follower's driver sends is the leader's tick itself, or its reflection about
 the centre for a joint mounted the other way round.
 */
module TeleopProofs {
  import opened Bytes
  import opened Units
  import opened ControlTable
  import opened Wire
  import opened BusModel
  import opened DriverModel
  import opened ConfigureProofs
  import opened FeedbackProofs
  import opened ActivationProofs
  import R = Rounding
  import M = Mirror

  /** The follower tick for a leader tick, by the joint's sign. */
  function Reflected(tick: int, reversed: bool): int {
    if reversed then 4096 - tick else tick
  }

  function SignOf(reversed: bool): real { if reversed then -1.0 else 1.0 }

  /** An offset of so many ticks. */
  function OffsetOf(k: int): real { k as real * (2.0 * M_PI / 4096.0) }

  lemma MappedAngle(tick: int, reversed: bool, k: int)
    ensures SignOf(reversed) * TickToRad(tick) + OffsetOf(k) == TickToRad(Reflected(tick, reversed) + k)
  {
  }

  /**
   Over exact reals, for a joint mounted either way and with an offset of whole ticks: the goal tick is
   the reflected tick plus the offset exactly when that fits the register.
   */
  lemma MirroredTick(tick: int, reversed: bool, k: int)
    ensures RadToTick(SignOf(reversed) * TickToRad(tick) + OffsetOf(k)) == Reflected(tick, reversed) + k
       <==> InSignedRange(Reflected(tick, reversed) + k, 4)
  {
    hide TickToRad, RadToTick;
    MappedAngle(tick, reversed, k);
    TickRoundTrip(Reflected(tick, reversed) + k);
  }

  /** With every double operation off by up to its unit roundoff the same holds. */
  lemma MirroredTickRounded(tick: int, reversed: bool, e: R.Errors)
    requires e.Valid() && InSignedRange(tick, 4)
    ensures R.RadToTick(R.Mapped(SignOf(reversed), R.TickToRad(tick, e), 0.0, e), e) == Reflected(tick, reversed)
       <==> InSignedRange(Reflected(tick, reversed), 4)
  {
    hide R.RadToTick, R.Mapped, R.TickToRad, TickToRad, R.Near;
    Modulus4();
    MappedAngle(tick, reversed, 0);
    R.TickToRadNear(tick, e);
    R.MappedNear(SignOf(reversed), R.TickToRad(tick, e), TickToRad(tick), e);
    R.RadToTickNear(R.Mapped(SignOf(reversed), R.TickToRad(tick, e), 0.0, e), Reflected(tick, reversed), e);
    WrapSpec(Reflected(tick, reversed), 4);
  }

  /**
   Register to register in double arithmetic: the bytes of the goal that the rounded driver, mirror and
   driver compute decode to the reflection of the tick in the leader's register, whenever that is an
   int32, and to another value otherwise.
   */
  lemma RoundedTickReachesRegister(leader: Motor, reversed: bool, e: R.Errors)
    requires e.Valid()
    ensures var tick := RegisterValue(leader, PRESENT_POSITION, 4);
            Signed(GoalBytes(R.RadToTick(R.Mapped(SignOf(reversed), R.TickToRad(tick, e), 0.0, e), e)))
              == Reflected(tick, reversed)
            <==> InSignedRange(Reflected(tick, reversed), 4)
  {
    hide R.RadToTick, R.Mapped, R.TickToRad, GoalBytes, Signed, RegisterValue;
    var tick := RegisterValue(leader, PRESENT_POSITION, 4);
    RegisterValueInRange(leader, PRESENT_POSITION, 4);
    MirroredTickRounded(tick, reversed, e);
    var goal := R.RadToTick(R.Mapped(SignOf(reversed), R.TickToRad(tick, e), 0.0, e), e);
    GoalInRange(R.Mapped(SignOf(reversed), R.TickToRad(tick, e), 0.0, e), e);
    GoalBytesRoundTrip(goal);
  }

  lemma GoalInRange(rad: real, e: R.Errors)
    ensures InSignedRange(R.RadToTick(rad, e), 4)
  {
  }

  /** A joint of the mirror that copies or reverses, with an offset of whole ticks. */
  predicate PlainJoint(c: M.Config, i: nat, reversed: bool, k: int)
    requires c.Valid()
  {
    i < |c.order| && c.signs[i] == Rad(SignOf(reversed)) && c.offsets[i] == Rad(OffsetOf(k))
  }

  /**
   One step of teleoperation over two serial lines. The leader's component has pulled the tick its
   encoder holds; the mirror, armed, hears the message with that state and publishes; the follower's
   component is commanded what was published. Then the follower's goal packet has one entry for the
   joint's motor, and its bytes are the reflected tick plus the offset exactly when that is an int32.
   */
  lemma LeaderTickReachesFollower(leaderLine: Script, leader: Component, li: nat,
                                  c: M.Config, s: M.MirrorState, msg: M.Message, mi: nat, reversed: bool, k: int,
                                  followerLine: Script, follower: Component, fi: nat)
    // the leader read its encoder and reported it
    requires Up(leader) && DistinctNames(leader.names) && li < |leader.names| && Answered(leaderLine, leader.world.now)
    requires Heard(leaderLine, leader.world, leader.bus.joints[li].id)
    requires c.Valid() && mi < |c.order| && c.order[mi] == leader.names[li]
    requires M.AllPresent(c, M.Dict(M.Pairs(msg)))
    requires StateOf(Pull(leaderLine, leader).1.states, leader.names[li]) == M.Dict(M.Pairs(msg))[c.order[mi]]
    // the mirror is live
    requires s.armed && s.follower.Some? && PlainJoint(c, mi, reversed, k)
    // the controller passed the published command on
    requires Up(follower) && DistinctIds(follower.bus.joints)
    requires fi < |follower.names| && follower.names[fi] == c.order[mi] && follower.bus.joints[fi].commandable
    requires RequestOf(follower.requested, c.order[mi]) == M.Mapped(c, M.Dict(M.Pairs(msg)))[mi]
    ensures var tick := RegisterValue(leader.world.motors[leader.bus.joints[li].id], PRESENT_POSITION, 4);
            var sent := New(follower.world, WriteCycle(followerLine, follower).world);
            && M.OnLeader(c, s, msg).published == s.published + [M.Mirrored(M.Mapped(c, M.Dict(M.Pairs(msg))))]
            && |sent| == 1 && sent[0].packet.SyncWrite? && OnePerId(sent[0].packet.entries)
            && exists e :: e in sent[0].packet.entries && e.id == follower.bus.joints[fi].id &&
                 (Signed(e.data) == Reflected(tick, reversed) + k <==> InSignedRange(Reflected(tick, reversed) + k, 4))
  {
    hide WriteCycle, TickToRad, RegisterValue, Signed, New, OnePerId, Heard, Pull, Up, DistinctIds, DistinctNames;
    hide Answered, StateOf, RequestOf, SignOf, OffsetOf;
    UpSizes(leader);
    UpSizes(follower);
    HeardIsThere(leaderLine, leader.world, leader.bus.joints[li].id);
    hide M.Dict, M.Pairs, M.OnLeader, M.Mapped, M.AllPresent, InSignedRange, PlainJoint, Reflected;
    PulledState(leaderLine, leader, li);
    LiveMirror(c, s, msg);
    MirroredGoal(c, M.Dict(M.Pairs(msg)), mi, reversed, k,
                 RegisterValue(leader.world.motors[leader.bus.joints[li].id], PRESENT_POSITION, 4),
                 followerLine, follower, fi);
  }

  lemma UpSizes(d: Component)
    requires Up(d)
    ensures |d.names| == |d.bus.joints|
  {
  }

  lemma HeardIsThere(script: Script, w: World, id: Id)
    requires Heard(script, w, id)
    ensures id in w.motors
  {
  }

  lemma MirroredGoal(c: M.Config, dict: map<string, Reading>, mi: nat, reversed: bool, k: int, tick: int,
                     script: Script, d: Component, i: nat)
    requires c.Valid() && M.AllPresent(c, dict) && PlainJoint(c, mi, reversed, k) && mi < |c.order|
    requires dict[c.order[mi]] == Rad(TickToRad(tick))
    requires Up(d) && DistinctIds(d.bus.joints) && i < |d.names| && d.bus.joints[i].commandable
    requires RequestOf(d.requested, d.names[i]) == M.Mapped(c, dict)[mi]
    ensures var sent, goal := New(d.world, WriteCycle(script, d).world), Reflected(tick, reversed) + k;
            && |sent| == 1 && sent[0].packet.SyncWrite? && OnePerId(sent[0].packet.entries)
            && exists e :: e in sent[0].packet.entries && e.id == d.bus.joints[i].id &&
                           (Signed(e.data) == goal <==> InSignedRange(goal, 4))
  {
    hide WriteCycle, TickToRad, RadToTick, Signed, New, OnePerId, Up, DistinctIds;
    hide M.Mapped, M.AllPresent, InSignedRange, PlainJoint, Reflected;
    PlainGoal(c, dict, mi, reversed, k, tick);
    GoalEntry(script, d, i, M.Mapped(c, dict)[mi].value, Reflected(tick, reversed) + k);
  }

  /** A write cycle with an angle requested whose tick is `goal` exactly when that fits. */
  lemma GoalEntry(script: Script, d: Component, i: nat, rad: real, goal: int)
    requires Up(d) && DistinctIds(d.bus.joints) && i < |d.names| && d.bus.joints[i].commandable
    requires RequestOf(d.requested, d.names[i]) == Rad(rad)
    requires RadToTick(rad) == goal <==> InSignedRange(goal, 4)
    ensures var sent := New(d.world, WriteCycle(script, d).world);
            && |sent| == 1 && sent[0].packet.SyncWrite? && OnePerId(sent[0].packet.entries)
            && exists e :: e in sent[0].packet.entries && e.id == d.bus.joints[i].id &&
                           (Signed(e.data) == goal <==> InSignedRange(goal, 4))
  {
    hide WriteCycle, RadToTick, GoalBytes, Signed, New, OnePerId, Up, DistinctIds, InSignedRange;
    SentHeldTick(script, d, i);
    GoalRadInRange(rad);
    GoalBytesRoundTrip(RadToTick(rad));
  }

  lemma GoalRadInRange(rad: real)
    ensures InSignedRange(RadToTick(rad), 4)
  {
  }

  lemma LiveMirror(c: M.Config, s: M.MirrorState, msg: M.Message)
    requires c.Valid() && M.AllPresent(c, M.Dict(M.Pairs(msg))) && s.armed && s.follower.Some?
    ensures M.OnLeader(c, s, msg).published == s.published + [M.Mirrored(M.Mapped(c, M.Dict(M.Pairs(msg))))]
  {
  }

  lemma PlainGoal(c: M.Config, dict: map<string, Reading>, i: nat, reversed: bool, k: int, tick: int)
    requires c.Valid() && M.AllPresent(c, dict) && PlainJoint(c, i, reversed, k)
    requires dict[c.order[i]] == Rad(TickToRad(tick))
    ensures M.Mapped(c, dict)[i].Rad?
    ensures RadToTick(M.Mapped(c, dict)[i].value) == Reflected(tick, reversed) + k <==>
            InSignedRange(Reflected(tick, reversed) + k, 4)
  {
    hide TickToRad, RadToTick, M.Mapped, InSignedRange;
    PlainMapped(c, dict, i, reversed, k, tick);
    MirroredTick(tick, reversed, k);
  }

  lemma PlainMapped(c: M.Config, dict: map<string, Reading>, i: nat, reversed: bool, k: int, tick: int)
    requires c.Valid() && M.AllPresent(c, dict) && PlainJoint(c, i, reversed, k)
    requires dict[c.order[i]] == Rad(TickToRad(tick))
    ensures M.Mapped(c, dict)[i] == Rad(SignOf(reversed) * TickToRad(tick) + OffsetOf(k))
  {
    hide TickToRad;
  }
}
