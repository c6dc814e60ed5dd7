/** What the mirror guarantees over every interleaving of leader and follower messages. */
module MirrorProofs {
  import opened Wrappers
  import opened Units
  import opened Mirror

  datatype Event = Leader(msg: Message) | Follower(msg: Message)

  /** A node that died answers nothing more. */
  function Step(c: Config, s: MirrorState, e: Event): MirrorState
    requires c.Valid()
  {
    if s.crashed then s
    else match e case Leader(msg) => OnLeader(c, s, msg) case Follower(msg) => OnFollower(c, s, msg)
  }

  function Run(c: Config, s: MirrorState, events: seq<Event>): MirrorState
    requires c.Valid()
    decreases |events|
  {
    if events == [] then s else Run(c, Step(c, s, events[0]), events[1..])
  }

  lemma {:induction false} RunSnoc(c: Config, s: MirrorState, events: seq<Event>, e: Event)
    requires c.Valid()
    ensures Run(c, s, events + [e]) == Step(c, Run(c, s, events), e)
    decreases |events|
  {
    if events == [] {
      assert [] + [e] == [e];
    } else {
      assert (events + [e])[1..] == events[1..] + [e];
      RunSnoc(c, Step(c, s, events[0]), events[1..], e);
    }
  }

  // ---------- order of what is published

  predicate DistinctOrder(order: seq<string>) {
    forall i, j :: 0 <= i < j < |order| ==> order[i] != order[j]
  }

  /**
   The trace is at most one gripper command and after it only mirrored ones; the gripper command is
   there exactly when the gripper is one of the joints and a follower has been heard; mirrored
   commands are there exactly when the mirror is armed; before a follower there is nothing.
   */
  predicate Orderly(c: Config, s: MirrorState) {
    && (forall k :: 1 <= k < |s.published| ==> s.published[k].Mirrored?)
    && (s.gripperOpened <==> s.follower.Some?)
    && ((|s.published| > 0 && s.published[0].OpenGripper?) <==> s.gripperOpened && c.gripperJoint in c.order)
    && (s.armed <==> exists k :: 0 <= k < |s.published| && s.published[k].Mirrored?)
    && (s.follower.None? ==> s.published == [])
    && (s.armed ==> s.follower.Some?)
  }

  lemma StepOrderly(c: Config, s: MirrorState, e: Event)
    requires c.Valid() && Orderly(c, s)
    ensures var s' := Step(c, s, e);
            && Orderly(c, s') && (s.armed ==> s'.armed) && s.published <= s'.published
            && |s'.published| <= |s.published| + 1
            && (c.order != [] ==> s'.crashed == s.crashed)
  {
    hide Aligned, Mapped, Held, Dict, Pairs;
    var s' := Step(c, s, e);
    if |s'.published| > |s.published| {
      assert s'.published[|s.published|] == s'.published[|s'.published| - 1];
      assert forall k :: 0 <= k < |s.published| ==> s'.published[k] == s.published[k];
    }
  }

  /** Every run from the start is orderly; what was published and being armed are never taken back. */
  lemma {:induction false} EveryRunIsOrderly(c: Config, events: seq<Event>, k: nat)
    requires c.Valid() && k <= |events|
    ensures var before, after := Run(c, START, events[..k]), Run(c, START, events);
            && Orderly(c, after) && before.published <= after.published && (before.armed ==> after.armed)
            && (c.order != [] ==> !after.crashed)
    decreases |events|
  {
    var n := |events|;
    if n == 0 {
      assert events[..k] == events;
    } else {
      assert events == events[..n - 1] + [events[n - 1]];
      RunSnoc(c, START, events[..n - 1], events[n - 1]);
      EveryRunIsOrderly(c, events[..n - 1], if k < n then k else n - 1);
      assert k < n ==> events[..n - 1][..k] == events[..k];
      assert k == n ==> events[..k] == events;
      StepOrderly(c, Run(c, START, events[..n - 1]), events[n - 1]);
    }
  }

  /** The reference: the last follower message so far. */
  function LatestFollower(events: seq<Event>): Option<map<string, Reading>> {
    if events == [] then None
    else
      var last := events[|events| - 1];
      if last.Follower? then Some(Dict(Pairs(last.msg))) else LatestFollower(events[..|events| - 1])
  }

  // ---------- when it arms

  predicate LastOfName(order: seq<string>, i: int) {
    0 <= i < |order| && forall j :: i < j < |order| ==> order[j] != order[i]
  }

  lemma {:induction false} DictAt(pairs: seq<(string, Reading)>, i: nat)
    requires i < |pairs| && forall j :: i < j < |pairs| ==> pairs[j].0 != pairs[i].0
    ensures pairs[i].0 in Dict(pairs) && Dict(pairs)[pairs[i].0] == pairs[i].1
    decreases |pairs|
  {
    if i < |pairs| - 1 {
      DictAt(pairs[..|pairs| - 1], i);
    }
  }

  /** The last place of a name in the order; its gap is the one that counts. */
  function LastPlace(order: seq<string>, name: string): (i: nat)
    requires name in order
    ensures LastOfName(order, i) && order[i] == name
  {
    var n := |order| - 1;
    if order[n] == name then n else LastPlace(order[..n], name)
  }

  /** Python's max: a NaN in front stays, and otherwise the result compares below nothing. */
  lemma {:induction false} WorstFromIsMax(best: string, names: seq<string>, gaps: map<string, Reading>)
    requires best in gaps && forall n :: n in names ==> n in gaps
    ensures var r := WorstFrom(best, names, gaps);
            && (gaps[best].NaN? ==> r == best)
            && (gaps[best].Rad? ==>
                  && gaps[r].Rad? && !Greater(gaps[best], gaps[r])
                  && forall n :: n in names ==> !Greater(gaps[n], gaps[r]))
    decreases |names|
  {
    if names != [] {
      WorstFromIsMax(if Greater(gaps[names[0]], gaps[best]) then names[0] else best, names[1..], gaps);
    }
  }

  /**
   Exactly when a command is let through: the gap of the name that stands first is NaN, or every
   name's last gap is within tolerance or NaN.
   */
  lemma AlignedExactly(c: Config, cmd: seq<Reading>, follower: map<string, Reading>)
    requires |cmd| == |c.order| && c.order != []
    ensures Aligned(c, cmd, follower) <==>
            || Gap(c, cmd, follower, LastPlace(c.order, c.order[0])).NaN?
            || forall i :: LastOfName(c.order, i) ==> !Greater(Gap(c, cmd, follower, i), c.tolerance)
  {
    hide Gap, Dict, LastPlace;
    GapsNames(c, cmd, follower);
    var gaps := Gaps(c, cmd, follower);
    var worst := Worst(c.order, gaps);
    WorstFromIsMax(c.order[0], c.order[1..], gaps);
    forall i | LastOfName(c.order, i) ensures gaps[c.order[i]] == Gap(c, cmd, follower, i) {
      DictAt(seq(|c.order|, i requires 0 <= i < |c.order| => (c.order[i], Gap(c, cmd, follower, i))), i);
    }
    assert LastOfName(c.order, LastPlace(c.order, worst)) && LastOfName(c.order, LastPlace(c.order, c.order[0]));
    assert forall i :: LastOfName(c.order, i) ==> c.order[i] == c.order[0] || c.order[i] in c.order[1..];
  }

  /** A command that a disarmed mirror lets through, over the joints themselves. */
  predicate Passes(c: Config, leader: map<string, Reading>, follower: map<string, Reading>)
    requires c.Valid()
  {
    && c.order != [] && AllPresent(c, leader)
    && var cmd := Mapped(c, leader);
       || Gap(c, cmd, follower, LastPlace(c.order, c.order[0])).NaN?
       || forall i :: 0 <= i < |c.order| && LastOfName(c.order, i) ==> !Greater(Gap(c, cmd, follower, i), c.tolerance)
  }

  lemma StepArms(c: Config, s: MirrorState, e: Event)
    requires c.Valid() && !s.armed && !s.crashed
    ensures var s' := Step(c, s, e);
            s'.armed <==> e.Leader? && s.follower.Some? && Passes(c, Dict(Pairs(e.msg)), s.follower.value)
  {
    hide Aligned, Dict, Pairs, Mapped, Gap;
    if e.Leader? && s.follower.Some? && AllPresent(c, Dict(Pairs(e.msg))) && c.order != [] {
      AlignedExactly(c, Mapped(c, Dict(Pairs(e.msg))), s.follower.value);
    }
  }

  // ---------- the whole trace

  /** The reference: the first follower message. */
  function FirstFollower(events: seq<Event>): Option<map<string, Reading>> {
    if events == [] then None
    else
      var last := events[|events| - 1];
      match FirstFollower(events[..|events| - 1])
      case Some(f) => Some(f)
      case None => if last.Follower? then Some(Dict(Pairs(last.msg))) else None
  }

  /** The gripper command that opens the run: the first follower positions but for the gripper's. */
  function GripperPart(c: Config, events: seq<Event>): seq<Output> {
    var first := FirstFollower(events);
    if first.None? then [] else GripperOpening(c, first.value)
  }

  function GripperOpening(c: Config, follower: map<string, Reading>): seq<Output> {
    if c.gripperJoint !in c.order then []
    else [OpenGripper(Held(c, follower)[IndexOf(c.order, c.gripperJoint) := c.gripperOpen])]
  }

  /** The place of the message that arms the mirror: the first one to pass, after a follower message. */
  function ArmedAt(c: Config, events: seq<Event>): (r: Option<nat>)
    requires c.Valid()
    ensures r.Some? ==> r.value < |events|
  {
    if events == [] then None
    else
      var n := |events| - 1;
      match ArmedAt(c, events[..n])
      case Some(k) => Some(k)
      case None => if ArmsAfter(c, events[..n], events[n]) then Some(n) else None
  }

  predicate ArmsAfter(c: Config, events: seq<Event>, e: Event)
    requires c.Valid()
  {
    && e.Leader? && LatestFollower(events).Some?
    && Passes(c, Dict(Pairs(e.msg)), LatestFollower(events).value)
  }

  /** What live messages become: the mapped command of each leader message that names every joint. */
  function LiveCommands(c: Config, events: seq<Event>): seq<Output>
    requires c.Valid()
  {
    if events == [] then []
    else
      var n := |events| - 1;
      var leader := Dict(Pairs(events[n].msg));
      LiveCommands(c, events[..n]) +
      if events[n].Leader? && AllPresent(c, leader) then [Mirrored(Mapped(c, leader))] else []
  }

  function MirroredPart(c: Config, events: seq<Event>): seq<Output>
    requires c.Valid()
  {
    match ArmedAt(c, events) case None => [] case Some(k) => LiveCommands(c, events[k..])
  }

  /**
   Everything a run publishes, content and order: the gripper command, if there is one, and then the
   command of every leader message that names all joints, from the one that arms the mirror on.
   */
  lemma {:induction false} PublishedExactly(c: Config, events: seq<Event>)
    requires c.Valid()
    ensures var s := Run(c, START, events);
            && s.published == GripperPart(c, events) + MirroredPart(c, events)
            && (s.armed <==> ArmedAt(c, events).Some?)
    decreases |events|
  {
    hide Passes, Mapped, Held, Dict, Pairs, Step;
    var n := |events| - 1;
    if n >= 0 {
      var before, e := events[..n], events[n];
      assert events == before + [e];
      RunSnoc(c, START, before, e);
      PublishedExactly(c, before);
      EveryRunIsOrderly(c, before, 0);
      FollowerSoFar(c, before);
      PublishedStep(c, Run(c, START, before), before, e);
    }
  }

  /** A node that died had no joint to mirror; any other holds the latest follower positions. */
  lemma {:induction false} FollowerSoFar(c: Config, events: seq<Event>)
    requires c.Valid()
    ensures var s := Run(c, START, events);
            && Orderly(c, s) && (s.crashed ==> c.order == [] && !s.armed)
            && (!s.crashed ==>
                  && s.follower == LatestFollower(events)
                  && (s.follower.Some? <==> FirstFollower(events).Some?))
    decreases |events|
  {
    hide Dict, Pairs, OnLeader;
    EveryRunIsOrderly(c, events, 0);
    var n := |events| - 1;
    if n >= 0 {
      assert events == events[..n] + [events[n]];
      RunSnoc(c, START, events[..n], events[n]);
      FollowerSoFar(c, events[..n]);
      LeaderKeepsFollower(c, Run(c, START, events[..n]), events[n].msg);
    }
  }

  lemma LeaderKeepsFollower(c: Config, s: MirrorState, msg: Message)
    requires c.Valid()
    ensures var s' := OnLeader(c, s, msg);
            && s'.follower == s.follower
            && (s'.crashed <==> s.crashed || (c.order == [] && !s.armed && s.follower.Some?))
            && (s'.crashed && !s.crashed ==> !s'.armed)
  {
    hide Aligned, Dict, Pairs, Mapped;
  }

  /** What one event adds to the reference. */
  lemma MirroredStep(c: Config, before: seq<Event>, e: Event)
    requires c.Valid()
    ensures var events, leader := before + [e], Dict(Pairs(e.msg));
            && (ArmedAt(c, events).Some? <==> ArmedAt(c, before).Some? || ArmsAfter(c, before, e))
            && MirroredPart(c, events) == MirroredPart(c, before) +
                 if ArmedAt(c, events).Some? && e.Leader? && AllPresent(c, leader) then [Mirrored(Mapped(c, leader))]
                 else []
  {
    hide Passes, Mapped, Dict, Pairs;
    var events := before + [e];
    assert events[..|before|] == before && events[|before|] == e;
    if ArmedAt(c, events).Some? {
      var k := ArmedAt(c, events).value;
      assert events[k..][..|before| - k] == before[k..] && events[k..][|before| - k] == e;
    }
    assert LiveCommands(c, []) == [];
  }

  lemma GripperStep(c: Config, before: seq<Event>, e: Event)
    ensures var events := before + [e];
            if FirstFollower(before).Some? || e.Leader? then GripperPart(c, events) == GripperPart(c, before)
            else
              && GripperPart(c, before) == []
              && GripperPart(c, events) == GripperOpening(c, Dict(Pairs(e.msg)))
  {
    hide Held, Dict, Pairs;
    var events := before + [e];
    assert events[..|before|] == before && events[|before|] == e;
  }

  /** What one event publishes. */
  lemma StepPublishes(c: Config, s: MirrorState, e: Event)
    requires c.Valid() && Orderly(c, s) && !s.crashed
    ensures var s', heard := Step(c, s, e), Dict(Pairs(e.msg));
            && (s.armed ==> s'.armed) && (e.Follower? ==> s'.armed == s.armed)
            && s'.published == s.published +
                 if e.Leader? then if s'.armed && AllPresent(c, heard) then [Mirrored(Mapped(c, heard))] else []
                 else if s.follower.Some? then [] else GripperOpening(c, heard)
  {
    hide Aligned, Mapped, Held, Dict, Pairs;
  }

  /** What one event adds to the trace is what it adds to the reference. */
  lemma PublishedStep(c: Config, s: MirrorState, before: seq<Event>, e: Event)
    requires c.Valid() && s == Run(c, START, before) && Orderly(c, s) && (s.crashed ==> c.order == [] && !s.armed)
    requires !s.crashed ==>
               && s.follower == LatestFollower(before)
               && (s.follower.Some? <==> FirstFollower(before).Some?)
    requires s.published == GripperPart(c, before) + MirroredPart(c, before)
    requires s.armed <==> ArmedAt(c, before).Some?
    ensures var s', events := Step(c, s, e), before + [e];
            && s'.published == GripperPart(c, events) + MirroredPart(c, events)
            && (s'.armed <==> ArmedAt(c, events).Some?)
  {
    hide Passes, Mapped, Held, Dict, Pairs, OnLeader, OnFollower, Run;
    hide ArmedAt, MirroredPart, FirstFollower, LatestFollower, GripperPart;
    MirroredStep(c, before, e);
    GripperStep(c, before, e);
    if s.crashed {
      NoJointNoCommand(c, before, e);
    } else {
      StepPublishes(c, s, e);
      if !s.armed { StepArms(c, s, e); }
    }
  }

  lemma NoJointNoCommand(c: Config, events: seq<Event>, e: Event)
    requires c.Valid() && c.order == []
    ensures !ArmsAfter(c, events, e) && GripperPart(c, events) == GripperPart(c, events + [e]) == []
  {
    hide Dict, Pairs;
  }

  /** sign * leader + offset, NaN as soon as one of the three is. */
  predicate MapsTo(c: Config, leader: map<string, Reading>, data: seq<Reading>)
    requires c.Valid()
  {
    && |data| == |c.order|
    && forall i :: 0 <= i < |c.order| ==>
         && c.order[i] in leader
         && var s, l, o := c.signs[i], leader[c.order[i]], c.offsets[i];
            data[i] == if s.Rad? && l.Rad? && o.Rad? then Rad(s.value * l.value + o.value) else NaN
  }

  lemma {:induction false} LiveEntries(c: Config, events: seq<Event>, o: Output)
    requires c.Valid() && o in LiveCommands(c, events)
    ensures o.Mirrored? && exists m :: 0 <= m < |events| && events[m].Leader? &&
                                       MapsTo(c, Dict(Pairs(events[m].msg)), o.data)
  {
    hide Dict, Pairs, MapsTo;
    var n := |events| - 1;
    var leader := Dict(Pairs(events[n].msg));
    if o in LiveCommands(c, events[..n]) {
      LiveEntries(c, events[..n], o);
      var m :| 0 <= m < n && events[..n][m].Leader? && MapsTo(c, Dict(Pairs(events[..n][m].msg)), o.data);
      assert events[m] == events[..n][m];
    } else {
      MappedMaps(c, leader);
    }
  }

  lemma MappedMaps(c: Config, leader: map<string, Reading>)
    requires c.Valid() && AllPresent(c, leader)
    ensures MapsTo(c, leader, Mapped(c, leader))
  {
  }

  /**
   The value of every mirrored command of every run: on each joint sign * leader + offset, for the
   position that some leader message gives the joint, and NaN where one of the three is NaN.
   */
  lemma MirroredValues(c: Config, events: seq<Event>, k: nat)
    requires c.Valid() && k < |Run(c, START, events).published| && Run(c, START, events).published[k].Mirrored?
    ensures exists m :: 0 <= m < |events| && events[m].Leader? &&
              MapsTo(c, Dict(Pairs(events[m].msg)), Run(c, START, events).published[k].data)
  {
    hide Run, Dict, Pairs, MapsTo, LiveCommands, Held;
    PublishedExactly(c, events);
    var o := Run(c, START, events).published[k];
    assert o in MirroredPart(c, events);
    var from := ArmedAt(c, events).value;
    LiveEntries(c, events[from..], o);
    var m :| 0 <= m < |events| - from && events[from..][m].Leader? &&
             MapsTo(c, Dict(Pairs(events[from..][m].msg)), o.data);
    assert events[from..][m] == events[from + m];
  }

  /** The node has warned exactly when a leader message heard after a follower's lacked a joint. */
  lemma {:induction false} WarnedExactly(c: Config, events: seq<Event>)
    requires c.Valid()
    ensures Run(c, START, events).warned <==>
            exists k :: 0 <= k < |events| && events[k].Leader? && LatestFollower(events[..k]).Some?
                        && !AllPresent(c, Dict(Pairs(events[k].msg)))
    decreases |events|
  {
    hide Dict, Pairs, Mapped, Aligned, Held, Run, LatestFollower;
    var n := |events| - 1;
    if n < 0 {
      NoMessages(c);
    } else {
      var before := events[..n];
      assert events == before + [events[n]];
      RunSnoc(c, START, before, events[n]);
      WarnedExactly(c, before);
      FollowerSoFar(c, before);
      assert forall k :: 0 <= k <= n ==> before[..k] == events[..k];
      assert forall k :: 0 <= k < n ==> before[k] == events[k];
    }
  }

  lemma NoMessages(c: Config)
    requires c.Valid()
    ensures Run(c, START, []) == START
  {
  }

  // ---------- no snap

  /** A command on every joint within the tolerance of where the follower is, or is taken to be. */
  predicate NearFollower(c: Config, leader: map<string, Reading>, follower: map<string, Reading>)
    requires c.Valid()
  {
    && AllPresent(c, leader) && c.tolerance.Rad?
    && forall i :: 0 <= i < |c.order| ==>
         var to, from := Mapped(c, leader)[i], Get(follower, c.order[i]);
         to.Rad? && from.Rad? && -c.tolerance.value <= to.value - from.value <= c.tolerance.value
  }

  /** The parameters, and in the two messages the readings of the joints to mirror, are finite. */
  predicate AllNumbers(c: Config, leader: map<string, Reading>, follower: map<string, Reading>)
    requires c.Valid()
  {
    && c.tolerance.Rad?
    && forall i :: 0 <= i < |c.order| ==>
         && c.signs[i].Rad? && c.offsets[i].Rad?
         && Get(leader, c.order[i]).Rad? && Get(follower, c.order[i]).Rad?
  }

  /** With distinct names every joint counts, but for NaN: one in front lets everything through. */
  lemma PassesDistinct(c: Config, leader: map<string, Reading>, follower: map<string, Reading>)
    requires c.Valid() && c.order != [] && DistinctOrder(c.order) && AllPresent(c, leader)
    ensures var cmd := Mapped(c, leader);
            Passes(c, leader, follower) <==>
            || Gap(c, cmd, follower, 0).NaN?
            || forall i :: 0 <= i < |c.order| ==> !Greater(Gap(c, cmd, follower, i), c.tolerance)
  {
    assert forall i :: 0 <= i < |c.order| ==> LastOfName(c.order, i);
    assert LastPlace(c.order, c.order[0]) == 0;
  }

  lemma PassesNumbers(c: Config, leader: map<string, Reading>, follower: map<string, Reading>)
    requires c.Valid() && c.order != [] && DistinctOrder(c.order) && AllNumbers(c, leader, follower)
    ensures Passes(c, leader, follower) <==> NearFollower(c, leader, follower)
  {
    if AllPresent(c, leader) {
      var cmd := Mapped(c, leader);
      PassesDistinct(c, leader, follower);
      hide Passes, Mapped;
      forall i | 0 <= i < |c.order|
        ensures cmd[i].Rad?
        ensures Gap(c, cmd, follower, i) == Rad(Abs(cmd[i].value - Get(follower, c.order[i]).value))
      {
        assert cmd[i] == MappedOne(c, leader, i) && Get(leader, c.order[i]) == leader[c.order[i]];
      }
    }
  }

  /**
   No snap, and where NaN defeats it. In every run, the event that arms the mirror is a leader message
   naming every joint, after a follower message, that passes against the latest follower positions (0
   for a joint not in that message); every such message arms it, and its command is what the mirror
   then publishes. To pass is to have NaN for the first joint's gap or no joint's gap over the
   tolerance, so with finite parameters and finite readings of the listed joints it is to be within the
   tolerance on every joint.
   */
  lemma FirstMirroredCommandIsNear(c: Config, events: seq<Event>, e: Event)
    requires c.Valid() && c.order != [] && DistinctOrder(c.order) && !Run(c, START, events).armed
    ensures var s, s', latest := Run(c, START, events), Run(c, START, events + [e]), LatestFollower(events);
            var heard := e.Leader? && latest.Some? && AllPresent(c, Dict(Pairs(e.msg)));
            && (s'.armed ==> heard && s'.published == s.published + [Mirrored(Mapped(c, Dict(Pairs(e.msg))))])
            && (heard ==>
                  var leader, cmd := Dict(Pairs(e.msg)), Mapped(c, Dict(Pairs(e.msg)));
                  && (s'.armed <==>
                        || Gap(c, cmd, latest.value, 0).NaN?
                        || forall i :: 0 <= i < |c.order| ==> !Greater(Gap(c, cmd, latest.value, i), c.tolerance))
                  && (AllNumbers(c, leader, latest.value) ==> (s'.armed <==> NearFollower(c, leader, latest.value))))
  {
    hide Run, Step, LatestFollower, NearFollower, AllNumbers, Dict, Pairs, Mapped, Passes, Gap;
    RunSnoc(c, START, events, e);
    EveryRunIsOrderly(c, events, 0);
    FollowerSoFar(c, events);
    var s := Run(c, START, events);
    StepArms(c, s, e);
    if e.Leader? && s.follower.Some? && AllPresent(c, Dict(Pairs(e.msg))) {
      PassesDistinct(c, Dict(Pairs(e.msg)), s.follower.value);
      if AllNumbers(c, Dict(Pairs(e.msg)), s.follower.value) {
        PassesNumbers(c, Dict(Pairs(e.msg)), s.follower.value);
      }
    }
    if Step(c, s, e).armed { ArmingPublishes(c, s, e); }
  }

  lemma ArmingPublishes(c: Config, s: MirrorState, e: Event)
    requires c.Valid() && !s.armed && Step(c, s, e).armed
    ensures e.Leader? && s.follower.Some? && AllPresent(c, Dict(Pairs(e.msg)))
    ensures Step(c, s, e).published == s.published + [Mirrored(Mapped(c, Dict(Pairs(e.msg))))]
  {
    hide Aligned, Mapped, Dict, Pairs;
  }

  /** One NaN in front, and the mirror arms and publishes a command 10 rad from the follower. */
  lemma NaNDefeatsAlignment()
    ensures var one, zero := Rad(1.0), Rad(0.0);
            var c := Config(["a", "b"], [one, one], [zero, zero], Rad(0.15), "", zero);
            var here, there := Message(["a", "b"], [NaN, zero]), Message(["a", "b"], [zero, Rad(10.0)]);
            var s := Run(c, START, [Follower(here), Leader(there)]);
            && s.armed && s.published == [Mirrored([zero, Rad(10.0)])]
            && s.follower.Some? && Get(s.follower.value, "b") == zero
  {
    var one, zero := Rad(1.0), Rad(0.0);
    var c := Config(["a", "b"], [one, one], [zero, zero], Rad(0.15), "", zero);
    var here, there := Message(["a", "b"], [NaN, zero]), Message(["a", "b"], [zero, Rad(10.0)]);
    var leader, follower := Dict(Pairs(there)), Dict(Pairs(here));
    TwoJoints("a", "b", NaN, zero);
    TwoJoints("a", "b", zero, Rad(10.0));
    TwoSteps(c, here, there);
    assert Mapped(c, leader) == [zero, Rad(10.0)];
    assert Gap(c, Mapped(c, leader), follower, 0).NaN?;
    assert DistinctOrder(c.order);
    PassesDistinct(c, leader, follower);
  }

  lemma TwoJoints(a: string, b: string, x: Reading, y: Reading)
    requires a != b
    ensures Dict(Pairs(Message([a, b], [x, y]))) == map[a := x, b := y]
  {
    var p := Pairs(Message([a, b], [x, y]));
    assert p == [(a, x), (b, y)] && p[..1] == [(a, x)] && p[..1][..0] == [];
    assert Dict(p[..1]) == Dict([])[a := x];
  }

  /** The run of one follower and one leader message that passes, without a gripper to open. */
  lemma TwoSteps(c: Config, here: Message, there: Message)
    requires c.Valid() && c.gripperJoint !in c.order
    ensures var s := Run(c, START, [Follower(here), Leader(there)]);
            && s.follower == Some(Dict(Pairs(here)))
            && (Passes(c, Dict(Pairs(there)), Dict(Pairs(here))) ==>
                  s.armed && s.published == [Mirrored(Mapped(c, Dict(Pairs(there))))])
  {
    hide Passes, Dict, Pairs, Aligned, Mapped;
    var s1 := Step(c, START, Follower(here));
    var events := [Follower(here), Leader(there)];
    assert events[1..] == [Leader(there)] && events[1..][1..] == [];
    assert Run(c, START, events) == Run(c, s1, events[1..]) == Run(c, Step(c, s1, Leader(there)), []);
    StepArms(c, s1, Leader(there));
    if Passes(c, Dict(Pairs(there)), Dict(Pairs(here))) { ArmingPublishes(c, s1, Leader(there)); }
    LeaderKeepsFollower(c, s1, there);
  }

  /** With a name listed twice the mirror can arm and publish a command far from the follower. */
  lemma RepeatedNameDefeatsAlignment()
    ensures var one, zero := Rad(1.0), Rad(0.0);
            var c := Config(["a", "a"], [one, one], [Rad(10.0), zero], Rad(0.15), "", zero);
            var pose := Message(["a"], [zero]);
            var s := Run(c, START, [Follower(pose), Leader(pose)]);
            && s.armed && s.published == [Mirrored([Rad(10.0), zero])]
            && s.follower.Some? && Get(s.follower.value, "a") == zero
  {
    var one, zero := Rad(1.0), Rad(0.0);
    var c := Config(["a", "a"], [one, one], [Rad(10.0), zero], Rad(0.15), "", zero);
    var pose := Message(["a"], [zero]);
    var p := Pairs(pose);
    assert p == [("a", zero)] && p[..0] == [];
    var d := Dict(p);
    assert d == Dict([])["a" := zero];
    var cmd := Mapped(c, d);
    assert cmd == [Rad(10.0), zero];
    assert !LastOfName(c.order, 0) by { assert c.order[1] == c.order[0]; }
    assert Gap(c, cmd, d, 1) == zero;
    TwoSteps(c, pose, pose);
  }

  // ---------- the gripper command

  /**
   The command that opens the gripper holds the gripper's opening in the gripper's first place and the
   first follower position, or 0, in every other. So, wherever the joints are, it holds each other
   joint where it is exactly when that joint is in the first follower message or is at 0.
   */
  lemma GripperCommandHolds(c: Config, events: seq<Event>, at: map<string, real>)
    requires c.Valid() && c.gripperJoint in c.order && FirstFollower(events).Some?
    requires var first := FirstFollower(events).value;
             forall name :: name in c.order ==> name in at && (name in first ==> first[name] == Rad(at[name]))
    ensures var published, first := Run(c, START, events).published, FirstFollower(events).value;
            var g := IndexOf(c.order, c.gripperJoint);
            && published != [] && published[0].OpenGripper? && |published[0].data| == |c.order|
            && published[0].data[g] == c.gripperOpen
            && (forall i :: 0 <= i < |c.order| && i != g ==> published[0].data[i] == Get(first, c.order[i]))
            && ((forall i :: 0 <= i < |c.order| && i != g ==> published[0].data[i] == Rad(at[c.order[i]]))
                <==> forall i :: 0 <= i < |c.order| && i != g ==> c.order[i] in first || at[c.order[i]] == 0.0)
  {
    hide Run, FirstFollower, IndexOf, MirroredPart;
    PublishedExactly(c, events);
    var first := FirstFollower(events).value;
    assert forall i :: 0 <= i < |c.order| ==>
      (Get(first, c.order[i]) == Rad(at[c.order[i]]) <==> c.order[i] in first || at[c.order[i]] == 0.0);
  }

  // ---------- matching by name

  predicate DistinctPairs(pairs: seq<(string, Reading)>) {
    forall i, j :: 0 <= i < j < |pairs| ==> pairs[i].0 != pairs[j].0
  }

  lemma DictOfDistinct(pairs: seq<(string, Reading)>, name: string, v: Reading)
    requires DistinctPairs(pairs)
    ensures (name, v) in pairs <==> name in Dict(pairs) && Dict(pairs)[name] == v
  {
    DictKeys(pairs);
    if name in Dict(pairs) {
      var i :| 0 <= i < |pairs| && pairs[i].0 == name;
      DictAt(pairs, i);
    }
    if (name, v) in pairs {
      var i :| 0 <= i < |pairs| && pairs[i] == (name, v);
      DictAt(pairs, i);
    }
  }

  lemma PermutedDict(p: seq<(string, Reading)>, q: seq<(string, Reading)>)
    requires multiset(p) == multiset(q) && DistinctPairs(p) && DistinctPairs(q)
    ensures Dict(p) == Dict(q)
  {
    var a, b := Dict(p), Dict(q);
    forall name | name in a ensures name in b && b[name] == a[name] {
      DictOfDistinct(p, name, a[name]);
      assert (name, a[name]) in multiset(p);
      DictOfDistinct(q, name, a[name]);
    }
    forall name | name in b ensures name in a {
      DictOfDistinct(q, name, b[name]);
      assert (name, b[name]) in multiset(q);
      DictOfDistinct(p, name, b[name]);
    }
  }

  /** Two events of the same kind whose messages hold the same pairs in any order. */
  predicate Permuted(e: Event, e': Event) {
    && e.Leader? == e'.Leader?
    && multiset(Pairs(e.msg)) == multiset(Pairs(e'.msg))
    && DistinctPairs(Pairs(e.msg)) && DistinctPairs(Pairs(e'.msg))
  }

  /**
   Matching is by name: reordering the pairs of any messages of a run changes no state of the
   mirror and nothing it publishes.
   */
  lemma {:induction false} OrderInMessagesIrrelevant(c: Config, s: MirrorState, events: seq<Event>, events': seq<Event>)
    requires c.Valid() && |events| == |events'|
    requires forall k :: 0 <= k < |events| ==> Permuted(events[k], events'[k])
    ensures Run(c, s, events) == Run(c, s, events')
    decreases |events|
  {
    if events != [] {
      PermutedDict(Pairs(events[0].msg), Pairs(events'[0].msg));
      OrderInMessagesIrrelevant(c, Step(c, s, events[0]), events[1..], events'[1..]);
    }
  }
}
