/**
 The teleoperation mirror: a node that answers leader and follower joint-state messages, opens the
 gripper once, stays disarmed until leader and follower agree, and then repeats the leader's pose.
 */
module Mirror {
  import opened Wrappers
  import opened Units

  /** A joint-state message: its two lists need not be equally long, and a position may be NaN. */
  datatype Message = Message(names: seq<string>, positions: seq<Reading>)

  datatype Output = OpenGripper(data: seq<Reading>) | Mirrored(data: seq<Reading>)

  datatype Config = Config(order: seq<string>, signs: seq<Reading>, offsets: seq<Reading>, tolerance: Reading,
                           gripperJoint: string, gripperOpen: Reading)
  {
    predicate Valid() { |signs| == |order| && |offsets| == |order| }
  }

  datatype MirrorState = MirrorState(armed: bool, follower: Option<map<string, Reading>>, gripperOpened: bool,
                                     warned: bool, crashed: bool, published: seq<Output>)

  const START := MirrorState(false, None, false, false, false, [])

  function Pairs(m: Message): (r: seq<(string, Reading)>) {
    var n := if |m.names| < |m.positions| then |m.names| else |m.positions|;
    seq(n, i requires 0 <= i < n => (m.names[i], m.positions[i]))
  }

  /** dict(...) of pairs: a later pair replaces an earlier one with its name. */
  function Dict(pairs: seq<(string, Reading)>): map<string, Reading> {
    if pairs == [] then map[]
    else
      var last := pairs[|pairs| - 1];
      Dict(pairs[..|pairs| - 1])[last.0 := last.1]
  }

  function Get(positions: map<string, Reading>, name: string): Reading {
    if name in positions then positions[name] else Rad(0.0)
  }

  /** The joints to mirror: the parameter, unless it is empty or the single empty name. */
  function ResolveOrder(jointNames: seq<string>, controllerJoints: seq<string>): seq<string> {
    if jointNames == [""] || jointNames == [] then controllerJoints else jointNames
  }

  predicate AllPresent(c: Config, leader: map<string, Reading>) {
    forall name :: name in c.order ==> name in leader
  }

  function MappedOne(c: Config, leader: map<string, Reading>, i: nat): Reading
    requires c.Valid() && AllPresent(c, leader) && i < |c.order|
  {
    Plus(Times(c.signs[i], leader[c.order[i]]), c.offsets[i])
  }

  function Mapped(c: Config, leader: map<string, Reading>): (r: seq<Reading>)
    requires c.Valid() && AllPresent(c, leader)
    ensures |r| == |c.order|
    ensures forall i :: 0 <= i < |r| ==> r[i] == MappedOne(c, leader, i)
  {
    seq(|c.order|, i requires 0 <= i < |c.order| => MappedOne(c, leader, i))
  }

  function Held(c: Config, follower: map<string, Reading>): (r: seq<Reading>)
    ensures |r| == |c.order| && forall i :: 0 <= i < |r| ==> r[i] == Get(follower, c.order[i])
  {
    seq(|c.order|, i requires 0 <= i < |c.order| => Get(follower, c.order[i]))
  }

  function Gap(c: Config, cmd: seq<Reading>, follower: map<string, Reading>, i: nat): Reading
    requires |cmd| == |c.order| && i < |cmd|
  {
    Distance(cmd[i], Get(follower, c.order[i]))
  }

  /** A name that stands twice in the order keeps only its last gap. */
  function Gaps(c: Config, cmd: seq<Reading>, follower: map<string, Reading>): map<string, Reading>
    requires |cmd| == |c.order|
  {
    Dict(seq(|c.order|, i requires 0 <= i < |c.order| => (c.order[i], Gap(c, cmd, follower, i))))
  }

  /** Python's max over the names by gap: the first, replaced by each later one that compares greater. */
  function Worst(names: seq<string>, gaps: map<string, Reading>): (r: string)
    requires names != [] && forall n :: n in names ==> n in gaps
    ensures r in names
  {
    WorstFrom(names[0], names[1..], gaps)
  }

  function WorstFrom(best: string, names: seq<string>, gaps: map<string, Reading>): (r: string)
    requires best in gaps && forall n :: n in names ==> n in gaps
    ensures r == best || r in names
    decreases |names|
  {
    if names == [] then best
    else WorstFrom(if Greater(gaps[names[0]], gaps[best]) then names[0] else best, names[1..], gaps)
  }

  function IndexOf(names: seq<string>, name: string): (i: nat)
    requires name in names
    ensures i < |names| && names[i] == name && name !in names[..i]
  {
    if names[0] == name then 0 else 1 + IndexOf(names[1..], name)
  }

  lemma {:induction false} DictKeys(pairs: seq<(string, Reading)>)
    ensures forall name :: name in Dict(pairs) <==> exists i :: 0 <= i < |pairs| && pairs[i].0 == name
  {
    if pairs != [] {
      DictKeys(pairs[..|pairs| - 1]);
    }
  }

  lemma GapsNames(c: Config, cmd: seq<Reading>, follower: map<string, Reading>)
    requires |cmd| == |c.order|
    ensures forall n :: n in c.order ==> n in Gaps(c, cmd, follower)
  {
    var pairs := seq(|c.order|, i requires 0 <= i < |c.order| => (c.order[i], Gap(c, cmd, follower, i)));
    DictKeys(pairs);
    forall n | n in c.order ensures n in Gaps(c, cmd, follower) {
      var i :| 0 <= i < |c.order| && c.order[i] == n;
      assert pairs[i].0 == n;
    }
  }

  // ---------- the two callbacks

  function OpenGripperNow(c: Config, s: MirrorState): MirrorState
    requires s.follower.Some?
  {
    if c.gripperJoint !in c.order then s.(gripperOpened := true)
    else
      var cmd := Held(c, s.follower.value)[IndexOf(c.order, c.gripperJoint) := c.gripperOpen];
      s.(gripperOpened := true, published := s.published + [OpenGripper(cmd)])
  }

  function OnFollower(c: Config, s: MirrorState, msg: Message): MirrorState {
    var s' := s.(follower := Some(Dict(Pairs(msg))));
    if s.gripperOpened then s' else OpenGripperNow(c, s')
  }

  /** Whether a disarmed mirror lets this command through. */
  predicate Aligned(c: Config, cmd: seq<Reading>, follower: map<string, Reading>)
    requires |cmd| == |c.order| && c.order != []
  {
    GapsNames(c, cmd, follower);
    var gaps := Gaps(c, cmd, follower);
    !Greater(gaps[Worst(c.order, gaps)], c.tolerance)
  }

  /** With no joint at all, a disarmed mirror takes the maximum of nothing and the node dies. */
  function OnLeader(c: Config, s: MirrorState, msg: Message): MirrorState
    requires c.Valid()
  {
    var leader := Dict(Pairs(msg));
    if s.follower.None? then s
    else if !AllPresent(c, leader) then s.(warned := true)
    else
      var cmd := Mapped(c, leader);
      if !s.armed && c.order == [] then s.(crashed := true)
      else if !s.armed && !Aligned(c, cmd, s.follower.value) then s
      else s.(armed := true, published := s.published + [Mirrored(cmd)])
  }

  /** The node: its parameters and the fields its callbacks update. */
  class LeaderFollowerMirror {
    const config: Config

    var armed: bool
    var follower: Option<map<string, Reading>>
    var gripperOpened: bool
    var warned: bool
    var crashed: bool
    ghost var published: seq<Output>

    ghost function State(): MirrorState
      reads this
    {
      MirrorState(armed, follower, gripperOpened, warned, crashed, published)
    }

    constructor (config: Config)
      requires config.Valid()
      ensures this.config == config && State() == START
    {
      this.config := config;
      armed, follower, gripperOpened, warned := false, None, false, false;
      crashed, published := false, [];
    }

    /** Signs and offsets of the wrong length are refused before a node exists. */
    static method Create(jointNames: seq<string>, controllerJoints: seq<string>, signs: Option<seq<Reading>>,
                         offsets: Option<seq<Reading>>, tolerance: Reading, gripperJoint: string, gripperOpen: Reading)
      returns (node: Option<LeaderFollowerMirror>)
      ensures var order := if jointNames == [] || jointNames == [""] then controllerJoints else jointNames;
              node.Some? <==>
                (signs.Some? ==> |signs.value| == |order|) && (offsets.Some? ==> |offsets.value| == |order|)
      ensures node.Some? ==>
                && fresh(node.value) && node.value.State() == START && node.value.config.Valid()
                && node.value.config.order ==
                   (if jointNames == [] || jointNames == [""] then controllerJoints else jointNames)
                && (signs.None? ==> forall x :: x in node.value.config.signs ==> x == Rad(1.0))
                && (signs.Some? ==> node.value.config.signs == signs.value)
                && (offsets.None? ==> forall x :: x in node.value.config.offsets ==> x == Rad(0.0))
                && (offsets.Some? ==> node.value.config.offsets == offsets.value)
                && node.value.config.tolerance == tolerance
                && node.value.config.gripperJoint == gripperJoint && node.value.config.gripperOpen == gripperOpen
    {
      var order := ResolveOrder(jointNames, controllerJoints);
      var ones: seq<Reading> := seq(|order|, i => Rad(1.0));
      var zeros: seq<Reading> := seq(|order|, i => Rad(0.0));
      var s := if signs.Some? then signs.value else ones;
      var o := if offsets.Some? then offsets.value else zeros;
      if |s| != |order| || |o| != |order| { return None; }
      var n := new LeaderFollowerMirror(Config(order, s, o, tolerance, gripperJoint, gripperOpen));
      return Some(n);
    }

    ghost method Publish(o: Output)
      modifies `published
      ensures published == old(published) + [o]
    {
      published := published + [o];
    }

    method OpenTheGripper()
      requires follower.Some?
      modifies `gripperOpened, `published
      ensures State() == OpenGripperNow(config, old(State()))
    {
      if config.gripperJoint !in config.order {
        gripperOpened := true;
        return;
      }
      var cmd := Held(config, follower.value);
      cmd := cmd[IndexOf(config.order, config.gripperJoint) := config.gripperOpen];
      Publish(OpenGripper(cmd));
      gripperOpened := true;
    }

    method HandleFollower(msg: Message)
      modifies this
      ensures State() == OnFollower(config, old(State()), msg)
    {
      follower := Some(Dict(Pairs(msg)));
      if !gripperOpened { OpenTheGripper(); }
    }

    /** An exception in the callback ends the node; here it sets `crashed`. */
    method HandleLeader(msg: Message)
      requires config.Valid()
      modifies this
      ensures State() == OnLeader(config, old(State()), msg)
    {
      if follower.None? { return; }
      var leader := Dict(Pairs(msg));
      if exists name :: name in config.order && name !in leader {
        if !warned { warned := true; }
        return;
      }
      var cmd := Mapped(config, leader);
      if !armed {
        if config.order == [] {
          crashed := true;
          return;
        }
        var gaps := Gaps(config, cmd, follower.value);
        GapsNames(config, cmd, follower.value);
        var worst := Worst(config.order, gaps);
        if Greater(gaps[worst], config.tolerance) { return; }
        armed := true;
      }
      Publish(Mirrored(cmd));
    }
  }
}
