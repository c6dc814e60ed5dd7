/**
 The interactive jog tool: keys select a joint, change the step, jog, return home and toggle torque.
 Motor profiles are switched before a motion and skipped when already in that mode.
 */
module Jog {
  import opened Wrappers
  import opened Units

  const PROFILE_ACCELERATION := 108
  const PROFILE_VELOCITY := 112

  // Key codes as the terminal library reports them.
  const NO_KEY := -1
  const ESCAPE := 27
  const KEY_DOWN := 258
  const KEY_UP := 259
  const KEY_LEFT := 260
  const KEY_RIGHT := 261

  datatype Mode = JogMode | HomeMode

  datatype Args = Args(step: real, stepMin: real, stepMax: real, jogVelocity: int, jogAcceleration: int,
                       homeVelocity: int, homeAcceleration: int)

  datatype Why = Jogged(joint: int, delta: real) | Homed | HeldHere

  /** What leaves the tool: position commands, torque requests, profile register writes. */
  datatype Act = Sent(targets: seq<Reading>, why: Why) | Torque(on: bool) | Profile(address: nat, value: int)

  datatype Session = Session(targets: seq<Reading>, startPose: seq<Reading>, selected: int, step: real, torqueOn: bool,
                             profileMode: Option<Mode>, finished: bool, trace: seq<Act>)

  /** One turn of the loop: the key read, and the joint positions known then. */
  datatype Input = Input(key: int, positions: seq<Reading>)

  function Code(c: char): int { c as int }

  function Min(a: real, b: real): real { if b < a then b else a }
  function Max(a: real, b: real): real { if b > a then b else a }

  function Velocity(a: Args, mode: Mode): int { if mode.JogMode? then a.jogVelocity else a.homeVelocity }
  function Acceleration(a: Args, mode: Mode): int { if mode.JogMode? then a.jogAcceleration else a.homeAcceleration }

  function Start(a: Args, positions: seq<Reading>): Session {
    Session(positions, positions, 0, a.step, true, None, false, [])
  }

  /** `cached` is how the tool works; without it every motion rewrites the profile. */
  function SetProfile(a: Args, component: bool, cached: bool, s: Session, mode: Mode): Session {
    if !component || (cached && s.profileMode == Some(mode)) then s
    else
      s.(trace := s.trace + [Profile(PROFILE_ACCELERATION, Acceleration(a, mode)),
                             Profile(PROFILE_VELOCITY, Velocity(a, mode))],
         profileMode := Some(mode))
  }

  function ToggleTorque(s: Session, positions: seq<Reading>): Session {
    if s.torqueOn then s.(torqueOn := false, trace := s.trace + [Torque(false)])
    else s.(targets := positions, torqueOn := true, trace := s.trace + [Sent(positions, HeldHere), Torque(true)])
  }

  function GoHome(a: Args, component: bool, cached: bool, s: Session): Session {
    var s1 := SetProfile(a, component, cached, s, HomeMode);
    s1.(targets := s1.startPose, trace := s1.trace + [Sent(s1.startPose, Homed)])
  }

  function JogBy(a: Args, component: bool, cached: bool, s: Session, delta: real): Session
    requires 0 <= s.selected < |s.targets|
  {
    var s1 := SetProfile(a, component, cached, s, JogMode);
    var targets := s1.targets[s1.selected := Plus(s1.targets[s1.selected], Rad(delta))];
    s1.(targets := targets, trace := s1.trace + [Sent(targets, Jogged(s1.selected, delta))])
  }

  predicate Selects(s: Session) { 0 <= s.selected < |s.targets| && |s.startPose| == |s.targets| }

  function Press(a: Args, component: bool, cached: bool, s: Session, key: int, positions: seq<Reading>): Session
    requires Selects(s)
  {
    var n := |s.targets|;
    if key == NO_KEY then s
    else if key == Code('q') || key == ESCAPE then s.(finished := true)
    else if key == KEY_UP || key == Code('p') then s.(selected := (s.selected - 1) % n)
    else if key == KEY_DOWN || key == Code('n') then s.(selected := (s.selected + 1) % n)
    else if Code('1') <= key <= Code('0') + (if n < 9 then n else 9) then s.(selected := key - Code('1'))
    else if key == Code('[') then s.(step := Max(a.stepMin, s.step / 2.0))
    else if key == Code(']') then s.(step := Min(a.stepMax, s.step * 2.0))
    else if key == Code('t') then ToggleTorque(s, positions)
    else if key == KEY_LEFT || key == KEY_RIGHT || key == Code('h') then
      if !s.torqueOn then s
      else if key == Code('h') then GoHome(a, component, cached, s)
      else JogBy(a, component, cached, s, if key == KEY_RIGHT then s.step else -s.step)
    else s
  }

  predicate Sized(inputs: seq<Input>, n: nat) {
    forall i :: i in inputs ==> |i.positions| == n
  }

  lemma PressSelects(a: Args, component: bool, cached: bool, s: Session, key: int, positions: seq<Reading>)
    requires Selects(s) && |positions| == |s.targets|
    ensures var s' := Press(a, component, cached, s, key, positions);
            Selects(s') && |s'.targets| == |s.targets| && s'.startPose == s.startPose
  {
  }

  /** The loop of the tool, until a key ends it or no input is left. */
  function Loop(a: Args, component: bool, cached: bool, s: Session, inputs: seq<Input>): Session
    requires Selects(s) && Sized(inputs, |s.targets|)
    decreases |inputs|
  {
    if inputs == [] || s.finished then s
    else
      PressSelects(a, component, cached, s, inputs[0].key, inputs[0].positions);
      Loop(a, component, cached, Press(a, component, cached, s, inputs[0].key, inputs[0].positions), inputs[1..])
  }

  /** The tool as it runs: one object, its locals and its profile cache as fields. */
  class Tool {
    const args: Args
    const component: bool

    var targets: seq<Reading>
    var startPose: seq<Reading>
    var selected: int
    var step: real
    var torqueOn: bool
    var profileMode: Option<Mode>
    var finished: bool
    ghost var trace: seq<Act>

    ghost function State(): Session
      reads this
    {
      Session(targets, startPose, selected, step, torqueOn, profileMode, finished, trace)
    }

    constructor (args: Args, component: bool, positions: seq<Reading>)
      ensures this.args == args && this.component == component && State() == Start(args, positions)
    {
      this.args, this.component := args, component;
      targets, startPose, selected, step := positions, positions, 0, args.step;
      torqueOn, profileMode, finished, trace := true, None, false, [];
    }

    method SetProfileTo(mode: Mode)
      modifies `profileMode, `trace
      ensures State() == SetProfile(args, component, true, old(State()), mode)
    {
      if !component || profileMode == Some(mode) { return; }
      var velocity, acceleration;
      if mode == JogMode {
        velocity, acceleration := args.jogVelocity, args.jogAcceleration;
      } else {
        velocity, acceleration := args.homeVelocity, args.homeAcceleration;
      }
      trace := trace + [Profile(PROFILE_ACCELERATION, acceleration)];
      trace := trace + [Profile(PROFILE_VELOCITY, velocity)];
      profileMode := Some(mode);
    }

    method Handle(key: int, positions: seq<Reading>)
      requires Selects(State())
      modifies this
      ensures State() == Press(args, component, true, old(State()), key, positions)
    {
      var n := |targets|;
      if key == NO_KEY { return; }
      if key == Code('q') || key == ESCAPE {
        finished := true;
      } else if key == KEY_UP || key == Code('p') {
        selected := (selected - 1) % n;
      } else if key == KEY_DOWN || key == Code('n') {
        selected := (selected + 1) % n;
      } else if Code('1') <= key <= Code('0') + (if n < 9 then n else 9) {
        selected := key - Code('1');
      } else if key == Code('[') {
        step := Max(args.stepMin, step / 2.0);
      } else if key == Code(']') {
        step := Min(args.stepMax, step * 2.0);
      } else if key == Code('t') {
        if torqueOn {
          trace := trace + [Torque(false)];
          torqueOn := false;
        } else {
          targets := positions;
          trace := trace + [Sent(targets, HeldHere)];
          trace := trace + [Torque(true)];
          torqueOn := true;
        }
      } else if key == KEY_LEFT || key == KEY_RIGHT || key == Code('h') {
        if !torqueOn { return; }
        ghost var why := Homed;
        if key == Code('h') {
          SetProfileTo(HomeMode);
          targets := startPose;
        } else {
          SetProfileTo(JogMode);
          var delta := if key == KEY_RIGHT then step else -step;
          targets := targets[selected := Plus(targets[selected], Rad(delta))];
          why := Jogged(selected, delta);
        }
        trace := trace + [Sent(targets, why)];
      }
    }

    method RunTui(inputs: seq<Input>)
      requires Selects(State()) && Sized(inputs, |targets|)
      modifies this
      ensures State() == Loop(args, component, true, old(State()), inputs)
    {
      var i := 0;
      assert inputs[0..] == inputs;
      while i < |inputs| && !finished
        invariant i <= |inputs| && Selects(State()) && Sized(inputs, |targets|)
        invariant Loop(args, component, true, State(), inputs[i..])
               == Loop(args, component, true, old(State()), inputs)
      {
        assert inputs[i..][0] == inputs[i] && inputs[i..][1..] == inputs[i + 1..];
        PressSelects(args, component, true, State(), inputs[i].key, inputs[i].positions);
        Handle(inputs[i].key, inputs[i].positions);
        i := i + 1;
      }
    }
  }
}
