/** Jog safety for every key sequence, and the profile cache against the tool without it. */
module JogProofs {
  import opened Wrappers
  import opened Units
  import opened Bytes
  import opened Jog

  /** The starting step lies within its bounds and is not negative; the argument parser checks neither. */
  predicate ValidArgs(a: Args) {
    InBounds(a, a.step) && 0.0 <= a.step
  }

  predicate InBounds(a: Args, step: real) { a.stepMin <= step <= a.stepMax }

  /** What halving and doubling keep: bounds that the starting step meets. */
  predicate StepKept(a: Args, step: real) {
    ValidArgs(a) ==> InBounds(a, step) && 0.0 <= step
  }

  // ---------- what a trace says, read on its own

  /** Whether torque is on after a trace: it is at the start, and the last request decides. */
  function TorqueAfter(trace: seq<Act>): bool {
    if trace == [] then true
    else
      var last := trace[|trace| - 1];
      if last.Torque? then last.on else TorqueAfter(trace[..|trace| - 1])
  }

  /** The pose last commanded, or the pose at the start. */
  function PoseAfter(start: seq<Reading>, trace: seq<Act>): seq<Reading> {
    if trace == [] then start
    else
      var last := trace[|trace| - 1];
      if last.Sent? then last.targets else PoseAfter(start, trace[..|trace| - 1])
  }

  /** The value last written to a profile register. */
  function ProfileAfter(trace: seq<Act>, address: nat): Option<int> {
    if trace == [] then None
    else
      var last := trace[|trace| - 1];
      if last.Profile? && last.address == address then Some(last.value)
      else ProfileAfter(trace[..|trace| - 1], address)
  }

  predicate ProfileIs(a: Args, trace: seq<Act>, mode: Mode) {
    && ProfileAfter(trace, 108) == Some(if mode == JogMode then a.jogAcceleration else a.homeAcceleration)
    && ProfileAfter(trace, 112) == Some(if mode == JogMode then a.jogVelocity else a.homeVelocity)
  }

  /**
   What each act requires of the acts before it. A jog or a return home happens only with torque on
   and with its own profile in the registers. A jog moves one joint of the last pose by no less than
   the smallest and no more than the largest step; a return goes to the starting pose. Torque is
   requested only to change it, and torque comes on only right after the tool has sent the pose to hold.
   */
  predicate Follows(a: Args, component: bool, start: seq<Reading>, before: seq<Act>, act: Act) {
    match act
    case Sent(targets, Jogged(joint, delta)) =>
      && TorqueAfter(before) && (component ==> ProfileIs(a, before, JogMode))
      && (ValidArgs(a) ==> InBounds(a, delta) || InBounds(a, -delta))
      && var pose := PoseAfter(start, before);
         0 <= joint < |pose| && targets == pose[joint := Plus(pose[joint], Rad(delta))]
    case Sent(targets, Homed) =>
      TorqueAfter(before) && (component ==> ProfileIs(a, before, HomeMode)) && targets == start
    case Sent(targets, HeldHere) => !TorqueAfter(before) && |targets| == |start|
    case Torque(on) =>
      && on != TorqueAfter(before)
      && (on ==> before != [] && before[|before| - 1].Sent? && before[|before| - 1].why == HeldHere)
    case Profile(_, _) => component
  }

  predicate SafeTrace(a: Args, component: bool, start: seq<Reading>, trace: seq<Act>) {
    forall k :: 0 <= k < |trace| ==> Follows(a, component, start, trace[..k], trace[k])
  }

  lemma SafeSnoc(a: Args, component: bool, start: seq<Reading>, trace: seq<Act>, act: Act)
    requires SafeTrace(a, component, start, trace) && Follows(a, component, start, trace, act)
    ensures SafeTrace(a, component, start, trace + [act])
  {
    var t := trace + [act];
    forall k | 0 <= k < |t| ensures Follows(a, component, start, t[..k], t[k]) {
      if k < |trace| { assert t[..k] == trace[..k]; } else { assert t[..k] == trace; }
    }
  }

  lemma AfterSnoc(start: seq<Reading>, trace: seq<Act>, act: Act)
    ensures var t := trace + [act];
            && TorqueAfter(t) == (if act.Torque? then act.on else TorqueAfter(trace))
            && PoseAfter(start, t) == (if act.Sent? then act.targets else PoseAfter(start, trace))
            && forall address :: ProfileAfter(t, address) ==
                 if act.Profile? && act.address == address then Some(act.value) else ProfileAfter(trace, address)
  {
    assert (trace + [act])[..|trace|] == trace;
  }

  // ---------- the invariant of the loop

  /** The tool's variables agree with what its trace says. */
  predicate Inv(a: Args, component: bool, s: Session) {
    && Selects(s) && StepKept(a, s.step)
    && SafeTrace(a, component, s.startPose, s.trace)
    && s.torqueOn == TorqueAfter(s.trace)
    && s.targets == PoseAfter(s.startPose, s.trace)
    && (s.profileMode.Some? ==> component && ProfileIs(a, s.trace, s.profileMode.value))
  }

  lemma ProfileActInv(a: Args, component: bool, s: Session, address: nat, value: int)
    requires component && Inv(a, component, s)
    ensures var t := s.trace + [Profile(address, value)];
            && SafeTrace(a, component, s.startPose, t) && s.torqueOn == TorqueAfter(t)
            && s.targets == PoseAfter(s.startPose, t)
            && forall x :: ProfileAfter(t, x) == if x == address then Some(value) else ProfileAfter(s.trace, x)
  {
    hide SafeTrace;
    SafeSnoc(a, component, s.startPose, s.trace, Profile(address, value));
    AfterSnoc(s.startPose, s.trace, Profile(address, value));
  }

  lemma SetProfileInv(a: Args, component: bool, cached: bool, s: Session, mode: Mode)
    requires Inv(a, component, s)
    ensures var s' := SetProfile(a, component, cached, s, mode);
            && Inv(a, component, s') && (component ==> ProfileIs(a, s'.trace, mode))
            && s' == s.(trace := s'.trace, profileMode := s'.profileMode)
  {
    hide SafeTrace, TorqueAfter, PoseAfter, ProfileAfter;
    if component && !(cached && s.profileMode == Some(mode)) {
      var p, q := Profile(PROFILE_ACCELERATION, Acceleration(a, mode)), Profile(PROFILE_VELOCITY, Velocity(a, mode));
      ProfileActInv(a, component, s, p.address, p.value);
      var s1 := s.(trace := s.trace + [p], profileMode := None);
      ProfileActInv(a, component, s1, q.address, q.value);
      assert s.trace + [p, q] == s1.trace + [q];
    }
  }

  lemma SendInv(a: Args, component: bool, s: Session, targets: seq<Reading>, why: Why)
    requires Inv(a, component, s) && |targets| == |s.targets|
    requires Follows(a, component, s.startPose, s.trace, Sent(targets, why))
    ensures Inv(a, component, s.(targets := targets, trace := s.trace + [Sent(targets, why)]))
  {
    SafeSnoc(a, component, s.startPose, s.trace, Sent(targets, why));
    AfterSnoc(s.startPose, s.trace, Sent(targets, why));
  }

  lemma TorqueInv(a: Args, component: bool, s: Session, on: bool)
    requires Inv(a, component, s) && Follows(a, component, s.startPose, s.trace, Torque(on))
    ensures Inv(a, component, s.(torqueOn := on, trace := s.trace + [Torque(on)]))
  {
    SafeSnoc(a, component, s.startPose, s.trace, Torque(on));
    AfterSnoc(s.startPose, s.trace, Torque(on));
  }

  lemma ToggleInv(a: Args, component: bool, s: Session, positions: seq<Reading>)
    requires Inv(a, component, s) && |positions| == |s.targets|
    ensures Inv(a, component, ToggleTorque(s, positions))
  {
    if s.torqueOn {
      TorqueInv(a, component, s, false);
    } else {
      SendInv(a, component, s, positions, HeldHere);
      var s1 := s.(targets := positions, trace := s.trace + [Sent(positions, HeldHere)]);
      AfterSnoc(s.startPose, s.trace, Sent(positions, HeldHere));
      TorqueInv(a, component, s1, true);
      assert s.trace + [Sent(positions, HeldHere), Torque(true)] == s1.trace + [Torque(true)];
    }
  }

  predicate IsMotion(key: int) {
    key == Code('h') || key == KEY_LEFT || key == KEY_RIGHT
  }

  /** Keys that send nothing: the selection and the step stay in range, all else but `finished` is kept. */
  lemma SilentKeys(a: Args, component: bool, cached: bool, s: Session, key: int, positions: seq<Reading>)
    requires Selects(s) && StepKept(a, s.step)
    requires key != Code('t') && (IsMotion(key) ==> !s.torqueOn)
    ensures var s' := Press(a, component, cached, s, key, positions);
            && s' == s.(selected := s'.selected, step := s'.step, finished := s'.finished)
            && Selects(s') && StepKept(a, s'.step)
  {
  }

  lemma FrameInv(a: Args, component: bool, s: Session, s': Session)
    requires Inv(a, component, s) && Selects(s') && StepKept(a, s'.step)
    requires s' == s.(selected := s'.selected, step := s'.step, finished := s'.finished)
    ensures Inv(a, component, s')
  {
  }

  lemma HomeInv(a: Args, component: bool, cached: bool, s: Session)
    requires Inv(a, component, s) && s.torqueOn
    ensures Inv(a, component, GoHome(a, component, cached, s))
  {
    hide SetProfile, ProfileIs, SafeTrace;
    SetProfileInv(a, component, cached, s, HomeMode);
    SendInv(a, component, SetProfile(a, component, cached, s, HomeMode), s.startPose, Homed);
  }

  lemma JogInv(a: Args, component: bool, cached: bool, s: Session, delta: real)
    requires Inv(a, component, s) && s.torqueOn && (delta == s.step || delta == -s.step)
    ensures Inv(a, component, JogBy(a, component, cached, s, delta))
  {
    hide SetProfile, ProfileIs, SafeTrace;
    SetProfileInv(a, component, cached, s, JogMode);
    SendInv(a, component, SetProfile(a, component, cached, s, JogMode),
            s.targets[s.selected := Plus(s.targets[s.selected], Rad(delta))], Jogged(s.selected, delta));
  }

  /** The keys that move the arm or toggle torque, and what they come to. */
  lemma ActiveKeys(a: Args, component: bool, cached: bool, s: Session, key: int, positions: seq<Reading>)
    requires Selects(s)
    ensures var s' := Press(a, component, cached, s, key, positions);
            && (key == Code('t') ==> s' == ToggleTorque(s, positions))
            && (s.torqueOn && key == Code('h') ==> s' == GoHome(a, component, cached, s))
            && (s.torqueOn && (key == KEY_LEFT || key == KEY_RIGHT) ==>
                  s' == JogBy(a, component, cached, s, if key == KEY_RIGHT then s.step else -s.step))
  {
    hide ToggleTorque, GoHome, JogBy;
  }

  lemma PressInv(a: Args, component: bool, cached: bool, s: Session, key: int, positions: seq<Reading>)
    requires Inv(a, component, s) && |positions| == |s.targets|
    ensures Inv(a, component, Press(a, component, cached, s, key, positions))
  {
    InvSelects(a, component, s);
    ActiveKeys(a, component, cached, s, key, positions);
    hide Inv, ToggleTorque, GoHome, JogBy, Press;
    if key == Code('t') {
      ToggleInv(a, component, s, positions);
    } else if s.torqueOn && key == Code('h') {
      HomeInv(a, component, cached, s);
    } else if s.torqueOn && IsMotion(key) {
      JogInv(a, component, cached, s, if key == KEY_RIGHT then s.step else -s.step);
    } else {
      SilentKeys(a, component, cached, s, key, positions);
      FrameInv(a, component, s, Press(a, component, cached, s, key, positions));
    }
  }

  lemma {:induction false} LoopInv(a: Args, component: bool, cached: bool, s: Session, inputs: seq<Input>)
    requires Inv(a, component, s) && Sized(inputs, |s.targets|)
    ensures Inv(a, component, Loop(a, component, cached, s, inputs))
    decreases |inputs|
  {
    if inputs == [] || s.finished {
    } else {
      hide Inv, Press;
      InvSelects(a, component, s);
      PressInv(a, component, cached, s, inputs[0].key, inputs[0].positions);
      PressSelects(a, component, cached, s, inputs[0].key, inputs[0].positions);
      LoopInv(a, component, cached, Press(a, component, cached, s, inputs[0].key, inputs[0].positions), inputs[1..]);
    }
  }

  lemma InvSelects(a: Args, component: bool, s: Session)
    requires Inv(a, component, s)
    ensures Selects(s) && StepKept(a, s.step)
  {
  }

  /**
   Jog safety, for every key sequence from a non-empty pose: the selection and the step stay in
   range and every act of the trace follows from the acts before it as stated above. With a known
   component that includes the profile registers at every motion, although repeats are skipped.
   */
  lemma EveryKeySequenceIsSafe(a: Args, component: bool, positions: seq<Reading>, inputs: seq<Input>)
    requires positions != [] && Sized(inputs, |positions|)
    ensures var s := Loop(a, component, true, Start(a, positions), inputs);
            && 0 <= s.selected < |positions| && |s.targets| == |positions|
            && (ValidArgs(a) ==> InBounds(a, s.step))
            && SafeTrace(a, component, positions, s.trace)
            && s.torqueOn == TorqueAfter(s.trace) && s.targets == PoseAfter(positions, s.trace)
  {
    LoopInv(a, component, true, Start(a, positions), inputs);
    LoopSize(a, component, true, Start(a, positions), inputs);
  }

  lemma {:induction false} LoopSize(a: Args, component: bool, cached: bool, s: Session, inputs: seq<Input>)
    requires Selects(s) && Sized(inputs, |s.targets|)
    ensures var s' := Loop(a, component, cached, s, inputs);
            Selects(s') && |s'.targets| == |s.targets| && s'.startPose == s.startPose
    decreases |inputs|
  {
    if inputs == [] || s.finished {
    } else {
      hide Press;
      PressSelects(a, component, cached, s, inputs[0].key, inputs[0].positions);
      LoopSize(a, component, cached, Press(a, component, cached, s, inputs[0].key, inputs[0].positions), inputs[1..]);
    }
  }

  // ---------- what the keys mean, read on their own

  // The arrow keys as curses numbers them.

  predicate Up(key: int) { key == 259 || key == Code('p') }
  predicate Down(key: int) { key == 258 || key == Code('n') }

  function Turn(key: int): int { (if Down(key) then 1 else 0) - (if Up(key) then 1 else 0) }

  /** A digit that names one of the first nine joints. */
  predicate Picks(n: nat, key: int) { Code('1') <= key <= Code('9') && key - Code('1') < n }

  /** A key that ends the tool has been pressed. */
  predicate Ended(inputs: seq<Input>) {
    exists i :: i in inputs && (i.key == Code('q') || i.key == 27)
  }

  /** The joint that the latest digit picked, or the first. */
  function Picked(n: nat, inputs: seq<Input>): int {
    if inputs == [] then 0
    else
      var key := inputs[|inputs| - 1].key;
      if Picks(n, key) then key - Code('1') else Picked(n, inputs[..|inputs| - 1])
  }

  /** How far the selection has moved since that digit: down keys less up keys. */
  function Moved(n: nat, inputs: seq<Input>): int {
    if inputs == [] then 0
    else
      var key, before := inputs[|inputs| - 1].key, inputs[..|inputs| - 1];
      if Picks(n, key) then 0 else Moved(n, before) + Turn(key)
  }

  /** The joint selected after these keys, around the list. */
  function SelectedAfter(n: nat, inputs: seq<Input>): (r: int)
    requires n > 0
    ensures 0 <= r < n
  {
    (Picked(n, inputs) + Moved(n, inputs)) % n
  }

  /** The step after these keys: halved and doubled within its bounds. */
  function StepAfter(a: Args, inputs: seq<Input>): real {
    if inputs == [] then a.step
    else
      var key, step := inputs[|inputs| - 1].key, StepAfter(a, inputs[..|inputs| - 1]);
      if key == Code('[') then (if step / 2.0 < a.stepMin then a.stepMin else step / 2.0)
      else if key == Code(']') then (if step * 2.0 > a.stepMax then a.stepMax else step * 2.0)
      else step
  }

  function TorqueKeys(inputs: seq<Input>): nat {
    if inputs == [] then 0
    else TorqueKeys(inputs[..|inputs| - 1]) + if inputs[|inputs| - 1].key == Code('t') then 1 else 0
  }

  /** Torque is on after an even number of torque keys. */
  predicate OnAfter(inputs: seq<Input>) { TorqueKeys(inputs) % 2 == 0 }

  /** What a motion was for, last. */
  function LastMotion(trace: seq<Act>): Option<Mode> {
    if trace == [] then None
    else
      match trace[|trace| - 1]
      case Sent(_, Jogged(_, _)) => Some(JogMode)
      case Sent(_, Homed) => Some(HomeMode)
      case _ => LastMotion(trace[..|trace| - 1])
  }

  /** The profile writes before a motion: both registers when the last motion was of the other kind. */
  function Switch(a: Args, component: bool, trace: seq<Act>, mode: Mode): seq<Act> {
    if !component || LastMotion(trace) == Some(mode) then []
    else if mode == JogMode then [Profile(108, a.jogAcceleration), Profile(112, a.jogVelocity)]
    else [Profile(108, a.homeAcceleration), Profile(112, a.homeVelocity)]
  }

  /** Whether a tool that has not ended, having read these keys, has torque on. */
  predicate CanMove(inputs: seq<Input>) { !Ended(inputs) && OnAfter(inputs) }

  // ---------- the state of the loop is what the keys mean

  /** The tool's variables are those that the keys so far and its trace spell out. */
  predicate Reads(a: Args, component: bool, start: seq<Reading>, s: Session, inputs: seq<Input>) {
    && start != [] && s.startPose == start && |s.targets| == |start|
    && s.finished == Ended(inputs)
    && s.targets == PoseAfter(start, s.trace)
    && s.profileMode == (if component then LastMotion(s.trace) else None)
    && (!s.finished ==>
          && s.selected == SelectedAfter(|start|, inputs) && s.step == StepAfter(a, inputs)
          && s.torqueOn == OnAfter(inputs))
  }

  /** What one key does to the folds. */
  lemma FoldsSnoc(a: Args, n: nat, inputs: seq<Input>, i: Input)
    requires n > 0
    ensures var after, at := inputs + [i], SelectedAfter(n, inputs);
            && (Ended(after) <==> Ended(inputs) || i.key == Code('q') || i.key == ESCAPE)
            && (OnAfter(after) <==> OnAfter(inputs) != (i.key == Code('t')))
            && SelectedAfter(n, after) ==
                 (if Picks(n, i.key) then i.key - Code('1') else if Up(i.key) then (at - 1) % n
                  else if Down(i.key) then (at + 1) % n else at)
            && StepAfter(a, after) ==
                 (if i.key == Code('[') then Max(a.stepMin, StepAfter(a, inputs) / 2.0)
                  else if i.key == Code(']') then Min(a.stepMax, StepAfter(a, inputs) * 2.0)
                  else StepAfter(a, inputs))
  {
    hide SelectedAfter;
    var after := inputs + [i];
    assert after[..|inputs|] == inputs && after[|inputs|] == i;
    SelectedSnoc(n, inputs, i);
    DivModUnique(SelectedAfter(n, inputs), n, 0, SelectedAfter(n, inputs));
  }

  lemma SelectedSnoc(n: nat, inputs: seq<Input>, i: Input)
    requires n > 0
    ensures SelectedAfter(n, inputs + [i]) ==
              if Picks(n, i.key) then i.key - Code('1') else (SelectedAfter(n, inputs) + Turn(i.key)) % n
  {
    var after := inputs + [i];
    assert after[..|inputs|] == inputs && after[|inputs|] == i;
    if Picks(n, i.key) {
      DivModUnique(i.key - Code('1'), n, 0, i.key - Code('1'));
    } else {
      ModStep(Picked(n, inputs) + Moved(n, inputs), Turn(i.key), n);
    }
  }

  lemma ModStep(x: int, d: int, n: nat)
    requires n > 0
    ensures (x % n + d) % n == (x + d) % n
  {
    var y := x % n + d;
    assert x + d == n * (x / n) + y;
    assert y == n * (y / n) + y % n;
    assert x + d == n * (x / n + y / n) + y % n;
    DivModUnique(x + d, n, x / n + y / n, y % n);
  }

  lemma {:induction false} LoopSnoc(a: Args, component: bool, cached: bool, s: Session, inputs: seq<Input>, i: Input)
    requires Selects(s) && Sized(inputs + [i], |s.targets|) && Sized(inputs, |s.targets|)
    ensures var r := Loop(a, component, cached, s, inputs);
            && Selects(r)
            && Loop(a, component, cached, s, inputs + [i]) ==
                 if r.finished then r else Press(a, component, cached, r, i.key, i.positions)
    decreases |inputs|
  {
    hide Press;
    if inputs == [] {
      assert [] + [i] == [i];
      if !s.finished {
        PressSelects(a, component, cached, s, i.key, i.positions);
        assert [i][1..] == [];
      }
    } else if !s.finished {
      assert (inputs + [i])[1..] == inputs[1..] + [i] && (inputs + [i])[0] == inputs[0];
      PressSelects(a, component, cached, s, inputs[0].key, inputs[0].positions);
      var s1 := Press(a, component, cached, s, inputs[0].key, inputs[0].positions);
      LoopSnoc(a, component, cached, s1, inputs[1..], i);
    }
  }

  function JogAct(pose: seq<Reading>, joint: int, delta: real): Act
    requires 0 <= joint < |pose|
  {
    Sent(pose[joint := Plus(pose[joint], Rad(delta))], Jogged(joint, delta))
  }

  /** Both profile registers, when they are due, and then one motion: what that leaves to read. */
  lemma MotionReads(a: Args, component: bool, start: seq<Reading>, trace: seq<Act>, mode: Mode, act: Act)
    requires act.Sent? && act.why != HeldHere && (act.why == Homed <==> mode == HomeMode)
    ensures var after := trace + Switch(a, component, trace, mode) + [act];
            && PoseAfter(start, after) == act.targets && LastMotion(after) == Some(mode)
            && PoseAfter(start, trace + Switch(a, component, trace, mode)) == PoseAfter(start, trace)
  {
    var all := trace + Switch(a, component, trace, mode);
    assert (all + [act])[..|all|] == all;
    if all != trace {
      AfterSnoc(start, trace, all[|trace|]);
      assert all == trace + [all[|trace|]] + [all[|trace| + 1]];
      AfterSnoc(start, trace + [all[|trace|]], all[|trace| + 1]);
    } else {
      assert trace + [] == trace;
    }
  }

  /** A profile switch in the tool is the one its trace calls for. */
  lemma SwitchesAsRead(a: Args, component: bool, s: Session, mode: Mode)
    requires s.profileMode == if component then LastMotion(s.trace) else None
    ensures SetProfile(a, component, true, s, mode) ==
            s.(trace := s.trace + Switch(a, component, s.trace, mode),
               profileMode := if component then Some(mode) else None)
  {
    hide LastMotion;
    assert s.trace + [] == s.trace;
  }

  lemma HomeReads(a: Args, component: bool, start: seq<Reading>, s: Session, inputs: seq<Input>, i: Input)
    requires Reads(a, component, start, s, inputs) && CanMove(inputs) && i.key == Code('h')
    ensures var s' := Press(a, component, true, s, i.key, i.positions);
            && Reads(a, component, start, s', inputs + [i])
            && s'.trace == s.trace + Switch(a, component, s.trace, HomeMode) + [Sent(start, Homed)]
  {
    hide LastMotion, PoseAfter, Switch, SetProfile, Ended, OnAfter, SelectedAfter, StepAfter;
    ActiveKeys(a, component, true, s, i.key, i.positions);
    SwitchesAsRead(a, component, s, HomeMode);
    MotionReads(a, component, start, s.trace, HomeMode, Sent(start, Homed));
    FoldsSnoc(a, |start|, inputs, i);
  }

  lemma JogReads(a: Args, component: bool, start: seq<Reading>, s: Session, inputs: seq<Input>, i: Input, delta: real)
    requires Reads(a, component, start, s, inputs) && CanMove(inputs) && (i.key == KEY_RIGHT || i.key == KEY_LEFT)
    requires delta == if i.key == KEY_RIGHT then StepAfter(a, inputs) else -StepAfter(a, inputs)
    ensures var s' := Press(a, component, true, s, i.key, i.positions);
            && Reads(a, component, start, s', inputs + [i]) && |PoseAfter(start, s.trace)| == |start|
            && s'.trace == s.trace + Switch(a, component, s.trace, JogMode) +
                 [JogAct(PoseAfter(start, s.trace), SelectedAfter(|start|, inputs), delta)]
  {
    hide LastMotion, PoseAfter, Switch, SetProfile, Ended, OnAfter, SelectedAfter, StepAfter;
    ActiveKeys(a, component, true, s, i.key, i.positions);
    SwitchesAsRead(a, component, s, JogMode);
    MotionReads(a, component, start, s.trace, JogMode,
                JogAct(PoseAfter(start, s.trace), SelectedAfter(|start|, inputs), delta));
    FoldsSnoc(a, |start|, inputs, i);
  }

  lemma ToggleReads(a: Args, component: bool, start: seq<Reading>, s: Session, inputs: seq<Input>, i: Input)
    requires Reads(a, component, start, s, inputs) && !Ended(inputs) && i.key == Code('t')
    requires |i.positions| == |start|
    ensures var s' := Press(a, component, true, s, i.key, i.positions);
            && Reads(a, component, start, s', inputs + [i])
            && s'.trace == s.trace +
                 if OnAfter(inputs) then [Torque(false)] else [Sent(i.positions, HeldHere), Torque(true)]
  {
    hide Ended, OnAfter, SelectedAfter, StepAfter, LastMotion, PoseAfter, Press;
    ActiveKeys(a, component, true, s, i.key, i.positions);
    FoldsSnoc(a, |start|, inputs, i);
    if s.torqueOn {
      QuietAct(start, s.trace, Torque(false));
    } else {
      var held := s.trace + [Sent(i.positions, HeldHere)];
      QuietAct(start, s.trace, Sent(i.positions, HeldHere));
      QuietAct(start, held, Torque(true));
      assert s.trace + [Sent(i.positions, HeldHere), Torque(true)] == held + [Torque(true)];
    }
  }

  /** An act that is no motion leaves the last motion as it was. */
  lemma QuietAct(start: seq<Reading>, trace: seq<Act>, act: Act)
    requires act.Sent? ==> act.why == HeldHere
    ensures LastMotion(trace + [act]) == LastMotion(trace)
    ensures PoseAfter(start, trace + [act]) == if act.Sent? then act.targets else PoseAfter(start, trace)
  {
    assert (trace + [act])[..|trace|] == trace;
  }

  /** Any other key, and a motion key with torque off, sends nothing. */
  lemma SilentReads(a: Args, component: bool, start: seq<Reading>, s: Session, inputs: seq<Input>, i: Input)
    requires Reads(a, component, start, s, inputs) && !Ended(inputs)
    requires i.key != Code('t') && (IsMotion(i.key) ==> !OnAfter(inputs))
    ensures var s' := Press(a, component, true, s, i.key, i.positions);
            Reads(a, component, start, s', inputs + [i]) && s'.trace == s.trace
  {
    hide Ended, OnAfter, SelectedAfter, StepAfter, LastMotion, PoseAfter, Max, Min;
    FoldsSnoc(a, |start|, inputs, i);
  }

  predicate Sends(key: int) { IsMotion(key) || key == Code('t') }

  lemma {:induction false} LoopReads(a: Args, component: bool, start: seq<Reading>, inputs: seq<Input>)
    requires start != [] && Sized(inputs, |start|)
    ensures Reads(a, component, start, Loop(a, component, true, Start(a, start), inputs), inputs)
    decreases |inputs|
  {
    var n := |inputs| - 1;
    if n < 0 {
      DivModUnique(0, |start|, 0, 0);
    } else {
      assert inputs == inputs[..n] + [inputs[n]];
      LoopReads(a, component, start, inputs[..n]);
      PressReads(a, component, start, inputs[..n], inputs[n]);
    }
  }

  /**
   What the key of one input adds to the trace after these inputs. A right or left key adds one command
   that moves the selected joint of the last pose by the current step, up or down, an h the starting
   pose, a t torque-off, or the positions known at that very key and then torque-on; a motion is
   preceded by its profile when the last motion was of the other kind. No other key adds anything, nor
   a motion key with torque off, nor any key after one that ended the tool.
   */
  predicate KeyAdds(a: Args, component: bool, start: seq<Reading>, inputs: seq<Input>, i: Input,
                    before: seq<Act>, after: seq<Act>)
    requires start != []
  {
    var pose, joint, step := PoseAfter(start, before), SelectedAfter(|start|, inputs), StepAfter(a, inputs);
    && |pose| == |start|
    && (CanMove(inputs) && i.key == 261 ==>
          after == before + Switch(a, component, before, JogMode) + [JogAct(pose, joint, step)])
    && (CanMove(inputs) && i.key == 260 ==>
          after == before + Switch(a, component, before, JogMode) + [JogAct(pose, joint, -step)])
    && (CanMove(inputs) && i.key == Code('h') ==>
          after == before + Switch(a, component, before, HomeMode) + [Sent(start, Homed)])
    && (!Ended(inputs) && i.key == Code('t') ==>
          after == before + if OnAfter(inputs) then [Torque(false)] else [Sent(i.positions, HeldHere), Torque(true)])
    && (Ended(inputs) || !Sends(i.key) || (IsMotion(i.key) && !OnAfter(inputs)) ==> after == before)
  }

  /** One more key. */
  lemma PressReads(a: Args, component: bool, start: seq<Reading>, inputs: seq<Input>, i: Input)
    requires start != [] && Sized(inputs, |start|) && |i.positions| == |start|
    requires Reads(a, component, start, Loop(a, component, true, Start(a, start), inputs), inputs)
    ensures var before := Loop(a, component, true, Start(a, start), inputs);
            var after := Loop(a, component, true, Start(a, start), inputs + [i]);
            && Reads(a, component, start, after, inputs + [i])
            && KeyAdds(a, component, start, inputs, i, before.trace, after.trace)
  {
    hide Loop, Press, Reads, Ended, OnAfter, PoseAfter, Switch, SelectedAfter, StepAfter;
    var s := Loop(a, component, true, Start(a, start), inputs);
    LoopSnoc(a, component, true, Start(a, start), inputs, i);
    ReadsEnded(a, component, start, s, inputs, i);
    if Ended(inputs) {
    } else if i.key == Code('t') {
      ToggleReads(a, component, start, s, inputs, i);
    } else if !IsMotion(i.key) || !OnAfter(inputs) {
      SilentReads(a, component, start, s, inputs, i);
    } else if i.key == Code('h') {
      HomeReads(a, component, start, s, inputs, i);
    } else {
      JogReads(a, component, start, s, inputs, i,
               if i.key == KEY_RIGHT then StepAfter(a, inputs) else -StepAfter(a, inputs));
    }
  }

  lemma ReadsEnded(a: Args, component: bool, start: seq<Reading>, s: Session, inputs: seq<Input>, i: Input)
    requires Reads(a, component, start, s, inputs)
    ensures s.finished == Ended(inputs) && |PoseAfter(start, s.trace)| == |start|
    ensures s.finished ==> Reads(a, component, start, s, inputs + [i])
  {
  }

  /** Every key of every sequence does exactly what the keys before it make it mean. */
  lemma EachKeyActs(a: Args, component: bool, start: seq<Reading>, inputs: seq<Input>, k: nat)
    requires start != [] && Sized(inputs, |start|) && k < |inputs|
    ensures Sized(inputs[..k], |start|) && Sized(inputs[..k + 1], |start|)
    ensures var before := Loop(a, component, true, Start(a, start), inputs[..k]).trace;
            var after := Loop(a, component, true, Start(a, start), inputs[..k + 1]).trace;
            KeyAdds(a, component, start, inputs[..k], inputs[k], before, after)
  {
    hide Loop, KeyAdds;
    assert inputs[..k + 1] == inputs[..k] + [inputs[k]];
    LoopReads(a, component, start, inputs[..k]);
    PressReads(a, component, start, inputs[..k], inputs[k]);
  }

  // ---------- when the step stays within its bounds

  function Presses(key: int, n: nat, positions: seq<Reading>): (r: seq<Input>)
    ensures |r| == n && forall i :: i in r ==> i == Input(key, positions)
  {
    seq(n, i => Input(key, positions))
  }

  lemma PressesSnoc(a: Args, key: int, n: nat, positions: seq<Reading>)
    ensures var before, after := StepAfter(a, Presses(key, n, positions)), StepAfter(a, Presses(key, n + 1, positions));
            && (key == Code('[') ==> after == Max(a.stepMin, before / 2.0))
            && (key == Code(']') ==> after == Min(a.stepMax, before * 2.0))
  {
    assert Presses(key, n + 1, positions)[..n] == Presses(key, n, positions);
  }

  lemma {:induction false} DoublingFalls(a: Args, n: nat, positions: seq<Reading>)
    requires a.step < 0.0 <= a.stepMax
    ensures StepAfter(a, Presses(Code(']'), n, positions)) <= a.step * (n + 1) as real
  {
    NoKeys(a);
    assert Presses(Code(']'), 0, positions) == [];
    hide StepAfter, Presses;
    if n > 0 {
      DoublingFalls(a, n - 1, positions);
      PressesSnoc(a, Code(']'), n - 1, positions);
      Doubled(StepAfter(a, Presses(Code(']'), n - 1, positions)), n, a.step);
    }
  }

  lemma Doubled(s: real, n: nat, step: real)
    requires n > 0 && step < 0.0 && s <= step * n as real
    ensures s * 2.0 <= step * (n + 1) as real
  {
    assert step * n as real * 2.0 == step * (n + 1) as real + step * (n - 1) as real;
    assert step * (n - 1) as real <= 0.0;
  }

  lemma {:induction false} HalvingRises(a: Args, n: nat, positions: seq<Reading>)
    requires a.stepMin <= a.step < 0.0
    ensures var s := StepAfter(a, Presses(Code('['), n, positions));
            a.stepMin <= s < 0.0 && s * (n + 1) as real >= a.step
  {
    NoKeys(a);
    assert Presses(Code('['), 0, positions) == [];
    hide StepAfter, Presses;
    if n > 0 {
      HalvingRises(a, n - 1, positions);
      PressesSnoc(a, Code('['), n - 1, positions);
      var s := StepAfter(a, Presses(Code('['), n - 1, positions));
      Halved(s, n, a.step);
    }
  }

  lemma Halved(s: real, n: nat, floor: real)
    requires n > 0 && s < 0.0 && s * n as real >= floor
    ensures s / 2.0 * (n + 1) as real >= floor
  {
    assert s / 2.0 * (n + 1) as real == s * n as real + s * (1 - n) as real / 2.0;
    assert s * (1 - n) as real >= 0.0;
  }

  /** A negative step leaves its bounds by doubling, or, where the upper bound is negative too, by halving. */
  lemma NegativeStepLeaves(a: Args, positions: seq<Reading>) returns (inputs: seq<Input>)
    requires a.step < 0.0
    ensures !InBounds(a, StepAfter(a, inputs))
    ensures !Ended(inputs) && forall i :: i in inputs ==> i.positions == positions
  {
    NoKeys(a);
    hide StepAfter;
    if !InBounds(a, a.step) {
      inputs := [];
    } else if a.stepMax >= 0.0 {
      var n := (a.stepMin / a.step).Floor + 1;
      assert n as real > a.stepMin / a.step;
      inputs := Presses(Code(']'), n, positions);
      DoublingFalls(a, n, positions);
      Beyond(a.step, n, a.stepMin);
    } else {
      var n := (a.step / a.stepMax).Floor + 1;
      inputs := Presses(Code('['), n, positions);
      HalvingRises(a, n, positions);
      Beyond(a.stepMax, n, a.step);
      ScaledOrder(StepAfter(a, inputs), a.stepMax, n);
    }
  }

  lemma ScaledOrder(x: real, y: real, n: nat)
    ensures x <= y ==> x * (n + 1) as real <= y * (n + 1) as real
  {
  }

  lemma NoKeys(a: Args)
    ensures StepAfter(a, []) == a.step && !Ended([])
  {
  }

  lemma Beyond(x: real, n: nat, y: real)
    requires x < 0.0 && n as real > y / x
    ensures x * (n + 1) as real < y
  {
    assert x * (y / x) == y;
    assert x * n as real < y;
  }

  /**
   Exactly when the step never leaves its bounds, whatever keys are pressed: when the starting step lies
   within them and is not negative. The argument parser asks for neither.
   */
  lemma StepStaysInBounds(a: Args, component: bool, start: seq<Reading>)
    requires start != []
    ensures (forall inputs :: Sized(inputs, |start|) ==>
               InBounds(a, Loop(a, component, true, Start(a, start), inputs).step)) <==>
            ValidArgs(a)
  {
    hide Loop, SafeTrace, StepAfter, Ended;
    if ValidArgs(a) {
      forall inputs | Sized(inputs, |start|)
        ensures InBounds(a, Loop(a, component, true, Start(a, start), inputs).step)
      {
        EveryKeySequenceIsSafe(a, component, start, inputs);
      }
    } else {
      var inputs := [];
      NoKeys(a);
      if a.step < 0.0 { inputs := NegativeStepLeaves(a, start); }
      LoopReads(a, component, start, inputs);
      assert !InBounds(a, Loop(a, component, true, Start(a, start), inputs).step);
    }
  }

  // ---------- the cache refines the tool without it

  /** Everything but the profile writes. */
  function Motions(trace: seq<Act>): seq<Act> {
    if trace == [] then []
    else
      var last := trace[|trace| - 1];
      Motions(trace[..|trace| - 1]) + if last.Profile? then [] else [last]
  }

  lemma MotionsSnoc(trace: seq<Act>, act: Act)
    ensures Motions(trace + [act]) == Motions(trace) + if act.Profile? then [] else [act]
  {
    assert (trace + [act])[..|trace|] == trace;
  }

  lemma MotionsSnoc2(trace: seq<Act>, p: Act, q: Act)
    ensures Motions(trace + [p, q])
         == Motions(trace) + (if p.Profile? then [] else [p]) + (if q.Profile? then [] else [q])
  {
    assert trace + [p, q] == (trace + [p]) + [q];
    MotionsSnoc(trace, p);
    MotionsSnoc(trace + [p], q);
  }

  /** Two sessions that differ only in profile writes. */
  predicate SameButProfiles(s: Session, t: Session) {
    && t == s.(trace := t.trace, profileMode := t.profileMode)
    && Motions(s.trace) == Motions(t.trace)
  }

  lemma SetProfileMotions(a: Args, component: bool, cached: bool, s: Session, mode: Mode)
    ensures SameButProfiles(s, SetProfile(a, component, cached, s, mode))
  {
    MotionsSnoc2(s.trace, Profile(PROFILE_ACCELERATION, Acceleration(a, mode)),
                 Profile(PROFILE_VELOCITY, Velocity(a, mode)));
  }

  lemma ToggleSame(s: Session, t: Session, positions: seq<Reading>)
    requires SameButProfiles(s, t)
    ensures SameButProfiles(ToggleTorque(s, positions), ToggleTorque(t, positions))
  {
    hide Motions;
    MotionsSnoc(s.trace, Torque(false));
    MotionsSnoc(t.trace, Torque(false));
    MotionsSnoc2(s.trace, Sent(positions, HeldHere), Torque(true));
    MotionsSnoc2(t.trace, Sent(positions, HeldHere), Torque(true));
  }

  lemma HomeSame(a: Args, component: bool, s: Session, t: Session)
    requires SameButProfiles(s, t)
    ensures SameButProfiles(GoHome(a, component, true, s), GoHome(a, component, false, t))
  {
    hide Motions, SetProfile;
    MotionSame(a, component, s, t, HomeMode, Sent(s.startPose, Homed));
  }

  lemma JogSame(a: Args, component: bool, s: Session, t: Session, delta: real)
    requires Selects(s) && Selects(t) && SameButProfiles(s, t)
    ensures SameButProfiles(JogBy(a, component, true, s, delta), JogBy(a, component, false, t, delta))
  {
    hide Motions, SetProfile;
    var targets := s.targets[s.selected := Plus(s.targets[s.selected], Rad(delta))];
    MotionSame(a, component, s, t, JogMode, Sent(targets, Jogged(s.selected, delta)));
  }

  lemma PressSame(a: Args, component: bool, s: Session, t: Session, key: int, positions: seq<Reading>)
    requires Selects(s) && Selects(t) && SameButProfiles(s, t)
    ensures SameButProfiles(Press(a, component, true, s, key, positions), Press(a, component, false, t, key, positions))
  {
    hide Motions, Press, GoHome, JogBy, ToggleTorque;
    ActiveKeys(a, component, true, s, key, positions);
    ActiveKeys(a, component, false, t, key, positions);
    if key == Code('t') {
      ToggleSame(s, t, positions);
    } else if s.torqueOn && key == Code('h') {
      HomeSame(a, component, s, t);
    } else if s.torqueOn && IsMotion(key) {
      JogSame(a, component, s, t, if key == KEY_RIGHT then s.step else -s.step);
    } else {
      SilentSame(a, component, s, t, key, positions);
    }
  }

  lemma SilentSame(a: Args, component: bool, s: Session, t: Session, key: int, positions: seq<Reading>)
    requires Selects(s) && t == s.(trace := t.trace, profileMode := t.profileMode)
    requires key != Code('t') && (IsMotion(key) ==> !s.torqueOn)
    ensures var s', t' := Press(a, component, true, s, key, positions), Press(a, component, false, t, key, positions);
            t' == s'.(trace := t.trace, profileMode := t.profileMode) && s'.trace == s.trace
  {
    hide Max, Min;
  }

  lemma MotionSame(a: Args, component: bool, s: Session, t: Session, mode: Mode, act: Act)
    requires SameButProfiles(s, t) && act.Sent?
    ensures var s1, t1 := SetProfile(a, component, true, s, mode), SetProfile(a, component, false, t, mode);
            && SameButProfiles(s1, t1) && Motions(s1.trace + [act]) == Motions(t1.trace + [act])
            && s1 == s.(trace := s1.trace, profileMode := s1.profileMode)
  {
    hide Motions;
    SetProfileMotions(a, component, true, s, mode);
    SetProfileMotions(a, component, false, t, mode);
    MotionsSnoc(SetProfile(a, component, true, s, mode).trace, act);
    MotionsSnoc(SetProfile(a, component, false, t, mode).trace, act);
  }

  /**
   Skipping repeated profile writes changes nothing but those writes: for every key sequence the
   tool sends the same commands and torque requests, in the same order, as one that always writes.
   */
  lemma {:induction false} CacheOnlySkipsProfiles(a: Args, component: bool, s: Session, t: Session, inputs: seq<Input>)
    requires Selects(s) && Sized(inputs, |s.targets|) && SameButProfiles(s, t)
    ensures SameButProfiles(Loop(a, component, true, s, inputs), Loop(a, component, false, t, inputs))
    decreases |inputs|
  {
    if inputs == [] || s.finished {
    } else {
      hide Press, SameButProfiles;
      var i := inputs[0];
      SameSelects(s, t);
      PressSelects(a, component, true, s, i.key, i.positions);
      PressSelects(a, component, false, t, i.key, i.positions);
      PressSame(a, component, s, t, i.key, i.positions);
      CacheOnlySkipsProfiles(a, component, Press(a, component, true, s, i.key, i.positions),
                             Press(a, component, false, t, i.key, i.positions), inputs[1..]);
    }
  }

  lemma SameSelects(s: Session, t: Session)
    requires Selects(s) && SameButProfiles(s, t)
    ensures Selects(t) && |t.targets| == |s.targets| && t.finished == s.finished
  {
  }
}
