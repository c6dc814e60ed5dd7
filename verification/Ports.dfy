/**
 Ownership of the serial port among any number of bus objects in any number of processes, one system
 call at a time. A bus object opens the device file, takes its advisory lock without waiting, opens
 the port and sets the baud rate; closing goes back the same way. The lock belongs to the open file,
 so the operating system also takes it back when a process dies.
 */
module Ports {
  import opened Wrappers
  import opened BusModel

  /** Where a bus object stands between the system calls of its open and close. */
  datatype Phase =
    | Closed    // no file
    | HasFile   // device file open, lock not asked for yet
    | Refused   // somebody else has the lock; the file is about to be closed
    | HasLock   // lock taken, port not open
    | PortUp    // port open, baud rate not set
    | Running   // open returned true
    | BaudBad   // port open, baud rate refused
    | PortDown  // port closed or never opened, lock still held
    | Unlocked  // lock given back, file about to be closed

  predicate Holds(p: Phase) {
    p.HasLock? || p.PortUp? || p.Running? || p.BaudBad? || p.PortDown?
  }

  predicate PortIsOpen(p: Phase) {
    p.PortUp? || p.Running? || p.BaudBad?
  }

  /** The system calls of open and close that leave the lock as it is. */
  predicate KeepsLock(p: Phase, p': Phase) {
    match p
    case Closed => p'.HasFile?
    case HasFile => p'.Refused?
    case Refused => p'.Closed?
    case HasLock => p'.PortUp? || p'.PortDown?
    case PortUp => p'.Running? || p'.BaudBad?
    case Running => p'.PortDown?
    case BaudBad => p'.PortDown?
    case PortDown => false
    case Unlocked => p'.Closed?
  }

  type BusId = nat

  /** Each bus object's phase and the device it is for, and who holds each device's lock. */
  datatype Machine = Machine(phases: map<BusId, Phase>, device: map<BusId, string>, owner: map<string, BusId>)

  predicate WellFormed(m: Machine) {
    m.phases.Keys == m.device.Keys
  }

  predicate Moves(m: Machine, m': Machine, b: BusId)
    requires WellFormed(m) && b in m.phases
  {
    && m'.device == m.device && b in m'.phases && m'.phases == m.phases[b := m'.phases[b]]
    && var d, p, p' := m.device[b], m.phases[b], m'.phases[b];
       || (KeepsLock(p, p') && m'.owner == m.owner)
       || (p.HasFile? && p'.HasLock? && d !in m.owner && m'.owner == m.owner[d := b])
       || (p.PortDown? && p'.Unlocked? && m'.owner == m.owner - {d})
       || (p'.Closed? && m'.owner == if Holds(p) then m.owner - {d} else m.owner)  // process death
  }

  ghost predicate Next(m: Machine, m': Machine) {
    WellFormed(m) && exists b :: b in m.phases && Moves(m, m', b)
  }

  predicate Start(m: Machine) {
    WellFormed(m) && m.owner == map[] && forall b :: b in m.phases ==> m.phases[b].Closed?
  }

  ghost predicate Run(ms: seq<Machine>) {
    && |ms| > 0 && Start(ms[0])
    && forall k :: 0 <= k < |ms| - 1 ==> Next(ms[k], ms[k + 1])
  }

  /** The lock of a device is recorded for exactly the object whose phase says it holds it. */
  predicate LockMatches(m: Machine) {
    && WellFormed(m)
    && forall b :: b in m.phases ==>
         (Holds(m.phases[b]) <==> m.device[b] in m.owner && m.owner[m.device[b]] == b)
  }

  lemma StepKeepsLockMatch(m: Machine, m': Machine, b: BusId)
    requires LockMatches(m) && b in m.phases && Moves(m, m', b)
    ensures LockMatches(m')
  {
    forall c | c in m'.phases
      ensures Holds(m'.phases[c]) <==> m'.device[c] in m'.owner && m'.owner[m'.device[c]] == c
    {
      if c != b { assert m'.phases[c] == m.phases[c]; }
    }
  }

  lemma {:induction false} RunKeepsLockMatch(ms: seq<Machine>)
    requires Run(ms)
    ensures LockMatches(ms[|ms| - 1])
    decreases |ms|
  {
    var n := |ms|;
    if n > 1 {
      RunKeepsLockMatch(ms[..n - 1]);
      assert Next(ms[n - 2], ms[n - 1]);
      var b :| b in ms[n - 2].phases && Moves(ms[n - 2], ms[n - 1], b);
      StepKeepsLockMatch(ms[n - 2], ms[n - 1], b);
    }
  }

  /** In every interleaving at most one bus object has a device's port open, and it holds the lock. */
  lemma OnlyOnePortOpen(ms: seq<Machine>, a: BusId, b: BusId)
    requires Run(ms)
    requires var m := ms[|ms| - 1];
             && a in m.phases && b in m.phases && a in m.device && b in m.device
             && m.device[a] == m.device[b]
             && PortIsOpen(m.phases[a]) && PortIsOpen(m.phases[b])
    ensures var m := ms[|ms| - 1];
            a == b && m.device[a] in m.owner && m.owner[m.device[a]] == a
  {
    RunKeepsLockMatch(ms);
  }

  // ---------- one object's calls as sequences of these steps

  /** The phases one undisturbed call of open goes through, given the system's answers. */
  function OpenPath(os: OsReply): seq<Phase> {
    if os.fd.None? then [Closed]
    else if !os.locks then [Closed, HasFile, Refused, Closed]
    else if !os.opens then [Closed, HasFile, HasLock, PortDown, Unlocked, Closed]
    else if !os.setsBaud then [Closed, HasFile, HasLock, PortUp, BaudBad, PortDown, Unlocked, Closed]
    else [Closed, HasFile, HasLock, PortUp, Running]
  }

  predicate Steps(p: Phase, p': Phase) {
    KeepsLock(p, p') || (p.HasFile? && p'.HasLock?) || (p.PortDown? && p'.Unlocked?)
  }

  /** What the driver's own fields say about its phase between calls. */
  predicate InPhase(b: BusState, p: Phase) {
    (p.Closed? && !b.port && b.lockFd.None?) || (p.Running? && b.port && b.lockFd.Some?)
  }

  /**
   From closed, open follows the steps above and ends either running or closed again: it holds the
   lock exactly when the port is open, which is when it returns true. Close always ends closed.
   */
  lemma OpenFollowsThePath(b: BusState, os: OsReply)
    requires InPhase(b, Closed)
    ensures var path := OpenPath(os);
            var (ok, b') := Open(b, os);
            && path[0] == Closed && InPhase(b', path[|path| - 1])
            && (forall k :: 0 <= k < |path| - 1 ==> Steps(path[k], path[k + 1]))
            && (ok <==> path[|path| - 1] == Running)
            && InPhase(Close(b'), Closed)
  {
  }

  predicate LockIffOpen(b: BusState) {
    b.lockFd.Some? <==> b.port
  }

  /**
   Calling open on an object that is already open forgets the file that holds the lock when the
   second lock is refused: the invariant survives every answer of the system only from closed.
   */
  lemma ReopenLosesTheLock(b: BusState)
    requires LockIffOpen(b)
    ensures (forall os :: LockIffOpen(Open(b, os).1)) <==> !b.port
  {
    if b.port {
      var os := OsReply(None, false, false, false);
      assert !LockIffOpen(Open(b, os).1);
    }
  }
}
