/** Many launchers on one state directory: the lock protocol of `LockProtocol`
  * with, for each launcher, the phases of `startQEMU` and `Run` around its QEMU
  * child, the pid file and the overlay file. */
module LaunchSystem {
  import opened Wrappers
  import Lock = LockProtocol

  datatype Child = NoChild | Running | Exited

  /** Where a launcher stands once it holds the lock: `Run`'s statements, then its
    * deferred calls in the order they run, then the deferred release.
    *   Entered      before `prepareDisk`
    *   Prepared     overlay present, about to start a candidate
    *   Grace        a child was started and is being watched
    *   Supervising  the child survived its grace period
    *   Reaped       `done` was received, or no candidate is left
    *   PidCleared   `ClearPID` ran, whether or not it could remove the file
    *   Unwound      the overlay was kept or removed; only the release is left */
  datatype Phase = Outside | Entered | Prepared | Grace | Supervising | Reaped | PidCleared | Unwound

  datatype Launch = Launch(phase: Phase, child: Child)

  /** The pid file: none, the pid of a child of some launcher, or what a write that
    * failed part-way left, which may read as no pid or as a wrong one. */
  datatype PidFile = NoPid | Names(launcher: nat, child: nat) | TornPid

  datatype State = State(lock: Lock.State, launches: map<nat, Launch>, overlay: bool, pidFile: PidFile)

  datatype Label =
    | LockStep(l: Lock.Label)
    | Enter(p: nat)
    | ResetOverlay(p: nat)
    | PrepareDisk(p: nat)
    | PrepareFails(p: nat)
    | PrepareTears(p: nat)
    | StartChild(p: nat)
    | NoCandidateLeft(p: nat)
    | ChildExits(p: nat)
    | GraceReap(p: nat)
    | GraceOver(p: nat)
    | RecordPid(p: nat, child: nat)
    | TearPid(p: nat)
    | SuperviseReap(p: nat)
    | ClearPid(p: nat)
    | KeepPid(p: nat)
    | DropOverlay(p: nat)
    | KeepOverlay(p: nat)

  function LaunchOf(s: State, p: nat): Launch {
    if p in s.launches then s.launches[p] else Launch(Outside, NoChild)
  }

  /** Some QEMU process has the overlay open, started by launcher `p`. */
  predicate ChildRunning(s: State, p: nat) {
    LaunchOf(s, p).child.Running?
  }

  function Actor(l: Label): nat {
    if l.LockStep? then l.l.p else l.p
  }

  /** Which steps are possible. A launcher acts only while it lives; it releases the
    * lock when `Run` has returned or when `startQEMU` gave up before calling it. */
  ghost predicate Enabled(s: State, l: Label) {
    var p := Actor(l);
    var run := LaunchOf(s, p);
    match l
    case LockStep(k) =>
      && Lock.Enabled(s.lock, k)
      && (k.Release? || k.ReleaseError? ==> run.phase.Unwound? || run.phase.Outside?)
    case Enter(_) => Lock.Holds(s.lock, p) && run.phase.Outside?
    case ChildExits(_) => run.child.Running?
    case ResetOverlay(_) => Lock.Live(s.lock, p) && run.phase.Entered?
    case PrepareDisk(_) => Lock.Live(s.lock, p) && run.phase.Entered?
    case PrepareFails(_) => Lock.Live(s.lock, p) && run.phase.Entered?
    case PrepareTears(_) => Lock.Live(s.lock, p) && run.phase.Entered?
    case StartChild(_) => Lock.Live(s.lock, p) && run.phase.Prepared? && run.child.NoChild?
    case NoCandidateLeft(_) => Lock.Live(s.lock, p) && run.phase.Prepared? && run.child.NoChild?
    case GraceReap(_) => Lock.Live(s.lock, p) && run.phase.Grace? && run.child.Exited?
    case GraceOver(_) => Lock.Live(s.lock, p) && run.phase.Grace?
    case RecordPid(_, _) => Lock.Live(s.lock, p) && run.phase.Supervising?
    case TearPid(_) => Lock.Live(s.lock, p) && run.phase.Supervising?
    case SuperviseReap(_) => Lock.Live(s.lock, p) && run.phase.Supervising? && run.child.Exited?
    case ClearPid(_) => Lock.Live(s.lock, p) && run.phase.Reaped?
    case KeepPid(_) => Lock.Live(s.lock, p) && run.phase.Reaped?
    case DropOverlay(_) => Lock.Live(s.lock, p) && run.phase.PidCleared?
    case KeepOverlay(_) => Lock.Live(s.lock, p) && run.phase.PidCleared?
  }

  function Goto(s: State, p: nat, phase: Phase, child: Child): State {
    s.(launches := s.launches[p := Launch(phase, child)])
  }

  ghost function Apply(s: State, l: Label): State
    requires Enabled(s, l)
  {
    var run := LaunchOf(s, Actor(l));
    match l
    case LockStep(k) => s.(lock := Lock.Apply(s.lock, k))
    case Enter(p) => Goto(s, p, Entered, NoChild)
    case ResetOverlay(p) => Goto(s, p, Entered, NoChild).(overlay := false)
    case PrepareDisk(p) => Goto(s, p, Prepared, NoChild).(overlay := true)
    case PrepareFails(p) => Goto(s, p, Unwound, NoChild)
    case PrepareTears(p) => Goto(s, p, Unwound, NoChild).(overlay := true)
    case StartChild(p) => Goto(s, p, Grace, Running)
    case NoCandidateLeft(p) => Goto(s, p, PidCleared, NoChild)
    case ChildExits(p) => Goto(s, p, run.phase, Exited)
    case GraceReap(p) => Goto(s, p, Prepared, NoChild)
    case GraceOver(p) => Goto(s, p, Supervising, run.child)
    case RecordPid(p, child) => s.(pidFile := Names(p, child))
    case TearPid(p) => s.(pidFile := TornPid)
    case SuperviseReap(p) => Goto(s, p, Reaped, NoChild)
    case ClearPid(p) => Goto(s, p, PidCleared, NoChild).(pidFile := NoPid)
    case KeepPid(p) => Goto(s, p, PidCleared, NoChild)
    case DropOverlay(p) => Goto(s, p, Unwound, NoChild).(overlay := false)
    case KeepOverlay(p) => Goto(s, p, Unwound, NoChild)
  }

  ghost predicate Run(s: State, ls: seq<Label>)
    decreases |ls|
  {
    ls == [] || (Enabled(s, ls[0]) && Run(Apply(s, ls[0]), ls[1..]))
  }

  ghost function Final(s: State, ls: seq<Label>): State
    requires Run(s, ls)
    decreases |ls|
  {
    if ls == [] then s else Final(Apply(s, ls[0]), ls[1..])
  }

  /** The hypotheses on a step: a reclaim spares the file of a launcher inside the
    * lock (careful reclaims do), and no launcher dies before its child. */
  ghost predicate Orderly(s: State, l: Label)
    requires Enabled(s, l)
  {
    l.LockStep? ==>
      && Lock.Sparing(s.lock, l.l)
      && (l.l.Crash? ==> !ChildRunning(s, l.l.p))
  }

  ghost predicate OrderlyRun(s: State, ls: seq<Label>)
    requires Run(s, ls)
    decreases |ls|
  {
    ls == [] || (Orderly(s, ls[0]) && OrderlyRun(Apply(s, ls[0]), ls[1..]))
  }

  ghost predicate Init(s: State) {
    Lock.Init(s.lock) && s.launches == map[] && (s.pidFile.Names? ==> s.pidFile.launcher in s.lock.procs)
  }

  /** At most one QEMU process has the overlay open; the overlay is there, its
    * launcher lives and holds the lock, and that lock is the file on disk. */
  ghost predicate SingleQemu(s: State) {
    forall p :: ChildRunning(s, p) ==>
      && s.overlay
      && Lock.Holds(s.lock, p)
      && s.lock.file.Some? && s.lock.file.value.owner == p
      && s.lock.file.value.gen == s.lock.procs[p].pc.gen
      && forall q :: ChildRunning(s, q) ==> q == p
  }

  /** The pid file names a launcher that is supervising its child or has just
    * reaped it, or one that died. */
  ghost predicate PidFileMeaningful(s: State) {
    s.pidFile.Names? && Lock.Live(s.lock, s.pidFile.launcher) ==>
      LaunchOf(s, s.pidFile.launcher).phase in {Supervising, Reaped}
  }

  ghost predicate LaunchOk(s: State, p: nat) {
    var run := LaunchOf(s, p);
    && (p !in s.lock.procs ==> run == Launch(Outside, NoChild))
    && (Lock.Live(s.lock, p) && !run.phase.Outside? && !run.phase.Unwound? ==> Lock.Holds(s.lock, p))
    && (!run.child.NoChild? ==> run.phase.Grace? || run.phase.Supervising?)
    && (run.child.Running? ==> Lock.Live(s.lock, p))
    && (run.phase.Grace? || run.phase.Supervising? ==> !run.child.NoChild?)
    && (Lock.Live(s.lock, p) && run.phase.Unwound? ==> s.lock.procs[p].pc.Holding? || s.lock.procs[p].pc.Released?)
    && (Lock.Live(s.lock, p) && (run.phase.Prepared? || run.phase.Grace? || run.phase.Supervising?) ==> s.overlay)
  }

  ghost predicate Inv(s: State) {
    && Lock.Inv(s.lock)
    && (forall p :: LaunchOk(s, p))
    && (s.pidFile.Names? ==> s.pidFile.launcher in s.lock.procs)
  }

  lemma InvImpliesSingleQemu(s: State)
    requires Inv(s)
    ensures SingleQemu(s)
  {
    Lock.InvImpliesExclusive(s.lock);
    forall p | ChildRunning(s, p)
      ensures Lock.Holds(s.lock, p) && Lock.InLock(s.lock, p) && s.overlay
    {
      assert LaunchOk(s, p);
    }
  }

  /** Only the launcher that holds the lock acts on the overlay, and never while a
    * QEMU process has it open. */
  lemma OverlayChangesAreExclusive(s: State, l: Label)
    requires Inv(s) && Enabled(s, l)
    requires l.ResetOverlay? || l.PrepareDisk? || l.PrepareTears? || l.DropOverlay?
    ensures Lock.Holds(s.lock, l.p) && forall q :: !ChildRunning(s, q)
    ensures forall q :: Lock.Holds(s.lock, q) ==> q == l.p
  {
    assert LaunchOk(s, l.p);
    InvImpliesSingleQemu(s);
    Lock.InvImpliesExclusive(s.lock);
    assert forall q :: ChildRunning(s, q) ==> q == l.p;
  }

  lemma LockStepKeepsLaunch(s: State, l: Label, p: nat)
    requires Inv(s) && l.LockStep? && Enabled(s, l) && Orderly(s, l)
    requires Lock.Inv(Apply(s, l).lock)
    ensures LaunchOk(Apply(s, l), p)
  {
    assert LaunchOk(s, p);
  }

  lemma LockStepKeepsInv(s: State, l: Label)
    requires Inv(s) && l.LockStep? && Enabled(s, l) && Orderly(s, l)
    ensures Inv(Apply(s, l))
  {
    Lock.StepKeepsInv(s.lock, l.l);
    var t := Apply(s, l);
    forall p
      ensures LaunchOk(t, p)
    {
      LockStepKeepsLaunch(s, l, p);
    }
  }

  lemma StepKeepsInv(s: State, l: Label)
    requires Inv(s) && Enabled(s, l) && Orderly(s, l)
    ensures Inv(Apply(s, l))
  {
    if l.LockStep? {
      LockStepKeepsInv(s, l);
    } else {
      var t := Apply(s, l);
      assert LaunchOk(s, l.p);
      if l.ResetOverlay? || l.PrepareDisk? || l.PrepareTears? || l.DropOverlay? {
        OverlayChangesAreExclusive(s, l);
      }
      forall p
        ensures LaunchOk(t, p)
      {
        assert LaunchOk(s, p);
        assert p != l.p ==> ChildRunning(t, p) == ChildRunning(s, p);
      }
    }
  }

  lemma {:induction false} RunKeepsInv(s: State, ls: seq<Label>)
    requires Inv(s) && Run(s, ls) && OrderlyRun(s, ls)
    ensures Inv(Final(s, ls))
    decreases |ls|
  {
    if ls != [] {
      StepKeepsInv(s, ls[0]);
      RunKeepsInv(Apply(s, ls[0]), ls[1..]);
    }
  }

  /** Whole-system safety, for any number of launchers and any interleaving. */
  lemma OrderlyRunsHaveOneQemu(s: State, ls: seq<Label>)
    requires Init(s) && Run(s, ls) && OrderlyRun(s, ls)
    ensures SingleQemu(Final(s, ls))
    ensures Lock.Exclusive(Final(s, ls).lock)
  {
    Lock.InitInv(s.lock);
    RunKeepsInv(s, ls);
    InvImpliesSingleQemu(Final(s, ls));
    Lock.InvImpliesExclusive(Final(s, ls).lock);
  }

  /** The same with the careful reclaims of `LockProtocol` as the hypothesis. */
  ghost predicate CarefulStep(s: State, l: Label)
    requires Enabled(s, l)
  {
    l.LockStep? ==> Lock.Careful(s.lock, l.l) && (l.l.Crash? ==> !ChildRunning(s, l.l.p))
  }

  ghost predicate CarefulRun(s: State, ls: seq<Label>)
    requires Run(s, ls)
    decreases |ls|
  {
    ls == [] || (CarefulStep(s, ls[0]) && CarefulRun(Apply(s, ls[0]), ls[1..]))
  }

  lemma {:induction false} CarefulRunsAreOrderly(s: State, ls: seq<Label>)
    requires Inv(s) && Run(s, ls) && CarefulRun(s, ls)
    ensures OrderlyRun(s, ls)
    decreases |ls|
  {
    if ls != [] {
      if ls[0].LockStep? {
        Lock.CarefulIsSparing(s.lock, ls[0].l);
      }
      StepKeepsInv(s, ls[0]);
      CarefulRunsAreOrderly(Apply(s, ls[0]), ls[1..]);
    }
  }

  /* ---------- what the pid file says ---------- */

  /** A failing `ClearPID` leaves the launcher's own file behind. */
  ghost predicate LeavesPid(s: State, l: Label) {
    l.KeepPid? && s.pidFile.Names? && s.pidFile.launcher == l.p
  }

  lemma StepKeepsPidFileIff(s: State, l: Label)
    requires Inv(s) && PidFileMeaningful(s) && Enabled(s, l)
    ensures PidFileMeaningful(Apply(s, l)) <==> !LeavesPid(s, l)
  {
    if s.pidFile.Names? {
      assert LaunchOk(s, s.pidFile.launcher);
    }
  }

  ghost predicate AlwaysMeaningful(s: State, ls: seq<Label>)
    requires Run(s, ls)
    decreases |ls|
  {
    ls == [] || (PidFileMeaningful(Apply(s, ls[0])) && AlwaysMeaningful(Apply(s, ls[0]), ls[1..]))
  }

  ghost predicate ClearingRun(s: State, ls: seq<Label>)
    requires Run(s, ls)
    decreases |ls|
  {
    ls == [] || (!LeavesPid(s, ls[0]) && ClearingRun(Apply(s, ls[0]), ls[1..]))
  }

  /** In an orderly run the pid file always means what it should, exactly when no
    * `ClearPID` fails on its launcher's own file. */
  lemma {:induction false} PidFileMeaningfulIff(s: State, ls: seq<Label>)
    requires Inv(s) && PidFileMeaningful(s) && Run(s, ls) && OrderlyRun(s, ls)
    ensures AlwaysMeaningful(s, ls) <==> ClearingRun(s, ls)
    decreases |ls|
  {
    if ls != [] {
      StepKeepsPidFileIff(s, ls[0]);
      StepKeepsInv(s, ls[0]);
      if !LeavesPid(s, ls[0]) {
        PidFileMeaningfulIff(Apply(s, ls[0]), ls[1..]);
      }
    }
  }

  /* ---------- the exact condition ---------- */

  /** Two launchers' QEMU processes have the overlay open. */
  ghost predicate Shared(s: State) {
    exists p, q :: p != q && ChildRunning(s, p) && ChildRunning(s, q)
  }

  /** No orderly continuation of `s` ever lets two QEMU processes share the overlay. */
  ghost predicate Safe(s: State) {
    forall ls :: Run(s, ls) && OrderlyRun(s, ls) ==> !Shared(Final(s, ls))
  }

  lemma InvIsSafe(s: State)
    requires Inv(s)
    ensures Safe(s)
  {
    forall ls | Run(s, ls) && OrderlyRun(s, ls)
      ensures !Shared(Final(s, ls))
    {
      RunKeepsInv(s, ls);
      InvImpliesSingleQemu(Final(s, ls));
    }
  }

  lemma SharedIsUnsafe(s: State)
    requires Shared(s)
    ensures !Safe(s)
  {
    assert Run(s, []) && OrderlyRun(s, []) && Final(s, []) == s;
  }

  lemma Cons(s: State, l: Label, ls: seq<Label>)
    requires Enabled(s, l) && Orderly(s, l)
    requires Run(Apply(s, l), ls) && OrderlyRun(Apply(s, l), ls)
    ensures Run(s, [l] + ls) && OrderlyRun(s, [l] + ls)
    ensures Final(s, [l] + ls) == Final(Apply(s, l), ls)
  {
    assert ([l] + ls)[1..] == ls;
  }

  /** What an orderly step leads to being unsafe is unsafe. */
  lemma Back(s: State, l: Label)
    requires Enabled(s, l) && Orderly(s, l) && !Safe(Apply(s, l))
    ensures !Safe(s)
  {
    var ls :| Run(Apply(s, l), ls) && OrderlyRun(Apply(s, l), ls) && Shared(Final(Apply(s, l), ls));
    Cons(s, l, ls);
  }

  /** Launchers that do not exist yet have not started anything. */
  ghost predicate Unborn(s: State) {
    forall p :: p !in s.lock.procs ==> LaunchOf(s, p) == Launch(Outside, NoChild)
  }

  lemma InvImpliesUnborn(s: State)
    requires Inv(s)
    ensures Unborn(s)
  {
    forall p | p !in s.lock.procs
      ensures LaunchOf(s, p) == Launch(Outside, NoChild)
    {
      assert LaunchOk(s, p);
    }
  }

  lemma StepKeepsUnborn(s: State, l: Label)
    requires Unborn(s) && Enabled(s, l)
    ensures Unborn(Apply(s, l))
  {
    var t := Apply(s, l);
    assert forall p :: p in s.lock.procs ==> p in t.lock.procs;
    if !l.LockStep? {
      assert l.p in s.lock.procs;
    }
  }

  /** A lock holder that has not started yet brings a QEMU up in three steps. */
  lemma StartsQemu(s: State, q: nat) returns (t: State)
    requires Lock.Holds(s.lock, q) && LaunchOf(s, q) == Launch(Outside, NoChild) && Unborn(s)
    ensures ChildRunning(t, q) && t.lock == s.lock && Unborn(t)
    ensures forall p :: p != q ==> LaunchOf(t, p) == LaunchOf(s, p)
    ensures !Safe(t) ==> !Safe(s)
  {
    var s1 := Apply(s, Enter(q));
    var s2 := Apply(s1, PrepareDisk(q));
    t := Apply(s2, StartChild(q));
    StepKeepsUnborn(s, Enter(q));
    StepKeepsUnborn(s1, PrepareDisk(q));
    StepKeepsUnborn(s2, StartChild(q));
    if !Safe(t) {
      Back(s2, StartChild(q));
      Back(s1, PrepareDisk(q));
      Back(s, Enter(q));
    }
  }

  /** While there is no lock file a newcomer takes the lock in three steps. */
  lemma NewcomerLocks(s: State) returns (q: nat, t: State)
    requires s.lock.file.None? && Unborn(s)
    ensures q !in s.lock.procs && Lock.Holds(t.lock, q) && Unborn(t) && t.launches == s.launches
    ensures forall p :: p in s.lock.procs ==> p in t.lock.procs && t.lock.procs[p] == s.lock.procs[p]
    ensures !Safe(t) ==> !Safe(s)
  {
    var pid;
    q, pid := Lock.FreshLauncher(s.lock, 0);
    var spawn, create, write := LockStep(Lock.Spawn(q, pid)), LockStep(Lock.Create(q)), LockStep(Lock.WritePid(q));
    var s1 := Apply(s, spawn);
    var s2 := Apply(s1, create);
    t := Apply(s2, write);
    StepKeepsUnborn(s, spawn);
    StepKeepsUnborn(s1, create);
    StepKeepsUnborn(s2, write);
    if !Safe(t) {
      Back(s2, write);
      Back(s1, create);
      Back(s, spawn);
    }
  }

  /** While there is no lock file a newcomer brings a QEMU up, leaving everyone else alone. */
  lemma NewcomerStarts(s: State) returns (q: nat, t: State)
    requires s.lock.file.None? && Unborn(s)
    ensures q !in s.lock.procs && ChildRunning(t, q) && Unborn(t)
    ensures forall p :: p in s.lock.procs ==>
              p in t.lock.procs && t.lock.procs[p] == s.lock.procs[p] && LaunchOf(t, p) == LaunchOf(s, p)
    ensures !Safe(t) ==> !Safe(s)
  {
    var u;
    q, u := NewcomerLocks(s);
    t := StartsQemu(u, q);
  }

  lemma RunningIsBorn(s: State, p: nat)
    requires Unborn(s) && ChildRunning(s, p)
    ensures p in s.lock.procs
  {
  }

  /** A running QEMU without a lock file on disk will have company. */
  lemma UnlockedIsUnsafe(s: State, p: nat)
    requires s.lock.file.None? && Unborn(s) && ChildRunning(s, p)
    ensures !Safe(s)
  {
    RunningIsBorn(s, p);
    var q, t := NewcomerStarts(s);
    assert p != q && ChildRunning(t, p) && ChildRunning(t, q);
    SharedIsUnsafe(t);
  }

  /** What is left of a launcher's way to its release. */
  predicate Leaving(run: Launch) {
    (run.phase.Supervising? && run.child.Exited?) || run.phase.Reaped? || run.phase.PidCleared? || run.phase.Unwound?
  }

  /** How many steps a launcher is away from its release, or from a child of its own. */
  function ToGo(pc: Lock.PC, run: Launch): nat {
    match run.phase
    case Outside => if pc.Created? then 6 else 5
    case Grace => 4
    case Entered => 3
    case Prepared => 2
    case Supervising => 3
    case Reaped => 2
    case PidCleared => 1
    case Unwound => 0
  }

  /** The victim of a reclaim unwinds and releases the lock of the newcomer, whose QEMU
    * is running. */
  lemma VictimReleases(s: State, o: nat, q: nat)
    requires Unborn(s) && o != q && ChildRunning(s, q)
    requires Lock.Holds(s.lock, o) && Leaving(LaunchOf(s, o))
    ensures !Safe(s)
    decreases ToGo(s.lock.procs[o].pc, LaunchOf(s, o))
  {
    var l := match LaunchOf(s, o).phase
      case Supervising => SuperviseReap(o)
      case Reaped => ClearPid(o)
      case PidCleared => KeepOverlay(o)
      case _ => LockStep(Lock.Release(o));
    var t := Apply(s, l);
    StepKeepsUnborn(s, l);
    if l.LockStep? {
      UnlockedIsUnsafe(t, q);
    } else {
      VictimReleases(t, o, q);
    }
    Back(s, l);
  }

  /** What the victim of a reclaim may look like. */
  ghost predicate Victim(s: State, o: nat) {
    && Lock.InLock(s.lock, o)
    && var run := LaunchOf(s, o);
       && (s.lock.procs[o].pc.Created? ==> run.phase.Outside?)
       && (run.child.NoChild? <==> !(run.phase.Grace? || run.phase.Supervising?))
  }

  /** Whatever the victim of a reclaim was doing, two QEMU processes can come of it. */
  lemma VictimIsUnsafe(s: State, o: nat)
    requires s.lock.file.None? && Unborn(s) && Victim(s, o)
    ensures !Safe(s)
    decreases ToGo(s.lock.procs[o].pc, LaunchOf(s, o))
  {
    var run := LaunchOf(s, o);
    if ChildRunning(s, o) {
      UnlockedIsUnsafe(s, o);
    } else if Leaving(run) {
      var q, t := NewcomerStarts(s);
      VictimReleases(t, o, q);
    } else {
      var l := match run.phase
        case Outside => if s.lock.procs[o].pc.Created? then LockStep(Lock.WritePid(o)) else Enter(o)
        case Entered => PrepareDisk(o)
        case Prepared => StartChild(o)
        case _ => GraceReap(o);
      StepKeepsUnborn(s, l);
      if l.StartChild? {
        UnlockedIsUnsafe(Apply(s, l), o);
      } else {
        VictimIsUnsafe(Apply(s, l), o);
      }
      Back(s, l);
    }
  }

  lemma BadReclaimIsUnsafe(s: State, p: nat)
    requires Inv(s) && Enabled(s, LockStep(Lock.Remove(p))) && !Lock.Sparing(s.lock, Lock.Remove(p))
    ensures !Safe(Apply(s, LockStep(Lock.Remove(p))))
  {
    var l := LockStep(Lock.Remove(p));
    var o := s.lock.file.value.owner;
    assert LaunchOk(s, o);
    InvImpliesUnborn(s);
    StepKeepsUnborn(s, l);
    VictimIsUnsafe(Apply(s, l), o);
  }

  /** Once the holder has died, no live process has the recorded process id. */
  lemma DeadHolder(s: State, p: nat, file: Lock.LockFile)
    requires Inv(s) && Enabled(s, LockStep(Lock.Crash(p)))
    requires Lock.FileOk(s.lock, file) && file.owner == p && file.content > 0
    ensures !Lock.PidLive(Apply(s, LockStep(Lock.Crash(p))).lock, file.content)
  {
    var t := Apply(s, LockStep(Lock.Crash(p))).lock;
    forall r | Lock.Live(t, r)
      ensures t.procs[r].pid != file.content
    {
      assert Lock.Live(s.lock, r) && r != p;
    }
  }

  /** The lock steps of a newcomer's take-over, one by one on the whole system. */
  lemma {:induction false} BackLifted(s: State, ls: seq<Lock.Label>)
    requires Lock.Run(s.lock, ls) && Lock.EachStep(s.lock, ls, Lock.Quiet)
    requires !Safe(s.(lock := Lock.Final(s.lock, ls)))
    ensures !Safe(s)
    decreases |ls|
  {
    if ls != [] {
      assert Lock.Quiet(s.lock, ls[0]);
      BackLifted(Apply(s, LockStep(ls[0])), ls[1..]);
      Back(s, LockStep(ls[0]));
    }
  }

  /** A launcher's death is harmless exactly when its child is not running: an
    * orphaned QEMU keeps the overlay open while a newcomer reclaims the lock. */
  lemma CrashSafeIff(s: State, p: nat)
    requires Inv(s) && Enabled(s, LockStep(Lock.Crash(p)))
    ensures Safe(Apply(s, LockStep(Lock.Crash(p)))) <==> !ChildRunning(s, p)
  {
    var t := Apply(s, LockStep(Lock.Crash(p)));
    if !ChildRunning(s, p) {
      StepKeepsInv(s, LockStep(Lock.Crash(p)));
      InvIsSafe(t);
    } else {
      OrphanIsUnsafe(s, p);
    }
  }

  lemma OrphanIsUnsafe(s: State, p: nat)
    requires Inv(s) && Enabled(s, LockStep(Lock.Crash(p))) && ChildRunning(s, p)
    ensures !Safe(Apply(s, LockStep(Lock.Crash(p))))
  {
    var t := Apply(s, LockStep(Lock.Crash(p)));
    assert LaunchOk(s, p) && Lock.InLock(s.lock, p) && Lock.ProcOk(s.lock, p);
    var file := t.lock.file.value;
    assert Lock.FileOk(s.lock, file) && file.owner == p;
    if file.content > 0 {
      DeadHolder(s, p, file);
    }
    var q, pid := Lock.FreshLauncher(t.lock, file.content);
    Lock.NewcomerTakesOver(t.lock, q, pid);
    var u := t.(lock := Lock.Final(t.lock, Lock.TakeOver(q, pid)));
    InvImpliesUnborn(s);
    var v := StartsQemu(u, q);
    assert ChildRunning(v, p) && ChildRunning(v, q) && Shared(v);
    SharedIsUnsafe(v);
    BackLifted(t, Lock.TakeOver(q, pid));
  }

  /** The exact condition for one step: it is safe exactly when it is orderly. */
  lemma StepSafeIff(s: State, l: Label)
    requires Inv(s) && Enabled(s, l)
    ensures Safe(Apply(s, l)) <==> Orderly(s, l)
  {
    if Orderly(s, l) {
      StepKeepsInv(s, l);
      InvIsSafe(Apply(s, l));
    } else if l.l.Crash? {
      CrashSafeIff(s, l.l.p);
    } else {
      BadReclaimIsUnsafe(s, l.l.p);
    }
  }

  /** Every state the run passes through after its first step is safe. */
  ghost predicate AlwaysSafe(s: State, ls: seq<Label>)
    requires Run(s, ls)
    decreases |ls|
  {
    ls == [] || (Safe(Apply(s, ls[0])) && AlwaysSafe(Apply(s, ls[0]), ls[1..]))
  }

  lemma {:induction false} RunSafeFromInvIff(s: State, ls: seq<Label>)
    requires Inv(s) && Run(s, ls)
    ensures AlwaysSafe(s, ls) <==> OrderlyRun(s, ls)
    decreases |ls|
  {
    if ls != [] {
      StepSafeIff(s, ls[0]);
      if Orderly(s, ls[0]) {
        StepKeepsInv(s, ls[0]);
        RunSafeFromInvIff(Apply(s, ls[0]), ls[1..]);
      }
    }
  }

  /** The exact condition for one QEMU per state directory, over every run from an
    * initial state, with no hypothesis on its reclaims and crashes. */
  lemma RunSafeIff(s: State, ls: seq<Label>)
    requires Init(s) && Run(s, ls)
    ensures AlwaysSafe(s, ls) <==> OrderlyRun(s, ls)
  {
    Lock.InitInv(s.lock);
    RunSafeFromInvIff(s, ls);
  }

  function Lift(ls: seq<Lock.Label>): seq<Label> {
    seq(|ls|, i requires 0 <= i < |ls| => LockStep(ls[i]))
  }

  /** Appending one step to a run. */
  lemma {:induction false} RunSnoc(s: State, ls: seq<Label>, l: Label)
    requires Run(s, ls) && Enabled(Final(s, ls), l)
    ensures Run(s, ls + [l]) && Final(s, ls + [l]) == Apply(Final(s, ls), l)
    decreases |ls|
  {
    if ls == [] {
      assert [l][1..] == [];
    } else {
      RunSnoc(Apply(s, ls[0]), ls[1..], l);
      assert (ls + [l])[1..] == ls[1..] + [l];
    }
  }

  lemma {:induction false} RunAppend(s: State, ls: seq<Label>, ms: seq<Label>)
    requires Run(s, ls) && Run(Final(s, ls), ms)
    ensures Run(s, ls + ms) && Final(s, ls + ms) == Final(Final(s, ls), ms)
    decreases |ls|
  {
    if ls == [] {
      assert ls + ms == ms;
    } else {
      RunAppend(Apply(s, ls[0]), ls[1..], ms);
      assert (ls + ms)[1..] == ls[1..] + ms;
    }
  }
}
