/** `startQEMU` of the application: the instance lock around everything that touches
  * the state directory. The calls of `VmState` and `Supervision` are put together
  * into one run of the system of `LaunchSystem`. */
module Startup {
  import opened Wrappers
  import opened VmState
  import Disk
  import Lock = LockProtocol
  import Sys = LaunchSystem
  import opened Supervision

  datatype StartError = NotLocked(error: AcquireError) | PortsBusy | SeedFailed | RunFailed(cause: RunError)

  predicate OwnStep(l: Sys.Label, p: nat) {
    Sys.Actor(l) == p && (l.LockStep? ==> !l.l.Spawn? && !l.l.Crash?)
  }

  /** A run of the whole system in which only `p` moves, from `s` to `t`. */
  ghost predicate OwnSystemRun(s: Sys.State, ls: seq<Sys.Label>, t: Sys.State, p: nat) {
    && Sys.Run(s, ls) && Sys.Final(s, ls) == t
    && forall i :: 0 <= i < |ls| ==> OwnStep(ls[i], p)
  }

  lemma {:induction false} LockRunLifts(s: Sys.State, ms: seq<Lock.Label>, p: nat)
    requires Lock.Run(s.lock, ms) && OwnSteps(ms, p) && Sys.LaunchOf(s, p).phase.Outside?
    ensures OwnSystemRun(s, Sys.Lift(ms), s.(lock := Lock.Final(s.lock, ms)), p)
    decreases |ms|
  {
    if ms != [] {
      var l := Sys.LockStep(ms[0]);
      assert Sys.Lift(ms)[0] == l && Sys.Lift(ms)[1..] == Sys.Lift(ms[1..]);
      assert ms[0].p == p;
      LockRunLifts(Sys.Apply(s, l), ms[1..], p);
    }
  }

  lemma OwnRunsJoin(s: Sys.State, ls: seq<Sys.Label>, t: Sys.State, ms: seq<Sys.Label>, u: Sys.State, p: nat)
    requires OwnSystemRun(s, ls, t, p) && OwnSystemRun(t, ms, u, p)
    ensures OwnSystemRun(s, ls + ms, u, p)
  {
    Sys.RunAppend(s, ls, ms);
  }

  lemma OneStep(s: Sys.State, l: Sys.Label, p: nat)
    requires Sys.Enabled(s, l) && OwnStep(l, p)
    ensures OwnSystemRun(s, [l], Sys.Apply(s, l), p)
  {
    assert [l][1..] == [];
  }

  /** What the start needs to know about the host and the configuration. */
  datatype Setup = Setup(cache: map<string, Disk.Bytes>, digest: string, reset: bool, persist: bool,
                         candidates: seq<string>, specAccel: string, builds: bool, qmp: bool,
                         portsFree: bool, seedOk: bool)

  /** What the start comes to on the disk machine: nothing when it gives up first. */
  function DiskEvents(setup: Setup, report: Report, ws: seq<(nat, int)>): seq<Disk.Event> {
    if setup.portsFree && setup.seedOk then DiskHistory(setup.digest, setup.reset, setup.persist, report, ws) else []
  }

  /** The overlay and the pid file after a start that had the lock. */
  function AfterRun(setup: Setup, overlay: Option<Disk.Overlay>, pidFile: Sys.PidFile, p: nat, report: Report, ws: seq<(nat, int)>)
    : (Option<Disk.Overlay>, Sys.PidFile)
  {
    (Disk.Replay(Disk.State(setup.cache, overlay, None), DiskEvents(setup, report, ws)).overlay,
     if setup.portsFree && setup.seedOk then PidAfter(pidFile, p, report) else pidFile)
  }

  /** The starts of a start that got as far as `Run` account for its result. */
  predicate Explained(setup: Setup, r: Result<(), StartError>, report: Report) {
    var cands := Candidates(setup.candidates, setup.specAccel);
    if r.Ok? then Accounted(report, Ok(()), cands, setup.builds)
    else r.error.RunFailed? ==> Accounted(report, Err(r.error.cause), cands, setup.builds)
  }

  /** Everything between taking the lock and the deferred release. */
  method Locked(overlay: Option<Disk.Overlay>, pidFile: Sys.PidFile, setup: Setup, calm: bool, p: nat, ghost s: Sys.State)
    returns (r: Result<(), StartError>, after: Option<Disk.Overlay>, pidAfter: Sys.PidFile,
             ghost report: Report, ghost ws: seq<(nat, int)>, ghost ls: seq<Sys.Label>, ghost t: Sys.State)
    requires setup.digest in setup.cache && Lock.Holds(s.lock, p)
    requires Sys.LaunchOf(s, p) == Sys.Launch(Sys.Outside, Sys.NoChild) && s.overlay == overlay.Some? && s.pidFile == pidFile
    ensures OwnSystemRun(s, ls, t, p) && t.overlay == after.Some? && t.pidFile == pidAfter
    ensures t.lock == s.lock && Sys.LaunchOf(t, p).child.NoChild?
    ensures Sys.LaunchOf(t, p).phase.Outside? || Sys.LaunchOf(t, p).phase.Unwound?
    ensures r.Err? ==> !r.error.NotLocked?
    ensures (r.Err? && r.error.PortsBusy?) <==> !setup.portsFree
    ensures (r.Err? && r.error.SeedFailed?) <==> setup.portsFree && !setup.seedOk
    ensures (after, pidAfter) == AfterRun(setup, overlay, pidFile, p, report, ws)
    ensures calm ==> report.fault.None?
    ensures Explained(setup, r, report)
    ensures r.Ok? ==> report.survivor.Some? && (after == None <==> report.dropped) && (calm ==> report.dropped == !setup.persist)
  {
    ls, t, report, ws := [], s, InVain(None, false, 0, []), [];
    after, pidAfter := overlay, pidFile;
    if !setup.portsFree {
      r := Err(PortsBusy);
      return;
    }
    if !setup.seedOk {
      r := Err(SeedFailed);
      return;
    }
    var launcher := new Launcher(overlay, pidFile, s, p);
    var ran;
    ran, report := launcher.Run(setup.cache, setup.digest, setup.reset, setup.persist, setup.candidates,
                                setup.specAccel, setup.builds, setup.qmp, calm);
    after, pidAfter, ws := launcher.overlay, launcher.pidFile, launcher.writes;
    ls, t := launcher.trace, launcher.now;
    r := if ran.Err? then Err(RunFailed(ran.error)) else Ok(());
  }

  /** `startQEMU` from the moment it has the lock. */
  method RunAndRelease(state: StateDir, overlay: Option<Disk.Overlay>, pidFile: Sys.PidFile, setup: Setup, calm: bool,
                       p: nat, ghost s: Sys.State)
    returns (r: Result<(), StartError>, after: Option<Disk.Overlay>, pidAfter: Sys.PidFile, ghost released: bool,
             ghost report: Report, ghost ws: seq<(nat, int)>, ghost ls: seq<Sys.Label>, ghost t: Sys.State)
    requires state.Valid() && s.lock.file == state.file && setup.digest in setup.cache && Lock.Holds(s.lock, p)
    requires Sys.LaunchOf(s, p) == Sys.Launch(Sys.Outside, Sys.NoChild) && s.overlay == overlay.Some? && s.pidFile == pidFile
    modifies state
    ensures state.Valid() && OwnSystemRun(s, ls, t, p)
    ensures t.lock.file == state.file && t.overlay == after.Some? && t.pidFile == pidAfter
    ensures Sys.LaunchOf(t, p).child.NoChild?
    ensures Lock.Live(t.lock, p) && t.lock.procs[p].pc.Released? && (released ==> state.lock == None)
    ensures (after, pidAfter) == AfterRun(setup, overlay, pidFile, p, report, ws)
    ensures r.Err? ==> !r.error.NotLocked?
    ensures calm ==> released && report.fault.None?
    ensures Explained(setup, r, report)
    ensures r.Ok? ==> report.survivor.Some? && (after == None <==> report.dropped) && (calm ==> report.dropped == !setup.persist)
  {
    ghost var ns, u, l, unlocked;
    r, after, pidAfter, report, ws, ns, u := Locked(overlay, pidFile, setup, calm, p, s);
    released, l, unlocked := state.Release(calm, u.lock, p);
    OneStep(u, Sys.LockStep(l), p);
    OwnRunsJoin(s, ns, u, [Sys.LockStep(l)], Sys.Apply(u, Sys.LockStep(l)), p);
    ls, t := ns + [Sys.LockStep(l)], Sys.Apply(u, Sys.LockStep(l));
  }

  /** `startQEMU` by launcher `p` while no other launcher moves: from start to return
    * it is a run of the whole system. When it returns no child of its own is left;
    * without the lock it has touched neither the overlay nor the pid file; with it,
    * both are what the run made of them, and the lock is released unless its removal
    * failed. */
  method StartQEMU(state: StateDir, pid: nat, alive: int -> bool, overlay: Option<Disk.Overlay>, pidFile: Sys.PidFile,
                   setup: Setup, calm: bool, p: nat, ghost s: Sys.State)
    returns (r: Result<(), StartError>, after: Option<Disk.Overlay>, pidAfter: Sys.PidFile, ghost released: bool,
             ghost report: Report, ghost ws: seq<(nat, int)>, ghost ls: seq<Sys.Label>, ghost t: Sys.State)
    requires state.Valid() && s.lock.file == state.file && pid > 0 && setup.digest in setup.cache
    requires Lock.Live(s.lock, p) && s.lock.procs[p] == Lock.Proc(pid, true, Lock.Opening(0))
    requires forall q: int :: Lock.PidLive(s.lock, q) ==> alive(q)
    requires Sys.LaunchOf(s, p) == Sys.Launch(Sys.Outside, Sys.NoChild) && s.overlay == overlay.Some? && s.pidFile == pidFile
    modifies state
    ensures state.Valid() && OwnSystemRun(s, ls, t, p)
    ensures t.lock.file == state.file && t.overlay == after.Some? && t.pidFile == pidAfter
    ensures Sys.LaunchOf(t, p).child.NoChild?
    ensures Lock.Live(t.lock, p)
    ensures r.Err? && r.error.NotLocked? ==>
              after == overlay && pidAfter == pidFile && t.lock.procs[p].pc.Failed?
    ensures !(r.Err? && r.error.NotLocked?) ==>
              && (after, pidAfter) == AfterRun(setup, overlay, pidFile, p, report, ws)
              && t.lock.procs[p].pc.Released? && (released ==> state.lock == None)
    ensures calm ==> released && report.fault.None?
    ensures calm ==> (r.Err? && r.error.NotLocked? <==> old(state.Blocked(alive)))
    ensures Explained(setup, r, report)
    ensures r.Ok? ==> report.survivor.Some? && (after == None <==> report.dropped) && (calm ==> report.dropped == !setup.persist)
  {
    released, report, ws := true, InVain(None, false, 0, []), [];
    after, pidAfter := overlay, pidFile;
    var lock;
    ghost var ms, locked;
    lock, ms, locked := state.AcquireLock(pid, alive, calm, s.lock, p);
    LockRunLifts(s, ms, p);
    ls, t := Sys.Lift(ms), s.(lock := locked);
    if lock.Err? {
      r := Err(NotLocked(lock.error));
      return;
    }
    ghost var ns, u;
    r, after, pidAfter, released, report, ws, ns, u := RunAndRelease(state, overlay, pidFile, setup, calm, p, t);
    OwnRunsJoin(s, ls, t, ns, u, p);
    ls, t := ls + ns, u;
  }
}
